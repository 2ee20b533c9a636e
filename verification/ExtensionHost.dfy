/** Runtime generations and bind order of the extension host (src/plaik_core/extension_host.py).
    A runtime stands for its generation; the services behind its handles are not modelled. */
module ExtensionHosts {
  import opened Prelude
  import opened Dependencies
  import opened Registries
  import Order = InsertionOrder

  /** What every owner handle remembers; it works while the host still binds this generation. */
  datatype Handle = Handle(owner: PackageId, generation: nat)

  datatype Failure = LoadFailed | SchemaFailed | DeclarationFailed | RegisterFailed

  /** What goes wrong while one package is bound, if anything. */
  type Trouble = PackageId -> Option<Failure>

  function EnabledIds(records: Registry): set<PackageId> {
    set id | id in records && records[id].status == Enabled && records[id].manifest.kind in ["module", "integration"]
  }

  // ---------------------------------------------------------------------------------------
  // Bind order
  // ---------------------------------------------------------------------------------------

  function RequiredDependencies(ds: seq<Dependency>): seq<Dependency> {
    if ds == [] then []
    else RequiredDependencies(ds[..|ds| - 1]) + if ds[|ds| - 1].optional then [] else [ds[|ds| - 1]]
  }

  lemma {:induction false} RequiredExactly(ds: seq<Dependency>, d: Dependency)
    ensures d in RequiredDependencies(ds) <==> d in ds && !d.optional
  {
    if ds != [] {
      assert ds == ds[..|ds| - 1] + [ds[|ds| - 1]];
      RequiredExactly(ds[..|ds| - 1], d);
    }
  }

  /** The enabled packages with their required dependencies only. */
  function RequiredGraph(records: Registry, enabled: set<PackageId>): Packages {
    map id | id in enabled && id in records ::
      records[id].manifest.(dependencies := RequiredDependencies(records[id].manifest.dependencies))
  }

  predicate Needs(records: Registry, id: PackageId, other: PackageId) {
    id in records && exists d :: d in records[id].manifest.dependencies && d.packageId == other && !d.optional
  }

  lemma EdgeIsNeed(records: Registry, enabled: set<PackageId>, a: PackageId, b: PackageId)
    ensures Edge(RequiredGraph(records, enabled), a, b) <==>
            a in enabled && b in enabled && a in records && b in records && Needs(records, a, b)
  {
    var g := RequiredGraph(records, enabled);
    if Edge(g, a, b) {
      var d :| d in g[a].dependencies && d.packageId == b;
      RequiredExactly(records[a].manifest.dependencies, d);
    }
    if a in g && b in g && Needs(records, a, b) {
      var d :| d in records[a].manifest.dependencies && d.packageId == b && !d.optional;
      RequiredExactly(records[a].manifest.dependencies, d);
    }
  }

  /** Append the members of one round; none of them needs another that is still waiting. */
  method AppendRound(ghost g: Packages, ordered: seq<PackageId>, ghost listed: set<PackageId>, ready: set<PackageId>)
    returns (longer: seq<PackageId>)
    requires Order.Lists(ordered, listed) && ready !! listed
    ensures Order.Lists(longer, listed + ready)
    ensures DependenciesFirst(g, ordered) && RoundFits(g, ordered, ready) ==> DependenciesFirst(g, longer)
  {
    longer := ordered;
    var rest := ready;
    assert listed + (ready - rest) == listed;
    while rest != {}
      invariant rest <= ready && Order.Lists(longer, listed + (ready - rest))
      invariant forall id :: id in ordered ==> id in longer
      invariant DependenciesFirst(g, ordered) && RoundFits(g, ordered, ready) ==> DependenciesFirst(g, longer)
      decreases rest
    {
      var id :| id in rest;
      if DependenciesFirst(g, ordered) && RoundFits(g, ordered, ready) {
        FinishOne(g, longer, id);
      }
      Order.AppendLists(longer, listed + (ready - rest), id);
      assert listed + (ready - rest) + {id} == listed + (ready - (rest - {id}));
      longer := longer + [id];
      rest := rest - {id};
    }
    assert listed + (ready - rest) == listed + ready;
  }

  /** What the members of a round need is listed before the round. */
  ghost predicate RoundFits(g: Packages, ordered: seq<PackageId>, ready: set<PackageId>) {
    ready <= g.Keys && forall a, b :: a in ready && Edge(g, a, b) ==> b in ordered
  }

  /** `_enable_bind_order`: a permutation of the enabled packages, with required dependencies first
      exactly when the required dependencies among them have no cycle. */
  method EnableBindOrder(records: Registry, enabled: set<PackageId>) returns (ordered: seq<PackageId>)
    requires enabled <= records.Keys
    ensures Order.Lists(ordered, enabled)
    ensures DependenciesFirst(RequiredGraph(records, enabled), ordered) <==> Acyclic(RequiredGraph(records, enabled), enabled)
  {
    ghost var g := RequiredGraph(records, enabled);
    assert g.Keys == enabled;
    ordered := [];
    var remaining := enabled;
    while remaining != {}
      invariant remaining <= enabled && Order.Lists(ordered, enabled - remaining)
      invariant Acyclic(g, enabled) ==> DependenciesFirst(g, ordered)
      decreases remaining
    {
      var ready := set id | id in remaining &&
        forall d :: d in records[id].manifest.dependencies ==> d.optional || d.packageId !in remaining;
      if Acyclic(g, enabled) {
        ReadyExists(records, enabled, ordered, remaining, ready);
      }
      if ready == {} {
        ready := remaining;
      }
      ordered := AppendRound(g, ordered, enabled - remaining, ready);
      assert enabled - remaining + ready == enabled - (remaining - ready);
      remaining := remaining - ready;
    }
    if DependenciesFirst(g, ordered) {
      OrderedIsAcyclic(g, enabled, ordered);
    }
  }

  /** Without a cycle some remaining package needs no other remaining one, and what ready packages
      need is already listed. */
  lemma ReadyExists(records: Registry, enabled: set<PackageId>, ordered: seq<PackageId>, remaining: set<PackageId>,
                    ready: set<PackageId>)
    requires enabled <= records.Keys && remaining <= enabled && remaining != {}
    requires forall id :: id in ordered <==> id in enabled && id !in remaining
    requires ready == set id | id in remaining &&
                        forall d :: d in records[id].manifest.dependencies ==> d.optional || d.packageId !in remaining
    requires Acyclic(RequiredGraph(records, enabled), enabled)
    ensures ready != {} && RoundFits(RequiredGraph(records, enabled), ordered, ready)
  {
    var g := RequiredGraph(records, enabled);
    assert g.Keys == enabled;
    forall a, b | a in ready && Edge(g, a, b) ensures b in ordered {
      EdgeIsNeed(records, enabled, a, b);
    }
    var first :| first in remaining;
    assert remaining == g.Keys - (set id | id in ordered);
    var last := ReadyBelow(g, ordered, remaining, [first]);
    forall d | d in records[last].manifest.dependencies ensures d.optional || d.packageId !in remaining {
      if !d.optional && d.packageId in remaining {
        EdgeIsNeed(records, enabled, last, d.packageId);
        assert Needs(records, last, d.packageId);
      }
    }
    assert last in ready;
  }

  /** Registry closure rules the cycle out, so every reachable registry binds dependencies first. */
  lemma ClosureBindsDependenciesFirst(vm: Matcher, core: string, records: Registry, enabled: set<PackageId>)
    requires Closed(vm, core, records) && enabled <= records.Keys
    ensures Acyclic(RequiredGraph(records, enabled), enabled)
  {
    var g, all := RequiredGraph(records, enabled), Manifests(records);
    forall p | IsPath(g, p) ensures !ClosesCycle(g, enabled, p) {
      forall i | 0 <= i < |p| - 1 ensures Edge(all, p[i], p[i + 1]) {
        assert Edge(g, p[i], p[i + 1]);
        EdgeIsNeed(records, enabled, p[i], p[i + 1]);
        var d :| d in records[p[i]].manifest.dependencies && d.packageId == p[i + 1] && !d.optional;
        assert d in all[p[i]].dependencies;
      }
      assert IsPath(all, p);
    }
  }

  // ---------------------------------------------------------------------------------------
  // The host
  // ---------------------------------------------------------------------------------------

  /** A failing `register` matters only when the extension has one. */
  predicate Fails(trouble: Option<Failure>, hasRegister: bool) {
    trouble.Some? && (trouble.value.RegisterFailed? ==> hasRegister)
  }

  /** Runtimes bound before are kept, new ones have generations above every earlier one. */
  ghost predicate Progress(before: map<PackageId, nat>, earlier: nat, now: map<PackageId, nat>, enabled: set<PackageId>,
                           done: seq<PackageId>) {
    && (forall id :: id in now <==> id in enabled && (id in before || id in done))
    && (forall id :: id in now ==> if id in before then now[id] == before[id] else now[id] > earlier)
  }

  lemma ProgressStep(before: map<PackageId, nat>, earlier: nat, now: map<PackageId, nat>, enabled: set<PackageId>,
                     done: seq<PackageId>, id: PackageId, generation: nat)
    requires Progress(before, earlier, now, enabled, done) && id in enabled && generation > earlier
    ensures id in now ==> Progress(before, earlier, now, enabled, done + [id])
    ensures id !in now ==> Progress(before, earlier, now[id := generation], enabled, done + [id])
  {
  }

  /** The generations after a failure: only a failing event declaration leaves one behind, and a
      failing `register` takes back the one it was given. */
  function LeftBehind(before: map<PackageId, nat>, id: PackageId, epoch: nat, failure: Failure): map<PackageId, nat> {
    match failure
    case LoadFailed => before
    case SchemaFailed => before
    case DeclarationFailed => before[id := epoch]
    case RegisterFailed => before - {id}
  }

  /** A generation belongs to one owner. */
  predicate OneOwner(h: Handle, other: Handle) {
    h.generation == other.generation ==> h == other
  }

  class ExtensionHost {
    var runtimes: map<PackageId, nat>
    var registered: set<PackageId>
    var generations: map<PackageId, nat>
    var epoch: nat
    var active: set<PackageId>

    /** Every handle ever given to an extension. */
    ghost var issued: set<Handle>

    /** The check in front of every handle operation. */
    predicate Bound(h: Handle)
      reads this
    {
      h.owner in generations && generations[h.owner] == h.generation
    }

    ghost predicate Valid()
      reads this
    {
      && (forall h :: h in issued ==> 1 <= h.generation <= epoch)
      && (forall h, other {:trigger OneOwner(h, other)} :: h in issued && other in issued ==> OneOwner(h, other))
      && (forall id :: id in generations ==> Handle(id, generations[id]) in issued)
      && (forall id :: id in runtimes ==> id in generations && generations[id] == runtimes[id])
      && active == runtimes.Keys
    }

    /** Handles that stopped working stay dead, and generations are never reused. */
    twostate predicate NeverRevived()
      reads this
    {
      && old(issued) <= issued && old(epoch) <= epoch
      && forall h :: h in old(issued) && !old(Bound(h)) ==> !Bound(h)
    }

    constructor ()
      ensures Valid() && runtimes == map[] && generations == map[] && issued == {}
    {
      runtimes, registered, generations, epoch, active, issued := map[], {}, map[], 0, {}, {};
    }

    /** `_unbind_generation`: from here on every handle of the owner fails. */
    method UnbindGeneration(id: PackageId)
      modifies this`generations
      ensures generations == old(generations) - {id}
    {
      generations := generations - {id};
    }

    /** `_drop_unenabled_locked`: afterwards the generations are exactly those of the enabled
        runtimes, so a generation left behind by a failed build is gone, too. */
    method DropUnenabled(records: Registry) returns (enabled: set<PackageId>)
      requires Valid()
      modifies this
      ensures Valid() && NeverRevived() && enabled == EnabledIds(records)
      ensures runtimes == (map id | id in old(runtimes) && id in enabled :: old(runtimes)[id])
      ensures generations == runtimes && epoch == old(epoch) && issued == old(issued)
      ensures registered == set id | id in old(registered) && id in records
    {
      enabled := EnabledIds(records);
      DropRuntimes(enabled);
      DropGenerations(enabled);
      registered := set id | id in registered && id in records;
    }

    method DropRuntimes(enabled: set<PackageId>)
      requires Valid()
      modifies this`runtimes, this`generations, this`active
      ensures Valid() && NeverRevived()
      ensures runtimes == (map id | id in old(runtimes) && id in enabled :: old(runtimes)[id])
    {
      var dropping := runtimes.Keys - enabled;
      var rest := dropping;
      while rest != {}
        invariant rest <= dropping && Valid() && NeverRevived()
        invariant runtimes == old(runtimes) - (dropping - rest)
        decreases rest
      {
        var id :| id in rest;
        DropRuntime(id);
        rest := rest - {id};
      }
      assert runtimes == map id | id in old(runtimes) && id in enabled :: old(runtimes)[id];
    }

    method DropRuntime(id: PackageId)
      requires Valid() && id in runtimes
      modifies this`runtimes, this`generations, this`active
      ensures Valid() && NeverRevived() && runtimes == old(runtimes) - {id}
    {
      UnbindGeneration(id);
      active := active - {id};
      runtimes := runtimes - {id};
    }

    method DropGenerations(enabled: set<PackageId>)
      requires Valid() && runtimes.Keys <= enabled
      modifies this`generations
      ensures Valid() && NeverRevived() && generations == runtimes
    {
      var rest := generations.Keys;
      while rest != {}
        invariant rest <= generations.Keys && Valid() && NeverRevived()
        invariant forall id :: id in generations && id !in rest ==> id in runtimes
        decreases rest
      {
        var id :| id in rest;
        if id !in enabled || id !in runtimes {
          UnbindGeneration(id);
        }
        rest := rest - {id};
      }
    }

    /** `_build_runtime`: a new generation, or an error before or after it was recorded. */
    method BuildRuntime(id: PackageId, trouble: Option<Failure>) returns (runtime: Option<nat>)
      requires Valid() && id !in runtimes
      modifies this`epoch, this`generations, this`issued
      ensures Valid() && NeverRevived()
      ensures runtime.None? <==> trouble.Some? && (trouble.value.SchemaFailed? || trouble.value.DeclarationFailed?)
      ensures runtime.Some? ==>
                && runtime.value == epoch == old(epoch) + 1 && generations == old(generations)[id := epoch]
                && Handle(id, epoch) in issued
      ensures runtime.None? ==>
                if trouble == Some(DeclarationFailed) then
                  epoch == old(epoch) + 1 && generations == old(generations)[id := epoch]
                else
                  epoch == old(epoch) && generations == old(generations)
    {
      if trouble.Some? && trouble.value.SchemaFailed? {
        return None;
      }
      epoch := epoch + 1;
      issued := issued + {Handle(id, epoch)};
      generations := generations[id := epoch];
      if trouble.Some? && trouble.value.DeclarationFailed? {
        return None;
      }
      return Some(epoch);
    }

    /** Bind one enabled package that has no runtime. */
    method Bind(id: PackageId, hasRegister: bool, trouble: Option<Failure>) returns (ok: bool)
      requires Valid() && id !in runtimes
      modifies this
      ensures Valid() && NeverRevived() && (ok <==> !Fails(trouble, hasRegister))
      ensures ok ==>
                && runtimes == old(runtimes)[id := epoch] && generations == old(generations)[id := epoch]
                && epoch == old(epoch) + 1
      ensures !ok ==> runtimes == old(runtimes)
      ensures !ok ==> generations == LeftBehind(old(generations), id, epoch, trouble.value)
    {
      if trouble.Some? && trouble.value.LoadFailed? {
        return false;
      }
      if id in registered && hasRegister {
        registered := registered - {id};
      }
      var runtime := BuildRuntime(id, trouble);
      if runtime.None? {
        return false;
      }
      if id !in registered && hasRegister && trouble.Some? && trouble.value.RegisterFailed? {
        Withdraw(id);
        return false;
      }
      Retain(id);
      return true;
    }

    /** `register` failed: unbind what was built. */
    method Withdraw(id: PackageId)
      requires Valid() && id !in runtimes
      modifies this`generations, this`registered, this`active
      ensures Valid() && NeverRevived() && generations == old(generations) - {id}
    {
      UnbindGeneration(id);
      registered, active := registered - {id}, active - {id};
    }

    /** The runtime is built and registered: keep it and open its registries. */
    method Retain(id: PackageId)
      requires Valid() && id in generations
      modifies this`runtimes, this`registered, this`active
      ensures Valid() && runtimes == old(runtimes)[id := generations[id]]
    {
      runtimes := runtimes[id := generations[id]];
      registered := registered + {id};
      active := active + {id};
    }

    /** `sync_enabled`. After a normal sync exactly the enabled modules and integrations have a
        runtime and a generation; runtimes that were bound before are kept, new ones get
        generations above every earlier one. A failure leaves the rest consistent. */
    method SyncEnabled(records: Registry, hasRegister: PackageId -> bool, trouble: Trouble)
      returns (failed: Option<PackageId>, bound: seq<nat>, ghost order: seq<PackageId>)
      requires Valid()
      modifies this
      ensures Valid() && NeverRevived()
      ensures failed.None? ==>
                && runtimes.Keys == EnabledIds(records) && generations == runtimes && active == EnabledIds(records)
                && Reports(bound, order, runtimes)
      ensures var g := RequiredGraph(records, EnabledIds(records));
              && Order.Lists(order, EnabledIds(records))
              && (DependenciesFirst(g, order) <==> Acyclic(g, EnabledIds(records)))
      ensures failed.Some? ==>
                && runtimes.Keys < EnabledIds(records) && failed.value in EnabledIds(records) - runtimes.Keys
                && Fails(trouble(failed.value), hasRegister(failed.value))
                && generations == LeftBehind(runtimes, failed.value, epoch, trouble(failed.value).value)
      ensures forall id :: id in runtimes ==>
                if id in old(runtimes) then runtimes[id] == old(runtimes)[id] else runtimes[id] > old(epoch)
      ensures (forall id :: id in EnabledIds(records) && id !in old(runtimes) ==> !Fails(trouble(id), hasRegister(id))) ==>
                failed.None?
    {
      var enabled := DropUnenabled(records);
      var ids := EnableBindOrder(records, enabled);
      order := ids;
      ghost var done;
      failed, bound, done := BindAll(ids, enabled, hasRegister, trouble);
    }

    /** Bind the packages of the order one after another, up to the first failure. */
    method BindAll(ids: seq<PackageId>, ghost enabled: set<PackageId>, hasRegister: PackageId -> bool, trouble: Trouble)
      returns (failed: Option<PackageId>, bound: seq<nat>, ghost done: seq<PackageId>)
      requires Valid() && generations == runtimes && runtimes.Keys <= enabled
      requires forall id :: id in ids <==> id in enabled
      modifies this
      ensures Valid() && NeverRevived()
      ensures Progress(old(runtimes), old(epoch), runtimes, enabled, done)
      ensures failed.None? ==> generations == runtimes && done == ids && Reports(bound, ids, runtimes)
      ensures failed.Some? ==>
                && failed.value in enabled && failed.value !in runtimes
                && Fails(trouble(failed.value), hasRegister(failed.value))
                && generations == LeftBehind(runtimes, failed.value, epoch, trouble(failed.value).value)
    {
      failed, bound, done := None, [], [];
      var k := 0;
      while k < |ids|
        invariant 0 <= k <= |ids| && Valid() && NeverRevived() && generations == runtimes && done == ids[..k]
        invariant Progress(old(runtimes), old(epoch), runtimes, enabled, done) && old(epoch) <= epoch
        invariant Reports(bound, ids[..k], runtimes)
      {
        var id := ids[k];
        assert ids[..k + 1] == ids[..k] + [id];
        ProgressStep(old(runtimes), old(epoch), runtimes, enabled, done, id, epoch + 1);
        if id !in runtimes {
          var ok := Bind(id, hasRegister(id), trouble(id));
          if !ok {
            return Some(id), bound, done;
          }
        }
        bound := bound + [runtimes[id]];
        done := done + [id];
        k := k + 1;
      }
      assert ids[..k] == ids;
    }

    /** Over any sequence of syncs, failing or not, and revocations: a handle that once stopped
        working never works again. */
    method AnyRun(requests: seq<Request>)
      requires Valid()
      modifies this
      ensures Valid() && NeverRevived()
    {
      for k := 0 to |requests|
        invariant Valid() && NeverRevived()
      {
        match requests[k]
        case Sync(records, hasRegister, trouble) =>
          var failed, bound, order := SyncEnabled(records, hasRegister, trouble);
        case Revoke(records) =>
          var enabled := DropUnenabled(records);
      }
    }
  }

  datatype Request =
    | Sync(records: Registry, hasRegister: PackageId -> bool, trouble: Trouble)
    | Revoke(records: Registry)

  /** The runtimes returned to the caller, in bind order. */
  ghost predicate Reports(bound: seq<nat>, order: seq<PackageId>, runtimes: map<PackageId, nat>) {
    |bound| == |order| && forall i :: 0 <= i < |order| ==> order[i] in runtimes && bound[i] == runtimes[order[i]]
  }
}

/** The package registry and the guards of the lifecycle (src/plaik_core/package_lifecycle.py),
    with the closure every guarded change keeps. */
module Registries {
  import opened Prelude
  import opened Dependencies

  datatype Status = Installed | Enabled | Disabled

  datatype PackageRecord = PackageRecord(manifest: Manifest, status: Status)

  type Registry = map<PackageId, PackageRecord>

  function Manifests(reg: Registry): Packages {
    map id | id in reg :: reg[id].manifest
  }

  /** The packages whose capabilities count: enabled ones, with one added or one left out. */
  function Selected(reg: Registry, enabling: Option<PackageId>, disabling: Option<PackageId>): Packages {
    map id | id in reg && Some(id) != disabling && (reg[id].status == Enabled || Some(id) == enabling) ::
      reg[id].manifest
  }

  predicate EnabledDependency(vm: Matcher, reg: Registry, d: Dependency) {
    d.optional ||
    (&& d.packageId in reg && reg[d.packageId].status == Enabled
     && VersionMatches(vm, reg[d.packageId].manifest.version, d.version))
  }

  /** `_require_enabled_dependencies` raises nothing. */
  predicate EnabledDependencies(vm: Matcher, reg: Registry, id: PackageId) {
    id in reg && forall d :: d in reg[id].manifest.dependencies ==> EnabledDependency(vm, reg, d)
  }

  predicate DependsOn(m: Manifest, id: PackageId) {
    exists d :: d in m.dependencies && d.packageId == id && !d.optional
  }

  /** `_required_dependents`: who needs `id`, among all packages or among the enabled ones. */
  function RequiredDependents(reg: Registry, id: PackageId, enabledOnly: bool): set<PackageId> {
    set other | other in reg && (!enabledOnly || reg[other].status == Enabled) && DependsOn(reg[other].manifest, id)
  }

  /** `_validate_graph` raises nothing: the resolver accepts the whole registry as one batch. */
  ghost predicate GraphValid(vm: Matcher, core: string, reg: Registry) {
    && Declared(vm, core, Manifests(reg))
    && CapabilitiesMet(vm, Manifests(reg))
    && Acyclic(Manifests(reg), Manifests(reg).Keys)
  }

  /** What every reachable registry satisfies. */
  ghost predicate Closed(vm: Matcher, core: string, reg: Registry) {
    && (forall id :: id in reg ==> reg[id].manifest.id == id)
    && Declared(vm, core, Manifests(reg))
    && Acyclic(Manifests(reg), Manifests(reg).Keys)
    && (forall id :: id in reg && reg[id].status == Enabled ==> EnabledDependencies(vm, reg, id))
    && CapabilitiesMet(vm, Selected(reg, None, None))
  }

  lemma EmptyIsClosed(vm: Matcher, core: string)
    ensures Closed(vm, core, map[])
  {
    NoEdgesNoCycle(Manifests(map[]), {});
    assert Manifests(map[]).Keys == {};
  }

  /** Install (`status` is Installed) and update (`status` is the old one) keep the closure. */
  lemma PutKeepsClosed(vm: Matcher, core: string, reg: Registry, m: Manifest, status: Status)
    requires Closed(vm, core, reg)
    requires status == if m.id in reg then reg[m.id].status else Installed
    requires var after := reg[m.id := PackageRecord(m, status)];
             && GraphValid(vm, core, after)
             && (status == Enabled ==>
                   EnabledDependencies(vm, after, m.id) && CapabilitiesMet(vm, Selected(after, None, None)))
    ensures Closed(vm, core, reg[m.id := PackageRecord(m, status)])
  {
    var after := reg[m.id := PackageRecord(m, status)];
    forall id | id in after && after[id].status == Enabled ensures EnabledDependencies(vm, after, id) {
      if id != m.id {
        assert EnabledDependencies(vm, reg, id);
        assert ManifestOk(vm, core, Manifests(after), Manifests(after)[id]);
        forall d | d in after[id].manifest.dependencies ensures EnabledDependency(vm, after, d) {
          assert EnabledDependency(vm, reg, d);
          assert DependencyOk(vm, Manifests(after), d);
        }
      }
    }
    if status != Enabled {
      assert Selected(after, None, None) == Selected(reg, None, None);
    }
  }

  lemma EnableKeepsClosed(vm: Matcher, core: string, reg: Registry, id: PackageId)
    requires Closed(vm, core, reg) && EnabledDependencies(vm, reg, id)
    requires CapabilitiesMet(vm, Selected(reg, Some(id), None))
    ensures Closed(vm, core, reg[id := reg[id].(status := Enabled)])
  {
    var after := reg[id := reg[id].(status := Enabled)];
    assert id in reg;
    assert Manifests(after) == Manifests(reg);
    assert Selected(after, None, None) == Selected(reg, Some(id), None);
    forall other | other in after && after[other].status == Enabled ensures EnabledDependencies(vm, after, other) {
      assert EnabledDependencies(vm, reg, other);
      forall d | d in after[other].manifest.dependencies ensures EnabledDependency(vm, after, d) {
        assert EnabledDependency(vm, reg, d);
      }
    }
  }

  lemma DisableKeepsClosed(vm: Matcher, core: string, reg: Registry, id: PackageId)
    requires Closed(vm, core, reg) && id in reg && RequiredDependents(reg, id, true) == {}
    requires CapabilitiesMet(vm, Selected(reg, None, Some(id)))
    ensures Closed(vm, core, reg[id := reg[id].(status := Disabled)])
  {
    var after := reg[id := reg[id].(status := Disabled)];
    assert Manifests(after) == Manifests(reg);
    assert Selected(after, None, None) == Selected(reg, None, Some(id));
    forall other | other in after && after[other].status == Enabled ensures EnabledDependencies(vm, after, other) {
      assert EnabledDependencies(vm, reg, other);
      assert other !in RequiredDependents(reg, id, true);
      forall d | d in after[other].manifest.dependencies ensures EnabledDependency(vm, after, d) {
        assert EnabledDependency(vm, reg, d);
      }
    }
  }

  lemma UninstallKeepsClosed(vm: Matcher, core: string, reg: Registry, id: PackageId)
    requires Closed(vm, core, reg) && id in reg && reg[id].status != Enabled
    requires RequiredDependents(reg, id, false) == {}
    ensures Closed(vm, core, reg - {id})
  {
    var after := reg - {id};
    var all, rest := Manifests(reg), Manifests(after);
    assert Selected(after, None, None) == Selected(reg, None, None);
    forall other | other in after
      ensures ManifestOk(vm, core, rest, rest[other])
      ensures after[other].status == Enabled ==> EnabledDependencies(vm, after, other)
    {
      assert ManifestOk(vm, core, all, all[other]);
      assert other !in RequiredDependents(reg, id, false);
      forall d | d in rest[other].dependencies
        ensures DependencyOk(vm, rest, d)
        ensures after[other].status == Enabled ==> EnabledDependency(vm, after, d)
      {
        assert DependencyOk(vm, all, d);
        if after[other].status == Enabled {
          assert EnabledDependency(vm, reg, d);
        }
      }
      forall c | c in rest[other].conflicts ensures ConflictFree(vm, rest, c) {
        assert ConflictFree(vm, all, c);
      }
    }
    SubgraphAcyclic(reg, id);
  }

  /** Removing a package removes paths and adds none. */
  lemma SubgraphAcyclic(reg: Registry, id: PackageId)
    requires Acyclic(Manifests(reg), Manifests(reg).Keys)
    ensures Acyclic(Manifests(reg - {id}), Manifests(reg - {id}).Keys)
  {
    var all, rest := Manifests(reg), Manifests(reg - {id});
    forall p | IsPath(rest, p) ensures !ClosesCycle(rest, rest.Keys, p) {
      forall i | 0 <= i < |p| - 1 ensures Edge(all, p[i], p[i + 1]) {
        assert Edge(rest, p[i], p[i + 1]);
      }
      assert IsPath(all, p);
    }
  }

  /** Every requirement that `id` meets for another package is also met by a third. */
  predicate Replaceable(vm: Matcher, reg: Registry, id: PackageId)
    requires id in reg
  {
    forall other, r :: other in reg && other != id && r in reg[other].manifest.requirements ==>
      r.optional || !Provides(vm, reg[id].manifest, r) || ProvidedWithout(vm, reg, id, r)
  }

  predicate ProvidedWithout(vm: Matcher, reg: Registry, id: PackageId, r: Requirement) {
    exists p :: p in reg && p != id && Provides(vm, reg[p].manifest, r)
  }

  /** When an allowed uninstall keeps the graph check of the next install satisfied: exactly when the
      package is replaceable as a provider, which can be looked up before the call. */
  lemma UninstallKeepsGraphExactly(vm: Matcher, core: string, reg: Registry, id: PackageId)
    requires Closed(vm, core, reg) && GraphValid(vm, core, reg)
    requires id in reg && reg[id].status != Enabled && RequiredDependents(reg, id, false) == {}
    ensures GraphValid(vm, core, reg - {id}) <==> Replaceable(vm, reg, id)
  {
    UninstallKeepsClosed(vm, core, reg, id);
    var all, rest := Manifests(reg), Manifests(reg - {id});
    if Replaceable(vm, reg, id) {
      forall other, r | other in rest && r in rest[other].requirements ensures RequirementMet(vm, rest, r) {
        assert other in all && r in all[other].requirements && RequirementMet(vm, all, r);
        if !r.optional {
          var p :| p in all && Provides(vm, all[p], r);
          if p == id {
            assert ProvidedWithout(vm, reg, id, r);
            p :| p in reg && p != id && Provides(vm, reg[p].manifest, r);
          }
          assert p in rest && Provides(vm, rest[p], r);
        }
      }
    }
    if GraphValid(vm, core, reg - {id}) {
      forall other, r | other in reg && other != id && r in reg[other].manifest.requirements && !r.optional
        ensures ProvidedWithout(vm, reg, id, r)
      {
        assert other in rest && r in rest[other].requirements && RequirementMet(vm, rest, r);
        var p :| p in rest && Provides(vm, rest[p], r);
        assert p in reg && p != id;
      }
    }
  }

  /** Capability closure over merely installed packages is not kept: an installed provider with no
      declared dependents can be uninstalled from under an installed requirer, and after that the
      graph check refuses every registry that still holds the requirer and no other provider. */
  lemma UninstallMayStrandCapability(vm: Matcher, core: string) returns (reg: Registry, provider: PackageId)
    ensures Closed(vm, core, reg) && GraphValid(vm, core, reg)
    ensures provider in reg && reg[provider].status != Enabled && RequiredDependents(reg, provider, false) == {}
    ensures Closed(vm, core, reg - {provider}) && !GraphValid(vm, core, reg - {provider})
  {
    var giver := Manifest("giver", "1", "*", "module", [], [], [Capability("tax", "1")], [], false);
    var taker := Manifest("taker", "1", "*", "module", [], [], [], [Requirement("tax", "*", false)], false);
    provider := "giver";
    reg := map["giver" := PackageRecord(giver, Installed), "taker" := PackageRecord(taker, Installed)];
    var all := Manifests(reg);
    assert all == map["giver" := giver, "taker" := taker];
    assert Capability("tax", "1") in giver.capabilities;
    assert Provides(vm, all["giver"], Requirement("tax", "*", false));
    assert Selected(reg, None, None) == map[];
    NoEdgesNoCycle(all, all.Keys);
    UninstallKeepsClosed(vm, core, reg, provider);
    var rest := Manifests(reg - {provider});
    assert rest == map["taker" := taker];
    assert "taker" in rest && Requirement("tax", "*", false) in rest["taker"].requirements;
    assert !RequirementMet(vm, rest, Requirement("tax", "*", false));
  }

  lemma NoEdgesNoCycle(all: Packages, roots: set<PackageId>)
    requires forall id :: id in all ==> all[id].dependencies == []
    ensures Acyclic(all, roots)
  {
    forall p | IsPath(all, p) ensures !ClosesCycle(all, roots, p) {
      assert |p| >= 2 ==> Edge(all, p[0], p[1]);
    }
  }

  /** A closed registry can be listed with every package after all its dependencies. */
  lemma ClosedHasOrder(vm: Matcher, core: string, reg: Registry) returns (order: seq<PackageId>)
    requires Closed(vm, core, reg)
    ensures DependenciesFirst(Manifests(reg), order) && forall id :: id in reg ==> id in order
  {
    order := AcyclicHasOrder(Manifests(reg), [], Manifests(reg).Keys);
  }

  /** Depth-first existence proof: an acyclic graph can be listed dependencies first. */
  lemma {:induction false} AcyclicHasOrder(all: Packages, done: seq<PackageId>, rest: set<PackageId>)
    returns (order: seq<PackageId>)
    requires Acyclic(all, all.Keys) && DependenciesFirst(all, done)
    requires rest <= all.Keys && rest == all.Keys - (set id | id in done)
    ensures DependenciesFirst(all, order) && forall id :: id in all ==> id in order
    decreases rest
  {
    if rest == {} {
      order := done;
      forall id | id in all ensures id in order {
        assert id !in rest;
      }
    } else {
      var id :| id in rest;
      var ready := ReadyBelow(all, done, rest, [id]);
      FinishOne(all, done, ready);
      order := AcyclicHasOrder(all, done + [ready], rest - {ready});
    }
  }

  /** Walk down unfinished dependencies until one is ready; without a cycle the walk is finite. */
  lemma {:induction false} ReadyBelow(all: Packages, done: seq<PackageId>, rest: set<PackageId>, p: seq<PackageId>)
    returns (ready: PackageId)
    requires Acyclic(all, all.Keys) && IsPath(all, p)
    requires rest == all.Keys - (set id | id in done)
    requires forall i :: 0 <= i < |p| ==> p[i] in rest
    requires forall i, j :: 0 <= i < j < |p| ==> p[i] != p[j]
    ensures ready in rest && forall b :: Edge(all, ready, b) ==> b in done
    decreases rest - (set id | id in p)
  {
    var last := p[|p| - 1];
    if b :| Edge(all, last, b) && b !in done {
      PathExtends(all, p, b);
      assert !ClosesCycle(all, all.Keys, p + [b]);
      assert (p + [b])[..|p|] == p;
      assert b in rest - (set id | id in p) && b !in rest - (set id | id in p + [b]);
      ready := ReadyBelow(all, done, rest, p + [b]);
    } else {
      ready := last;
    }
  }

  lemma {:induction false} ListedAreCandidates(manifests: seq<Manifest>)
    ensures forall i :: 0 <= i < |manifests| ==> manifests[i].id in Candidates(manifests)
  {
    if manifests != [] {
      ListedAreCandidates(manifests[..|manifests| - 1]);
    }
  }

  method ListManifests(reg: Registry) returns (manifests: seq<Manifest>)
    requires forall id :: id in reg ==> reg[id].manifest.id == id
    ensures Distinct(manifests) && Candidates(manifests) == Manifests(reg)
  {
    manifests := [];
    var rest := reg.Keys;
    while rest != {}
      invariant rest <= reg.Keys && Distinct(manifests)
      invariant Candidates(manifests) == Manifests(reg) - rest
      decreases rest
    {
      var id :| id in rest;
      ListedAreCandidates(manifests);
      assert (manifests + [reg[id].manifest])[..|manifests|] == manifests;
      manifests := manifests + [reg[id].manifest];
      rest := rest - {id};
    }
  }

  /** `_validate_graph`: hand every installed manifest to the resolver as one batch. */
  method ValidateGraph(vm: Matcher, core: string, reg: Registry) returns (ok: bool)
    requires forall id :: id in reg ==> reg[id].manifest.id == id
    ensures ok <==> GraphValid(vm, core, reg)
  {
    var manifests := ListManifests(reg);
    var resolved := ResolveInstallOrder(vm, core, manifests, map[]);
    assert map[] + Candidates(manifests) == Manifests(reg);
    return resolved.Success?;
  }
}

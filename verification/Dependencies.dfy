/** Dependency resolution (src/plaik_core/dependencies.py). Versions and
    specifiers are opaque; the matching relation of the packaging library is a parameter. */
module Dependencies {
  import opened Prelude

  type PackageId = string
  type Matcher = (string, string) -> bool

  datatype Dependency = Dependency(packageId: PackageId, version: string, optional: bool)
  datatype Conflict = Conflict(packageId: PackageId, version: string)
  datatype Capability = Capability(id: string, version: string)
  datatype Requirement = Requirement(id: string, version: string, optional: bool)

  datatype Manifest = Manifest(
    id: PackageId, version: string, core: string, kind: string, dependencies: seq<Dependency>,
    conflicts: seq<Conflict>, capabilities: seq<Capability>, requirements: seq<Requirement>,
    migrations: bool)

  type Packages = map<PackageId, Manifest>

  datatype ResolveError =
    | DuplicatePackage | IdentityMismatch | DeclarationRejected | CapabilityMissing
    | DependencyCycle(trail: seq<PackageId>)

  predicate VersionMatches(vm: Matcher, version: string, specifier: string) {
    specifier == "*" || vm(version, specifier)
  }

  // ---------------------------------------------------------------------------------------
  // Declarations
  // ---------------------------------------------------------------------------------------

  predicate DependencyOk(vm: Matcher, all: Packages, d: Dependency) {
    if d.packageId in all then VersionMatches(vm, all[d.packageId].version, d.version) else d.optional
  }

  predicate ConflictFree(vm: Matcher, all: Packages, c: Conflict) {
    c.packageId in all ==> !VersionMatches(vm, all[c.packageId].version, c.version)
  }

  predicate ManifestOk(vm: Matcher, core: string, all: Packages, m: Manifest) {
    && VersionMatches(vm, core, m.core)
    && (forall c :: c in m.conflicts ==> ConflictFree(vm, all, c))
    && (forall d :: d in m.dependencies ==> DependencyOk(vm, all, d))
  }

  predicate Declared(vm: Matcher, core: string, all: Packages) {
    forall id :: id in all ==> ManifestOk(vm, core, all, all[id])
  }

  predicate Provides(vm: Matcher, m: Manifest, r: Requirement) {
    exists c :: c in m.capabilities && c.id == r.id && VersionMatches(vm, c.version, r.version)
  }

  predicate RequirementMet(vm: Matcher, all: Packages, r: Requirement) {
    r.optional || exists id :: id in all && Provides(vm, all[id], r)
  }

  predicate CapabilitiesMet(vm: Matcher, all: Packages) {
    forall id, r :: id in all && r in all[id].requirements ==> RequirementMet(vm, all, r)
  }

  // ---------------------------------------------------------------------------------------
  // The dependency graph
  // ---------------------------------------------------------------------------------------

  /** An edge to a present package, required or optional. */
  predicate Edge(all: Packages, a: PackageId, b: PackageId) {
    a in all && b in all && exists d :: d in all[a].dependencies && d.packageId == b
  }

  predicate IsPath(all: Packages, p: seq<PackageId>) {
    p != [] && p[0] in all && forall i :: 0 <= i < |p| - 1 ==> Edge(all, p[i], p[i + 1])
  }

  /** A path that starts in `roots` and ends on a package it already went through. */
  predicate ClosesCycle(all: Packages, roots: set<PackageId>, p: seq<PackageId>) {
    IsPath(all, p) && p[0] in roots && |p| >= 2 && p[|p| - 1] in p[..|p| - 1]
  }

  ghost predicate Acyclic(all: Packages, roots: set<PackageId>) {
    forall p {:trigger IsPath(all, p)} :: !ClosesCycle(all, roots, p)
  }

  /** `order` lists distinct packages, each after all its dependencies. */
  ghost predicate DependenciesFirst(all: Packages, order: seq<PackageId>) {
    && (forall i, j :: 0 <= i < j < |order| ==> order[i] != order[j])
    && (forall i :: 0 <= i < |order| ==> order[i] in all)
    && (forall i, b :: 0 <= i < |order| && Edge(all, order[i], b) ==> b in order[..i])
  }

  lemma {:induction false} PathGoesEarlier(all: Packages, order: seq<PackageId>, p: seq<PackageId>, i: nat)
    returns (at: nat)
    requires DependenciesFirst(all, order) && IsPath(all, p) && i < |order| && order[i] == p[0]
    ensures at < |order| && order[at] == p[|p| - 1] && (|p| > 1 ==> at < i) && at <= i
    decreases |p|
  {
    if |p| == 1 {
      at := i;
    } else {
      assert Edge(all, p[0], p[1]);
      var j :| 0 <= j < i && order[..i][j] == p[1];
      assert IsPath(all, p[1..]) by {
        forall k | 0 <= k < |p[1..]| - 1 ensures Edge(all, p[1..][k], p[1..][k + 1]) {
          assert Edge(all, p[k + 1], p[k + 2]);
        }
      }
      at := PathGoesEarlier(all, order, p[1..], j);
    }
  }

  lemma SubPath(all: Packages, p: seq<PackageId>, lo: nat, hi: nat)
    requires IsPath(all, p) && lo < hi <= |p|
    ensures IsPath(all, p[lo..hi])
  {
    if lo > 0 {
      assert Edge(all, p[lo - 1], p[lo]);
    }
    forall k | 0 <= k < hi - lo - 1 ensures Edge(all, p[lo..hi][k], p[lo..hi][k + 1]) {
      assert Edge(all, p[lo + k], p[lo + k + 1]);
    }
  }

  /** An order that covers the roots and puts dependencies first rules out every cycle they reach. */
  lemma OrderedIsAcyclic(all: Packages, roots: set<PackageId>, order: seq<PackageId>)
    requires DependenciesFirst(all, order) && forall r :: r in roots ==> r in order
    ensures Acyclic(all, roots)
  {
    forall p | IsPath(all, p) && ClosesCycle(all, roots, p) ensures false {
      var i :| 0 <= i < |order| && order[i] == p[0];
      var n := |p| - 1;
      var k :| 0 <= k < n && p[..n][k] == p[n];
      SubPath(all, p, 0, k + 1);
      SubPath(all, p, k, n + 1);
      var mid := PathGoesEarlier(all, order, p[0..k + 1], i);
      var last := PathGoesEarlier(all, order, p[k..n + 1], mid);
    }
  }

  // ---------------------------------------------------------------------------------------
  // The depth-first visit
  // ---------------------------------------------------------------------------------------

  predicate IsCandidateOrder(candidates: Packages, finished: seq<PackageId>, ordered: seq<Manifest>)
    decreases |finished|
  {
    if finished == [] then ordered == []
    else
      var last := finished[|finished| - 1];
      if last in candidates then
        && ordered != [] && ordered[|ordered| - 1] == candidates[last]
        && IsCandidateOrder(candidates, finished[..|finished| - 1], ordered[..|ordered| - 1])
      else
        IsCandidateOrder(candidates, finished[..|finished| - 1], ordered)
  }

  /** The traversal state of one `resolve_install_order` call. */
  class Traversal {
    const all: Packages
    const candidates: Packages
    var visiting: set<PackageId>
    var visited: set<PackageId>
    var ordered: seq<Manifest>
    ghost var finished: seq<PackageId>

    constructor (all: Packages, candidates: Packages)
      requires candidates.Keys <= all.Keys
      ensures this.all == all && this.candidates == candidates
      ensures Valid() && visiting == {} && visited == {} && finished == []
    {
      this.all := all;
      this.candidates := candidates;
      visiting, visited, ordered, finished := {}, {}, [], [];
    }

    ghost predicate Valid()
      reads this
    {
      && candidates.Keys <= all.Keys
      && visiting <= all.Keys && visited <= all.Keys && visiting !! visited
      && visited == (set id | id in finished)
      && DependenciesFirst(all, finished)
      && IsCandidateOrder(candidates, finished, ordered)
    }

    /** `trail` is the stack of packages being visited, each depending on the next and the last on `id`. */
    ghost predicate Stacked(trail: seq<PackageId>, id: PackageId)
      reads this
    {
      visiting == (set t | t in trail) && IsPath(all, trail + [id])
    }

    method Visit(id: PackageId, trail: seq<PackageId>) returns (cycle: Option<seq<PackageId>>)
      requires Valid() && Stacked(trail, id)
      modifies this
      ensures cycle.None? ==> Valid() && visiting == old(visiting) && id in visited
      ensures cycle.None? ==> old(visited) <= visited
      ensures cycle.Some? ==> FoundCycle(trail, id, cycle.value)
      decreases all.Keys - visited - visiting, |all.Keys| + 1
    {
      assert (trail + [id])[|trail|] == id;
      if id in visited {
        return None;
      }
      if id in visiting {
        assert (trail + [id])[..|trail|] == trail;
        return Some(trail + [id]);
      }
      PathInside(all, trail + [id]);
      assert id in all;
      visiting := visiting + {id};
      cycle := VisitDependencies(id, trail);
      if cycle.None? {
        Finish(id);
      }
    }

    ghost predicate FoundCycle(trail: seq<PackageId>, id: PackageId, cycle: seq<PackageId>) {
      && IsPath(all, cycle) && |cycle| >= 2 && cycle[|cycle| - 1] in cycle[..|cycle| - 1]
      && trail + [id] <= cycle
    }

    method VisitDependencies(id: PackageId, trail: seq<PackageId>) returns (cycle: Option<seq<PackageId>>)
      requires Valid() && id in visiting && visiting == (set t | t in trail + [id]) && IsPath(all, trail + [id])
      modifies this
      ensures cycle.None? ==> Valid() && visiting == old(visiting) && old(visited) <= visited
      ensures cycle.None? ==> forall b :: Edge(all, id, b) ==> b in visited
      ensures cycle.Some? ==> FoundCycle(trail, id, cycle.value)
      decreases all.Keys - visited - visiting, |all.Keys| + 2
    {
      assert (trail + [id])[|trail|] == id;
      PathInside(all, trail + [id]);
      var dependencies := all[id].dependencies;
      for k := 0 to |dependencies|
        invariant Valid() && visiting == old(visiting) && old(visited) <= visited
        invariant forall j :: 0 <= j < k && dependencies[j].packageId in all ==> dependencies[j].packageId in visited
      {
        var next := dependencies[k].packageId;
        if next in all {
          assert Edge(all, id, next);
          PathExtends(all, trail + [id], next);
          var inner := Visit(next, trail + [id]);
          if inner.Some? {
            assert trail + [id] + [next] <= inner.value;
            assert trail + [id] <= inner.value;
            return inner;
          }
        }
      }
      return None;
    }

    method Finish(id: PackageId)
      requires Valid() && id in visiting
      requires forall b :: Edge(all, id, b) ==> b in visited
      modifies this
      ensures Valid() && visiting == old(visiting) - {id} && visited == old(visited) + {id}
    {
      FinishOne(all, finished, id);
      visiting := visiting - {id};
      visited := visited + {id};
      if id in candidates {
        ordered := ordered + [candidates[id]];
        assert ordered[..|ordered| - 1] == old(ordered);
      }
      finished := finished + [id];
      assert finished[..|finished| - 1] == old(finished);
    }
  }

  lemma PathInside(all: Packages, p: seq<PackageId>)
    requires IsPath(all, p)
    ensures forall i :: 0 <= i < |p| ==> p[i] in all
  {
    forall i | 0 < i < |p| ensures p[i] in all {
      assert Edge(all, p[i - 1], p[i]);
    }
  }

  lemma PathExtends(all: Packages, p: seq<PackageId>, b: PackageId)
    requires IsPath(all, p) && Edge(all, p[|p| - 1], b)
    ensures IsPath(all, p + [b])
  {
    forall i | 0 <= i < |p| ensures Edge(all, (p + [b])[i], (p + [b])[i + 1]) {
      if i < |p| - 1 {
        assert Edge(all, p[i], p[i + 1]);
      }
    }
  }

  lemma FinishOne(all: Packages, finished: seq<PackageId>, id: PackageId)
    requires DependenciesFirst(all, finished) && id in all && id !in finished
    requires forall b :: Edge(all, id, b) ==> b in finished
    ensures DependenciesFirst(all, finished + [id])
  {
    var order := finished + [id];
    forall i, b | 0 <= i < |order| && Edge(all, order[i], b) ensures b in order[..i] {
      assert order[..i] == finished[..i];
      if i == |finished| {
        assert finished[..i] == finished;
      }
    }
  }

  // ---------------------------------------------------------------------------------------
  // The resolver
  // ---------------------------------------------------------------------------------------

  predicate Keyed(packages: Packages) {
    forall id :: id in packages ==> packages[id].id == id
  }

  /** Each candidate exactly once, after every candidate it reaches through any present package. */
  ghost predicate InstallOrder(all: Packages, candidates: Packages, ordered: seq<Manifest>) {
    && (forall i :: 0 <= i < |ordered| ==> ordered[i].id in candidates && candidates[ordered[i].id] == ordered[i])
    && (forall i, j :: 0 <= i < j < |ordered| ==> ordered[i].id != ordered[j].id)
    && (forall id :: id in candidates ==> candidates[id] in ordered)
    && (forall i, p {:trigger ordered[i], IsPath(all, p)} ::
          0 <= i < |ordered| && IsPath(all, p) && |p| >= 2 && p[0] == ordered[i].id && p[|p| - 1] in candidates ==>
            candidates[p[|p| - 1]] in ordered[..i])
  }

  /** Where each listed candidate was finished, in increasing order and without gaps. */
  lemma {:induction false} FinishedPlaces(candidates: Packages, finished: seq<PackageId>, ordered: seq<Manifest>)
    returns (place: seq<nat>)
    requires IsCandidateOrder(candidates, finished, ordered) && Keyed(candidates)
    ensures |place| == |ordered|
    ensures forall i :: 0 <= i < |place| ==>
              place[i] < |finished| && finished[place[i]] in candidates && ordered[i] == candidates[finished[place[i]]]
    ensures forall i, j :: 0 <= i < j < |place| ==> place[i] < place[j]
    ensures forall k :: 0 <= k < |finished| && finished[k] in candidates ==> k in place
    decreases |finished|
  {
    if finished == [] {
      place := [];
    } else {
      var n := |finished| - 1;
      if finished[n] in candidates {
        place := FinishedPlaces(candidates, finished[..n], ordered[..|ordered| - 1]);
        place := place + [n];
      } else {
        place := FinishedPlaces(candidates, finished[..n], ordered);
      }
    }
  }

  /** The candidate a path ends on is listed before the one it starts from. */
  lemma ReachedEarlier(all: Packages, candidates: Packages, finished: seq<PackageId>, ordered: seq<Manifest>,
                       place: seq<nat>, i: nat, p: seq<PackageId>)
    requires Keyed(candidates) && DependenciesFirst(all, finished) && |place| == |ordered| && i < |ordered|
    requires forall i :: 0 <= i < |place| ==>
               place[i] < |finished| && finished[place[i]] in candidates && ordered[i] == candidates[finished[place[i]]]
    requires forall i, j :: 0 <= i < j < |place| ==> place[i] < place[j]
    requires forall k :: 0 <= k < |finished| && finished[k] in candidates ==> k in place
    requires IsPath(all, p) && |p| >= 2 && p[0] == ordered[i].id && p[|p| - 1] in candidates
    ensures candidates[p[|p| - 1]] in ordered[..i]
  {
    var at := PathGoesEarlier(all, finished, p, place[i]);
    var j :| 0 <= j < |place| && place[j] == at;
    assert j < i && ordered[..i][j] == candidates[p[|p| - 1]];
  }

  lemma FinishedIsInstallOrder(all: Packages, candidates: Packages, finished: seq<PackageId>, ordered: seq<Manifest>)
    requires Keyed(candidates) && candidates.Keys <= (set id | id in finished)
    requires DependenciesFirst(all, finished) && IsCandidateOrder(candidates, finished, ordered)
    ensures InstallOrder(all, candidates, ordered)
  {
    hide IsCandidateOrder;
    var place := FinishedPlaces(candidates, finished, ordered);
    forall id | id in candidates ensures candidates[id] in ordered {
      var k :| 0 <= k < |finished| && finished[k] == id;
      var i :| 0 <= i < |place| && place[i] == k;
      assert ordered[i] == candidates[id];
    }
    forall i, p | 0 <= i < |ordered| && IsPath(all, p) && |p| >= 2 && p[0] == ordered[i].id && p[|p| - 1] in candidates
      ensures candidates[p[|p| - 1]] in ordered[..i]
    {
      ReachedEarlier(all, candidates, finished, ordered, place, i, p);
    }
  }

  type Providers = map<string, seq<(PackageId, string)>>

  predicate Offers(provided: Providers, c: Capability) {
    c.id in provided && exists e :: e in provided[c.id] && e.1 == c.version
  }

  ghost predicate Offered(packages: Packages, c: Capability) {
    exists id :: id in packages && c in packages[id].capabilities
  }

  method CollectProviders(packages: Packages) returns (provided: Providers)
    ensures forall c :: Offers(provided, c) <==> Offered(packages, c)
  {
    provided := map[];
    var keys := packages.Keys;
    while keys != {}
      invariant keys <= packages.Keys
      invariant forall c :: Offers(provided, c) <==> exists id :: id in packages && id !in keys && c in packages[id].capabilities
      decreases keys
    {
      var id :| id in keys;
      var rest := keys - {id};
      var before := provided;
      var capabilities := packages[id].capabilities;
      for k := 0 to |capabilities|
        invariant forall c :: Offers(provided, c) <==> Offers(before, c) || c in capabilities[..k]
      {
        assert capabilities[..k + 1] == capabilities[..k] + [capabilities[k]];
        provided := AddProvider(provided, packages[id].id, capabilities[k]);
      }
      assert capabilities[..|capabilities|] == capabilities;
      forall c ensures Offers(provided, c) <==> exists o :: o in packages && o !in rest && c in packages[o].capabilities {
        if c in capabilities {
          assert id in packages && id !in rest && c in packages[id].capabilities;
        }
      }
      keys := rest;
    }
  }

  function AddProvider(provided: Providers, owner: PackageId, added: Capability): (next: Providers)
    ensures forall c :: Offers(next, c) <==> Offers(provided, c) || c == added
  {
    var known := if added.id in provided then provided[added.id] else [];
    var next := provided[added.id := known + [(owner, added.version)]];
    assert forall c :: Offers(next, c) <==> Offers(provided, c) || c == added by {
      forall c ensures Offers(next, c) <==> Offers(provided, c) || c == added {
        assert (owner, added.version) in next[added.id];
        if Offers(provided, c) {
          var e :| e in provided[c.id] && e.1 == c.version;
          assert e in next[c.id];
        }
      }
    }
    next
  }

  lemma ProviderDecides(vm: Matcher, packages: Packages, provided: Providers, r: Requirement)
    requires forall c :: Offers(provided, c) <==> Offered(packages, c)
    ensures (exists id :: id in packages && Provides(vm, packages[id], r)) <==>
            (r.id in provided && exists e :: e in provided[r.id] && VersionMatches(vm, e.1, r.version))
  {
    if r.id in provided && exists e :: e in provided[r.id] && VersionMatches(vm, e.1, r.version) {
      var e :| e in provided[r.id] && VersionMatches(vm, e.1, r.version);
      var c := Capability(r.id, e.1);
      assert Offers(provided, c);
      var id :| id in packages && c in packages[id].capabilities;
      assert Provides(vm, packages[id], r);
    }
    if id :| id in packages && Provides(vm, packages[id], r) {
      var c :| c in packages[id].capabilities && c.id == r.id && VersionMatches(vm, c.version, r.version);
      assert Offered(packages, c);
      assert Offers(provided, c);
    }
  }

  /** Fail closed when a required shared capability is not provided. */
  method ResolveCapabilities(vm: Matcher, packages: Packages) returns (ok: bool)
    ensures ok <==> CapabilitiesMet(vm, packages)
  {
    var provided := CollectProviders(packages);
    var keys := packages.Keys;
    while keys != {}
      invariant keys <= packages.Keys
      invariant forall id, r :: id in packages && id !in keys && r in packages[id].requirements ==>
                  RequirementMet(vm, packages, r)
      decreases keys
    {
      var id :| id in keys;
      var requirements := packages[id].requirements;
      for k := 0 to |requirements|
        invariant forall r :: r in requirements[..k] ==> RequirementMet(vm, packages, r)
      {
        var r := requirements[k];
        ProviderDecides(vm, packages, provided, r);
        var providers := if r.id in provided then provided[r.id] else [];
        var matched := exists e :: e in providers && VersionMatches(vm, e.1, r.version);
        if !matched && !r.optional {
          assert r in packages[id].requirements && !RequirementMet(vm, packages, r);
          return false;
        }
        assert requirements[..k + 1] == requirements[..k] + [r];
      }
      assert requirements[..|requirements|] == requirements;
      keys := keys - {id};
    }
    return true;
  }

  method CheckDeclarations(vm: Matcher, core: string, all: Packages) returns (ok: bool)
    ensures ok <==> Declared(vm, core, all)
  {
    var keys := all.Keys;
    while keys != {}
      invariant keys <= all.Keys
      invariant forall id :: id in all && id !in keys ==> ManifestOk(vm, core, all, all[id])
      decreases keys
    {
      var id :| id in keys;
      var m := all[id];
      if !VersionMatches(vm, core, m.core) {
        return false;
      }
      for k := 0 to |m.conflicts|
        invariant forall c :: c in m.conflicts[..k] ==> ConflictFree(vm, all, c)
      {
        if !ConflictFree(vm, all, m.conflicts[k]) {
          return false;
        }
        assert m.conflicts[..k + 1] == m.conflicts[..k] + [m.conflicts[k]];
      }
      for k := 0 to |m.dependencies|
        invariant forall d :: d in m.dependencies[..k] ==> DependencyOk(vm, all, d)
      {
        if !DependencyOk(vm, all, m.dependencies[k]) {
          return false;
        }
        assert m.dependencies[..k + 1] == m.dependencies[..k] + [m.dependencies[k]];
      }
      assert m.conflicts[..|m.conflicts|] == m.conflicts && m.dependencies[..|m.dependencies|] == m.dependencies;
      keys := keys - {id};
    }
    return true;
  }

  /** Resolve an install order. Once identities and declarations pass, it succeeds exactly when no
      cycle is reachable from the candidates, and a cycle failure carries such a cycle. */
  method ResolveInstallOrder(vm: Matcher, core: string, manifests: seq<Manifest>, installed: Packages)
    returns (r: Result<seq<Manifest>, ResolveError>)
    ensures var candidates := Candidates(manifests);
            var all := installed + candidates;
            if !Distinct(manifests) then r == Failure(DuplicatePackage)
            else if !Keyed(installed) then r == Failure(IdentityMismatch)
            else if !Declared(vm, core, all) then r == Failure(DeclarationRejected)
            else if !CapabilitiesMet(vm, all) then r == Failure(CapabilityMissing)
            else
              && (r.Success? <==> Acyclic(all, candidates.Keys))
              && (r.Success? ==> InstallOrder(all, candidates, r.value))
              && (r.Failure? ==> r.error.DependencyCycle? && ClosesCycle(all, candidates.Keys, r.error.trail))
  {
    var collected := CollectCandidates(manifests);
    if collected.None? {
      return Failure(DuplicatePackage);
    }
    var candidates := collected.value;
    if !Keyed(installed) {
      return Failure(IdentityMismatch);
    }
    var all := installed + candidates;
    var declared := CheckDeclarations(vm, core, all);
    if !declared {
      return Failure(DeclarationRejected);
    }
    var met := ResolveCapabilities(vm, all);
    if !met {
      return Failure(CapabilityMissing);
    }
    r := VisitAll(all, candidates);
  }

  predicate Distinct(manifests: seq<Manifest>) {
    forall i, j :: 0 <= i < j < |manifests| ==> manifests[i].id != manifests[j].id
  }

  method CollectCandidates(manifests: seq<Manifest>) returns (r: Option<Packages>)
    ensures r.Some? <==> Distinct(manifests)
    ensures r.Some? ==> r.value == Candidates(manifests) && Keyed(r.value)
  {
    var candidates: Packages := map[];
    for k := 0 to |manifests|
      invariant candidates == Candidates(manifests[..k]) && Keyed(candidates) && Distinct(manifests[..k])
      invariant forall id :: id in candidates <==> exists i :: 0 <= i < k && manifests[i].id == id
    {
      assert manifests[..k + 1][..k] == manifests[..k];
      if manifests[k].id in candidates {
        return None;
      }
      candidates := candidates[manifests[k].id := manifests[k]];
    }
    assert manifests[..|manifests|] == manifests;
    return Some(candidates);
  }

  method VisitAll(all: Packages, candidates: Packages) returns (r: Result<seq<Manifest>, ResolveError>)
    requires candidates.Keys <= all.Keys && Keyed(candidates)
    ensures r.Success? <==> Acyclic(all, candidates.Keys)
    ensures r.Success? ==> InstallOrder(all, candidates, r.value)
    ensures r.Failure? ==> r.error.DependencyCycle? && ClosesCycle(all, candidates.Keys, r.error.trail)
  {
    var walk := new Traversal(all, candidates);
    var roots := candidates.Keys;
    while roots != {}
      invariant roots <= candidates.Keys && walk.Valid() && walk.visiting == {}
      invariant candidates.Keys - roots <= walk.visited
      invariant fresh(walk) && walk.all == all && walk.candidates == candidates
      decreases roots
    {
      var id :| id in roots;
      assert [] + [id] == [id];
      var cycle := walk.Visit(id, []);
      if cycle.Some? {
        assert [id] <= cycle.value;
        assert cycle.value[0] == id;
        assert ClosesCycle(all, candidates.Keys, cycle.value);
        return Failure(DependencyCycle(cycle.value));
      }
      roots := roots - {id};
    }
    FinishedIsInstallOrder(all, candidates, walk.finished, walk.ordered);
    OrderedIsAcyclic(all, candidates.Keys, walk.finished);
    return Success(walk.ordered);
  }

  function Candidates(manifests: seq<Manifest>): Packages {
    if manifests == [] then map[]
    else
      var last := manifests[|manifests| - 1];
      Candidates(manifests[..|manifests| - 1])[last.id := last]
  }
}

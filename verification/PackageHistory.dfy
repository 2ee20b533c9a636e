/** The simple form the crash-recoverable lifecycle is proved against: a ledger of committed
    changes replayed over an initial registry and package root, with no intents, stages,
    backups, phases or crashes (src/plaik_core/package_lifecycle.py). */
module PackageHistories {
  import opened Prelude
  import opened Dependencies
  import opened Registries

  type OperationId = string

  datatype Action = Install | Update | Enable | Disable | Uninstall

  datatype Marker = Marker(packageId: PackageId, version: string, sha256: string, signer: string)

  datatype Content = Whole(id: nat) | TornContent

  /** A package directory: its files and its integrity marker, if one can be read. */
  datatype Tree = Tree(marker: Option<Marker>, content: Content)

  type Trees = map<PackageId, Tree>

  datatype Base = Base(registry: Registry, trees: Trees)

  datatype FileChange = Keep | Put(tree: Tree) | Drop

  datatype Change = Change(
    operation: OperationId, action: Action, packageId: PackageId,
    record: Option<PackageRecord>, files: FileChange)

  type Ledger = seq<Change>

  function Apply(b: Base, c: Change): Base {
    Base(
      if c.record.Some? then b.registry[c.packageId := c.record.value] else b.registry - {c.packageId},
      match c.files
      case Keep => b.trees
      case Put(tree) => b.trees[c.packageId := tree]
      case Drop => b.trees - {c.packageId})
  }

  function Replay(initial: Base, ledger: Ledger): Base {
    if ledger == [] then initial
    else Apply(Replay(initial, ledger[..|ledger| - 1]), ledger[|ledger| - 1])
  }

  function Operations(ledger: Ledger): set<OperationId> {
    set c | c in ledger :: c.operation
  }

  predicate OnceEach(ledger: Ledger) {
    forall i, j :: 0 <= i < j < |ledger| ==> ledger[i].operation != ledger[j].operation
  }

  predicate MarkerMatches(tree: Tree, id: PackageId, version: string) {
    && tree.marker.Some? && tree.marker.value.packageId == id && tree.marker.value.version == version
    && tree.marker.value.signer != ""
  }

  /** Everything the platform was configured with. */
  datatype Config = Config(
    vm: Matcher, core: string, newer: (string, string) -> bool, protectedIds: set<PackageId>,
    reservedIds: set<PackageId>, signerAllowed: (PackageId, string, string, string) -> bool,
    migrationApplier: bool)

  /** An update keeps the installed signer or is authorized to change it. */
  predicate SignerMayFollow(cfg: Config, id: PackageId, kind: string, installed: string, signer: string) {
    installed == signer || cfg.signerAllowed(id, kind, installed, signer)
  }

  /** What a change does to one record and one directory, action by action. */
  predicate Fits(cfg: Config, b: Base, c: Change) {
    var id := c.packageId;
    match c.action
    case Install =>
      && id !in b.registry && id !in b.trees && id !in cfg.reservedIds
      && c.record.Some? && c.record.value.manifest.id == id && c.record.value.status == Installed
      && c.files.Put? && MarkerMatches(c.files.tree, id, c.record.value.manifest.version)
    case Update =>
      && id in b.registry && id in b.trees && id !in cfg.reservedIds
      && c.record.Some? && c.record.value.manifest.id == id
      && c.record.value.status == b.registry[id].status
      && c.record.value.manifest.kind == b.registry[id].manifest.kind
      && cfg.newer(c.record.value.manifest.version, b.registry[id].manifest.version)
      && c.files.Put? && MarkerMatches(c.files.tree, id, c.record.value.manifest.version)
      && b.trees[id].marker.Some?
      && SignerMayFollow(cfg, id, c.record.value.manifest.kind, b.trees[id].marker.value.signer,
                         c.files.tree.marker.value.signer)
    case Enable =>
      id in b.registry && c.record == Some(b.registry[id].(status := Enabled)) && c.files == Keep
    case Disable =>
      && id in b.registry && c.record == Some(b.registry[id].(status := Disabled)) && c.files == Keep
      && id !in cfg.protectedIds
    case Uninstall =>
      && id in b.registry && id in b.trees && c.record == None && c.files == Drop
      && id !in cfg.protectedIds && b.registry[id].status != Enabled
  }

  /** The dependency and capability checks of the action. */
  ghost predicate Checked(cfg: Config, reg: Registry, c: Change, after: Registry) {
    match c.action
    case Install => GraphValid(cfg.vm, cfg.core, after)
    case Update =>
      && GraphValid(cfg.vm, cfg.core, after)
      && (c.record.Some? && c.record.value.status == Enabled ==>
            EnabledDependencies(cfg.vm, after, c.packageId) && CapabilitiesMet(cfg.vm, Selected(after, None, None)))
    case Enable =>
      EnabledDependencies(cfg.vm, reg, c.packageId) && CapabilitiesMet(cfg.vm, Selected(reg, Some(c.packageId), None))
    case Disable =>
      RequiredDependents(reg, c.packageId, true) == {} && CapabilitiesMet(cfg.vm, Selected(reg, None, Some(c.packageId)))
    case Uninstall =>
      RequiredDependents(reg, c.packageId, false) == {}
  }

  /** The checks one change passed against the state it was applied to. */
  ghost predicate Guarded(cfg: Config, b: Base, c: Change) {
    Fits(cfg, b, c) && Checked(cfg, b.registry, c, Apply(b, c).registry)
  }

  ghost predicate LedgerGuarded(cfg: Config, initial: Base, ledger: Ledger) {
    ledger == [] ||
    (&& LedgerGuarded(cfg, initial, ledger[..|ledger| - 1])
     && Guarded(cfg, Replay(initial, ledger[..|ledger| - 1]), ledger[|ledger| - 1]))
  }

  /** Registered packages are exactly the installed directories, each marked with its version. */
  ghost predicate Agreeing(b: Base) {
    && b.registry.Keys == b.trees.Keys
    && forall id :: id in b.registry ==>
         b.registry[id].manifest.id == id && MarkerMatches(b.trees[id], id, b.registry[id].manifest.version)
  }

  lemma FittingKeepsAgreement(cfg: Config, b: Base, c: Change)
    requires Agreeing(b) && Fits(cfg, b, c)
    ensures Agreeing(Apply(b, c))
  {
  }

  lemma GuardedKeepsClosed(cfg: Config, b: Base, c: Change)
    requires Closed(cfg.vm, cfg.core, b.registry) && Guarded(cfg, b, c)
    ensures Closed(cfg.vm, cfg.core, Apply(b, c).registry)
  {
    match c.action
    case Install => PutKeepsClosed(cfg.vm, cfg.core, b.registry, c.record.value.manifest, Installed);
    case Update => PutKeepsClosed(cfg.vm, cfg.core, b.registry, c.record.value.manifest, c.record.value.status);
    case Enable => EnableKeepsClosed(cfg.vm, cfg.core, b.registry, c.packageId);
    case Disable => DisableKeepsClosed(cfg.vm, cfg.core, b.registry, c.packageId);
    case Uninstall => UninstallKeepsClosed(cfg.vm, cfg.core, b.registry, c.packageId);
  }

  /** Registry closure over whole histories: every registry reached by guarded changes is acyclic,
      conflict-free and version-consistent, with the requirements of enabled packages enabled. */
  lemma {:induction false} LedgerKeepsClosed(cfg: Config, initial: Base, ledger: Ledger)
    requires Closed(cfg.vm, cfg.core, initial.registry) && LedgerGuarded(cfg, initial, ledger)
    ensures Closed(cfg.vm, cfg.core, Replay(initial, ledger).registry)
  {
    if ledger != [] {
      LedgerKeepsClosed(cfg, initial, ledger[..|ledger| - 1]);
      GuardedKeepsClosed(cfg, Replay(initial, ledger[..|ledger| - 1]), ledger[|ledger| - 1]);
    }
  }

  /** Registry and package root never drift apart, and every directory carries its own marker. */
  lemma {:induction false} LedgerKeepsAgreement(cfg: Config, initial: Base, ledger: Ledger)
    requires Agreeing(initial) && LedgerGuarded(cfg, initial, ledger)
    ensures Agreeing(Replay(initial, ledger))
  {
    if ledger != [] {
      LedgerKeepsAgreement(cfg, initial, ledger[..|ledger| - 1]);
      FittingKeepsAgreement(cfg, Replay(initial, ledger[..|ledger| - 1]), ledger[|ledger| - 1]);
    }
  }

  lemma ReplayAppend(cfg: Config, initial: Base, ledger: Ledger, c: Change)
    requires LedgerGuarded(cfg, initial, ledger) && Guarded(cfg, Replay(initial, ledger), c)
    ensures LedgerGuarded(cfg, initial, ledger + [c])
    ensures Replay(initial, ledger + [c]) == Apply(Replay(initial, ledger), c)
  {
    assert (ledger + [c])[..|ledger|] == ledger;
  }

  /** A package no change of the history names is exactly as it was. */
  lemma {:induction false} UntouchedStays(initial: Base, ledger: Ledger, id: PackageId)
    requires forall k :: 0 <= k < |ledger| ==> ledger[k].packageId != id
    ensures var now := Replay(initial, ledger);
            && (id in now.registry <==> id in initial.registry)
            && (id in now.trees <==> id in initial.trees)
            && (id in now.registry ==> now.registry[id] == initial.registry[id])
            && (id in now.trees ==> now.trees[id] == initial.trees[id])
  {
    if ledger != [] {
      UntouchedStays(initial, ledger[..|ledger| - 1], id);
    }
  }
}

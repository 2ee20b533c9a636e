/** The crash-recoverable package lifecycle (src/plaik_core/package_lifecycle.py).

    The package root, the registry, the staging and backup roots, the intent files and the
    operation journal are durable; everything else is lost when the process stops. Each durable
    effect first asks the host plan whether it happens, so a contract that holds for every host
    holds for a crash or an error at every point, repeated at will. */
module PackageLifecycles {
  import opened Prelude
  import opened Dependencies
  import opened Registries
  import opened PackageHistories
  import J = OperationJournals

  datatype Phase = Prepared | FilesApplied | RegistryApplied | Committed | RolledBack

  datatype Intent = Intent(
    operation: OperationId, action: Action, packageId: PackageId, phase: Phase,
    before: Registry, after: Registry, sha256: Option<string>, signer: Option<string>,
    staged: bool, backedUp: bool)

  /** Staging and backup directories are named after the package and the operation. */
  type Slot = (PackageId, OperationId)

  datatype Disk = Disk(registry: Registry, trees: Trees, stages: map<Slot, Tree>, backups: map<Slot, Tree>)

  datatype Artifact = Artifact(manifest: Manifest, sha256: string, signer: string, content: nat)

  datatype Reply =
    | Applied(record: Option<PackageRecord>)
    | Replayed
    | Rejected
    | Refused
    | Interrupted(outcome: Outcome)

  datatype Request =
    | InstallRequest(operation: OperationId, artifact: Artifact)
    | UpdateRequest(operation: OperationId, artifact: Artifact)
    | EnableRequest(operation: OperationId, id: PackageId)
    | DisableRequest(operation: OperationId, id: PackageId)
    | UninstallRequest(operation: OperationId, id: PackageId)

  datatype Beginning = Fresh | AlreadyDone | Conflicting | Halted(outcome: Outcome)

  datatype Execution = Finished | Undone | Stopped(outcome: Outcome)

  const PACKAGE_PREFIX := "package."

  predicate IsPackageAction(action: string) {
    PACKAGE_PREFIX <= action
  }

  function ActionName(action: Action): (name: string)
    ensures IsPackageAction(name)
  {
    PACKAGE_PREFIX + match action
                     case Install => "install"
                     case Update => "update"
                     case Enable => "enable"
                     case Disable => "disable"
                     case Uninstall => "uninstall"
  }

  function SlotOf(i: Intent): Slot {
    (i.packageId, i.operation)
  }

  function StagedTree(artifact: Artifact): Tree {
    Tree(Some(Marker(artifact.manifest.id, artifact.manifest.version, artifact.sha256, artifact.signer)),
         Whole(artifact.content))
  }

  /** The same transaction, in whatever phase. */
  predicate SameTransaction(i: Intent, j: Intent) {
    i.(phase := Prepared) == j.(phase := Prepared)
  }

  // ---------------------------------------------------------------------------------------
  // What may be found on disk
  // ---------------------------------------------------------------------------------------

  predicate ShapedIntent(i: Intent) {
    && i.staged == (i.action == Install || i.action == Update)
    && i.backedUp == (i.action == Update || i.action == Uninstall)
  }

  ghost predicate OthersKept(trees: Trees, kept: Trees, id: PackageId) {
    forall other :: other != id ==>
      (other in trees <==> other in kept) && (other in trees ==> trees[other] == kept[other])
  }

  /** Nothing is in flight: registry and package root are exactly the settled pair. */
  predicate Idle(d: Disk, b: Base) {
    d == Disk(b.registry, b.trees, map[], map[])
  }

  /** Before the commit point everything that rollback needs is still there: the old registry in
      the intent, and the old tree whole in the backup or in place. */
  ghost predicate PreCommit(d: Disk, b: Base, i: Intent) {
    && ShapedIntent(i)
    && i.before == b.registry && (d.registry == i.before || d.registry == i.after)
    && OthersKept(d.trees, b.trees, i.packageId)
    && d.stages.Keys <= (if i.staged then {SlotOf(i)} else {})
    && d.backups.Keys <= (if i.backedUp then {SlotOf(i)} else {})
    && match i.action
       case Install => i.packageId !in b.trees && i.packageId !in b.registry
       case Update => OldTreeKept(d, b, i)
       case Uninstall => OldTreeKept(d, b, i)
       case Enable => d.trees == b.trees
       case Disable => d.trees == b.trees
  }

  predicate OldTreeKept(d: Disk, b: Base, i: Intent) {
    && i.packageId in b.trees
    && if SlotOf(i) in d.backups then d.backups[SlotOf(i)] == b.trees[i.packageId]
       else i.packageId in d.trees && d.trees[i.packageId] == b.trees[i.packageId]
  }

  /** `_postcondition`: what a committed intent promises about the disk. */
  predicate Postcondition(d: Disk, i: Intent) {
    && d.registry == i.after
    && match i.action
       case Install => ArtifactInPlace(d, i)
       case Update => ArtifactInPlace(d, i)
       case Uninstall => i.packageId !in d.trees
       case Enable => true
       case Disable => true
  }

  predicate ArtifactInPlace(d: Disk, i: Intent) {
    && i.packageId in i.after && i.packageId in d.trees && i.sha256.Some? && i.signer.Some?
    && d.trees[i.packageId].marker
       == Some(Marker(i.packageId, i.after[i.packageId].manifest.version, i.sha256.value, i.signer.value))
  }

  predicate PostCommit(d: Disk, b: Base, i: Intent) {
    && ShapedIntent(i)
    && d.registry == b.registry && d.trees == b.trees && d.stages == map[]
    && d.backups.Keys <= (if i.backedUp then {SlotOf(i)} else {})
    && Postcondition(d, i)
  }

  ghost predicate Recoverable(d: Disk, b: Base, open: Option<Intent>) {
    match open
    case None => Idle(d, b)
    case Some(i) =>
      if i.phase == Committed then PostCommit(d, b, i)
      else PreCommit(d, b, i) && (i.phase == RolledBack ==> Idle(d, b))
  }

  predicate CommittedOpen(open: Option<Intent>, id: OperationId) {
    open.Some? && open.value.phase == Committed && open.value.operation == id
  }

  /** The journal knows exactly the committed operations as succeeded, save for a committed intent
      whose success is still to be recorded; an open intent has a matching started attempt. */
  ghost predicate JournalAgrees(states: J.States, done: set<OperationId>, open: Option<Intent>) {
    && (forall id :: id in done ==>
          && id in states && IsPackageAction(states[id].action)
          && (states[id].status == J.Succeeded || (states[id].status == J.Started && CommittedOpen(open, id))))
    && (forall id :: id in states && states[id].status == J.Succeeded && IsPackageAction(states[id].action) ==>
          id in done)
    && (open.Some? ==> AttemptFits(states, done, open.value))
  }

  predicate AttemptFits(states: J.States, done: set<OperationId>, i: Intent) {
    && i.operation in states && IsPackageAction(states[i.operation].action)
    && (if i.phase == Committed then i.operation in done
        else states[i.operation].status == J.Started
             || (i.phase == RolledBack && states[i.operation].status == J.Failed))
  }

  // What one durable effect keeps.

  predicate Reversible(phase: Phase) {
    phase != Committed && phase != RolledBack
  }

  lemma RegistryMayVary(d: Disk, b: Base, i: Intent, registry: Registry)
    requires PreCommit(d, b, i) && (registry == i.before || registry == i.after)
    ensures PreCommit(d.(registry := registry), b, i)
  {
  }

  lemma TreeMayVary(d: Disk, b: Base, i: Intent, trees: Trees)
    requires PreCommit(d, b, i) && OthersKept(trees, d.trees, i.packageId)
    requires i.action == Install || (i.backedUp && SlotOf(i) in d.backups)
    ensures PreCommit(d.(trees := trees), b, i)
  {
  }

  lemma BackupRestores(d: Disk, b: Base, i: Intent)
    requires PreCommit(d, b, i) && i.backedUp && SlotOf(i) in d.backups
    ensures var restored := d.(trees := d.trees[i.packageId := d.backups[SlotOf(i)]], backups := d.backups - {SlotOf(i)});
            PreCommit(restored, b, i) && restored.trees == b.trees && restored.backups == map[]
  {
    var trees := d.trees[i.packageId := d.backups[SlotOf(i)]];
    assert forall id :: id in trees <==> id in b.trees;
    assert trees == b.trees;
  }

  lemma RolledBackSettles(d: Disk, b: Base, was: Intent, i: Intent)
    requires PreCommit(d, b, was) && SameTransaction(was, i)
    requires d == Disk(i.before, b.trees, map[], map[])
    ensures PreCommit(d, b, i.(phase := RolledBack)) && Idle(d, b)
  {
  }

  lemma RolledBackAgrees(states: J.States, done: set<OperationId>, was: Intent, i: Intent)
    requires JournalAgrees(states, done, Some(was)) && was.phase != Committed && SameTransaction(was, i)
    ensures JournalAgrees(states, done, Some(i.(phase := RolledBack)))
  {
  }

  predicate NoneStarted(states: J.States) {
    forall id :: id in states && IsPackageAction(states[id].action) ==> states[id].status != J.Started
  }

  function IntentFiles(open: Option<Intent>): map<OperationId, Intent> {
    match open
    case None => map[]
    case Some(i) => map[i.operation := i]
  }

  class TransactionalPackageManager {
    const cfg: Config
    const journal: J.OperationJournal
    var disk: Disk
    var intents: map<OperationId, Intent>
    var tick: nat

    /** The registry and package root before any change, and the committed changes since. */
    ghost const initial: Base
    ghost var ledger: Ledger
    /** The last settled pair, the operations committed so far and the intent in flight. */
    ghost var base: Base
    ghost var done: set<OperationId>
    ghost var open: Option<Intent>

    /** The durable state is consistent at every point where the process may stop. */
    ghost predicate Durable()
      reads `intents, `open, `disk, `base, `done, journal
    {
      && journal.Valid()
      && intents == IntentFiles(open)
      && Recoverable(disk, base, open)
      && JournalAgrees(journal.Current(), done, open)
    }

    /** The settled pair is the replay of the guarded, committed changes. */
    ghost predicate HistoryKept()
      reads `ledger, `base, `done
    {
      && Closed(cfg.vm, cfg.core, initial.registry) && Agreeing(initial)
      && LedgerGuarded(cfg, initial, ledger) && base == Replay(initial, ledger)
      && done == Operations(ledger) && OnceEach(ledger)
    }

    /** The state every call starts from and leaves behind, however it ends. */
    ghost predicate Valid()
      reads `intents, `open, `disk, `base, `done, `ledger, journal
    {
      Durable() && HistoryKept()
    }

    /** No transaction is in flight and no package attempt is started. */
    ghost predicate Settled()
      reads `intents, `open, `disk, `base, `done, journal
    {
      Durable() && open == None && NoneStarted(journal.Current())
    }

    constructor (cfg: Config, initial: Base, journal: J.OperationJournal)
      requires journal.Valid()
      requires forall id :: id in journal.Current() ==> !IsPackageAction(journal.Current()[id].action)
      requires Closed(cfg.vm, cfg.core, initial.registry) && Agreeing(initial)
      ensures this.cfg == cfg && this.journal == journal && this.initial == initial
      ensures Valid() && Settled() && ledger == [] && base == initial
    {
      this.cfg, this.journal, this.initial := cfg, journal, initial;
      disk := Disk(initial.registry, initial.trees, map[], map[]);
      intents, tick := map[], 0;
      ledger, base, done, open := [], initial, {}, None;
    }

    /** Ask the host about one durable effect. */
    method Effect(host: Host) returns (o: Outcome)
      modifies this`tick
      ensures tick == old(tick) + 1
      ensures o == match host.fault(old(tick))
                   case NoFault => Done
                   case Raise => Raised
                   case Crash => Crashed
    {
      var f := host.fault(tick);
      tick := tick + 1;
      return match f
             case NoFault => Done
             case Raise => Raised
             case Crash => Crashed;
    }

    /** The clock reads earlier than a started package attempt began, so that attempt cannot be
        closed: the journal refuses times that run backward. */
    ghost predicate Late(host: Host)
      reads `tick, journal
      requires journal.Valid()
    {
      Behind(host.clock(tick), journal.Current())
    }

    /** Why a call may stop: the host stopped one of its effects, or the clock is behind. */
    ghost predicate Excused(host: Host, from: nat)
      reads `tick, journal
    {
      !Calm(host, from, tick) || (journal.Valid() && Late(host))
    }

    /** The clock reads earlier than the last failure of an attempt that is to be retried. */
    ghost predicate RetryLate(host: Host, id: OperationId)
      reads `tick, journal
    {
      journal.Valid() && RetryBehind(host.clock(tick), journal.Current(), id)
    }

    /** Replace the only intent file by the same transaction in another phase. */
    method WriteIntent(host: Host, i: Intent) returns (o: Outcome)
      requires open.Some? ==> open.value.operation == i.operation
      requires intents == IntentFiles(open)
      modifies this`tick, this`intents, this`open
      ensures intents == IntentFiles(open)
      ensures open == if o == Done then Some(i) else old(open)
      ensures o == Done <==> Calm(host, old(tick), tick)
      ensures old(tick) <= tick
    {
      o := Effect(host);
      if o == Done {
        intents := intents[i.operation := i];
        open := Some(i);
      }
    }

    // -------------------------------------------------------------------------------------
    // Removing trees
    // -------------------------------------------------------------------------------------

    /** Remove the package directory of an open transaction whose old tree is safe elsewhere. A
        removal may stop half way and leave a torn directory. */
    method RemovePackageTree(host: Host, i: Intent) returns (o: Outcome)
      requires open.Some? && open.value.phase != Committed && SameTransaction(open.value, i)
      requires Recoverable(disk, base, open) && i.packageId in disk.trees
      requires i.action == Install || (i.backedUp && SlotOf(i) in disk.backups)
      modifies this`tick, this`disk
      ensures Recoverable(disk, base, open)
      ensures disk == old(disk).(trees := disk.trees)
      ensures o == Done ==> disk.trees == old(disk).trees - {i.packageId}
      ensures o == Done <==> Calm(host, old(tick), tick)
      ensures old(tick) <= tick
    {
      o := Effect(host);
      if o != Done {
        return;
      }
      var whole := disk.trees;
      var torn := whole[i.packageId].(content := TornContent);
      TreeMayVary(disk, base, open.value, whole[i.packageId := torn]);
      TreeMayVary(disk, base, open.value, whole - {i.packageId});
      disk := disk.(trees := whole[i.packageId := torn]);
      o := Effect(host);
      if o == Done {
        disk := disk.(trees := disk.trees - {i.packageId});
        assert disk.trees == whole - {i.packageId};
      }
    }

    method RemoveStage(host: Host, i: Intent) returns (o: Outcome)
      requires open.Some? && SameTransaction(open.value, i) && Recoverable(disk, base, open)
      modifies this`tick, this`disk
      ensures Recoverable(disk, base, open)
      ensures disk == old(disk).(stages := disk.stages)
      ensures o == Done ==> disk.stages == map[]
      ensures o == Done <==> Calm(host, old(tick), tick)
      ensures old(tick) <= tick
    {
      o := Done;
      if i.staged && SlotOf(i) in disk.stages {
        o := Effect(host);
        if o != Done {
          return;
        }
        var torn := disk.stages[SlotOf(i)].(content := TornContent);
        disk := disk.(stages := disk.stages[SlotOf(i) := torn]);
        o := Effect(host);
        if o == Done {
          disk := disk.(stages := disk.stages - {SlotOf(i)});
        }
      }
    }

    method RemoveBackup(host: Host, i: Intent) returns (o: Outcome)
      requires open == Some(i) && i.phase == Committed && Recoverable(disk, base, open)
      modifies this`tick, this`disk
      ensures Recoverable(disk, base, open)
      ensures o == Done ==> disk.backups == map[]
      ensures o == Done <==> Calm(host, old(tick), tick)
      ensures old(tick) <= tick
    {
      o := Done;
      if i.backedUp && SlotOf(i) in disk.backups {
        o := Effect(host);
        if o != Done {
          return;
        }
        var torn := disk.backups[SlotOf(i)].(content := TornContent);
        disk := disk.(backups := disk.backups[SlotOf(i) := torn]);
        o := Effect(host);
        if o == Done {
          disk := disk.(backups := disk.backups - {SlotOf(i)});
        }
      }
    }

    // -------------------------------------------------------------------------------------
    // Rollback
    // -------------------------------------------------------------------------------------

    method RestoreFiles(host: Host, i: Intent) returns (o: Outcome)
      requires open.Some? && open.value.phase != Committed && SameTransaction(open.value, i)
      requires Recoverable(disk, base, open)
      modifies this`tick, this`disk
      ensures Recoverable(disk, base, open)
      ensures o == Done ==> disk.trees == base.trees && disk.backups == map[]
      ensures o == Done <==> Calm(host, old(tick), tick)
      ensures old(tick) <= tick
    {
      o := Done;
      if i.action == Install {
        if i.packageId !in i.before && i.packageId in disk.trees {
          o := RemovePackageTree(host, i);
        }
      } else if i.backedUp && SlotOf(i) in disk.backups {
        if i.packageId in disk.trees {
          o := RemovePackageTree(host, i);
          if o != Done {
            return;
          }
        }
        o := Effect(host);
        if o == Done {
          BackupRestores(disk, base, open.value);
          disk := disk.(trees := disk.trees[i.packageId := disk.backups[SlotOf(i)]],
                        backups := disk.backups - {SlotOf(i)});
        }
      }
    }

    /** `_rollback_intent`: restore files, drop the stage, restore the registry, record the phase. */
    method RollbackIntent(host: Host, i: Intent) returns (o: Outcome)
      requires Durable() && open.Some? && open.value.phase != Committed && SameTransaction(open.value, i)
      modifies this`tick, this`disk, this`intents, this`open
      ensures Durable()
      ensures open.Some? && open.value.phase != Committed && SameTransaction(open.value, i)
      ensures o == Done ==> open == Some(i.(phase := RolledBack))
      ensures o == Done <==> Calm(host, old(tick), tick)
      ensures old(tick) <= tick
    {
      hide J.Accepted, J.StatesOf, JournalAgrees;
      o := RestoreFiles(host, i);
      if o != Done {
        return;
      }
      o := RemoveStage(host, i);
      if o != Done {
        return;
      }
      o := RestoreRegistry(host, i);
    }

    /** The last step of a rollback; files and stage are restored already. */
    method RestoreRegistry(host: Host, i: Intent) returns (o: Outcome)
      requires Durable() && open.Some? && open.value.phase != Committed && SameTransaction(open.value, i)
      requires disk.trees == base.trees && disk.stages == map[] && disk.backups == map[]
      modifies this`tick, this`disk, this`intents, this`open
      ensures Durable()
      ensures open.Some? && open.value.phase != Committed && SameTransaction(open.value, i)
      ensures o == Done ==> open == Some(i.(phase := RolledBack))
      ensures o == Done <==> Calm(host, old(tick), tick)
      ensures old(tick) <= tick
    {
      hide J.Accepted, J.StatesOf, JournalAgrees, PreCommit, PostCommit;
      ghost var was := open.value;
      o := Effect(host);
      if o != Done {
        return;
      }
      RegistryMayVary(disk, base, was, i.before);
      disk := disk.(registry := i.before);
      RolledBackAgrees(journal.Current(), done, was, i);
      RolledBackSettles(disk, base, was, i);
      o := WriteIntent(host, i.(phase := RolledBack));
    }

    // -------------------------------------------------------------------------------------
    // Journal steps
    // -------------------------------------------------------------------------------------

    /** `_mark_failed`: close a started attempt as failed; anything else is left alone. */
    method MarkFailed(host: Host, id: OperationId) returns (o: Outcome)
      requires Durable()
      requires open == None || (open.value.operation == id && open.value.phase == RolledBack)
      requires id in journal.Current() ==> IsPackageAction(journal.Current()[id].action)
      modifies this`tick, journal
      ensures Durable()
      ensures OthersUnchanged(old(journal.Current()), journal.Current(), id)
      ensures var before := old(journal.Current());
              var after := journal.Current();
              if o == Done && id in before && before[id].status == J.Started then
                id in after && after[id].action == before[id].action && after[id].status == J.Failed
              else
                after == before
      ensures o != Done ==>
                && id in old(journal.Current())
                && (host.fault(old(tick)) != NoFault
                    || host.clock(old(tick) + 1) < old(journal.Current())[id].startedAt)
      ensures ClosedOnly(host, old(tick), tick, old(journal.Current()), journal.Current())
      ensures o == Done ==> Calm(host, old(tick), tick)
      ensures o != Done ==> Excused(host, old(tick))
      ensures old(tick) <= tick
    {
      hide Recoverable, JournalAgrees, J.Accepted, J.StatesOf;
      o := Done;
      var state := journal.StateOf(id);
      if state.Some? && state.value.status == J.Started {
        o := Effect(host);
        if o == Done {
          FailureAgrees(journal.Current(), done, open, id);
          var closed := journal.Finish(id, Some("package.failed"), host.clock(tick));
          if closed.Failure? {
            return Raised;
          }
        }
      }
    }

    /** Record the success of the committed transaction. */
    method MarkSucceeded(host: Host, id: OperationId) returns (o: Outcome)
      requires Durable() && CommittedOpen(open, id)
      modifies this`tick, journal
      ensures Durable()
      ensures OthersUnchanged(old(journal.Current()), journal.Current(), id)
      ensures o == Done ==> id in journal.Current() && journal.Current()[id].status == J.Succeeded
      ensures ClosedOnly(host, old(tick), tick, old(journal.Current()), journal.Current())
      ensures o == Done ==> Calm(host, old(tick), tick)
      ensures o != Done ==> Excused(host, old(tick))
      ensures old(tick) <= tick
    {
      hide J.Accepted, J.StatesOf, JournalAgrees, Recoverable;
      o := Effect(host);
      if o == Done {
        JournalAttempt(id);
        SuccessAgrees(journal.Current(), done, open, id);
        var closed := journal.Finish(id, None, host.clock(tick));
        if closed.Failure? {
          return Raised;
        }
      }
    }

    /** A committed operation's attempt can still be recorded as succeeded. */
    lemma JournalAttempt(id: OperationId)
      requires Durable() && CommittedOpen(open, id)
      ensures id in journal.Current()
      ensures journal.Current()[id].status == J.Succeeded ==> journal.Current()[id].errorCode == None
    {
      J.AttemptPositive(journal.sign, journal.lines, id);
    }

    /** `_cleanup_intent`: drop leftovers, then the intent file itself. */
    method CleanupIntent(host: Host, i: Intent) returns (o: Outcome)
      requires Durable() && open == Some(i)
      requires i.phase == RolledBack || (i.phase == Committed && journal.Current()[i.operation].status == J.Succeeded)
      modifies this`tick, this`disk, this`intents, this`open
      ensures Durable()
      ensures o == Done ==> open == None
      ensures o != Done ==> open == Some(i)
      ensures o == Done <==> Calm(host, old(tick), tick)
      ensures old(tick) <= tick
    {
      hide J.Accepted, J.StatesOf, JournalAgrees, PreCommit, Postcondition;
      ClosedAgrees(journal.Current(), done, i);
      o := RemoveStage(host, i);
      if o != Done {
        return;
      }
      if i.phase == Committed {
        o := RemoveBackup(host, i);
        if o != Done {
          return;
        }
      }
      o := Effect(host);
      if o == Done {
        intents := intents - {i.operation};
        open := None;
      }
    }

    /** `_rollback_and_fail`: undo the transaction, close its attempt, drop its files. */
    method RollbackAndFail(host: Host, i: Intent) returns (o: Outcome)
      requires Durable() && open.Some? && open.value.phase != Committed && SameTransaction(open.value, i)
      modifies this`tick, this`disk, this`intents, this`open, journal
      ensures Durable()
      ensures OthersUnchanged(old(journal.Current()), journal.Current(), i.operation)
      ensures o == Done ==> open == None && i.operation in journal.Current()
      ensures o == Done ==> journal.Current()[i.operation].status == J.Failed
      ensures ClosedOnly(host, old(tick), tick, old(journal.Current()), journal.Current())
      ensures o == Done ==> Calm(host, old(tick), tick)
      ensures o != Done ==> Excused(host, old(tick))
      ensures old(tick) <= tick
    {
      hide ClosedOnly;
      ClosedNothing(host, tick, journal.Current());
      o := RollbackIntent(host, i);
      if o != Done {
        ClosedWider(host, old(tick), old(tick), old(tick), tick, journal.Current(), journal.Current());
        return;
      }
      ghost var mid := tick;
      o := MarkFailed(host, i.operation);
      ghost var closed := tick;
      if o == Done {
        o := CleanupIntent(host, i.(phase := RolledBack));
      }
      ClosedWider(host, old(tick), mid, closed, tick, old(journal.Current()), journal.Current());
    }

    // -------------------------------------------------------------------------------------
    // Recovery
    // -------------------------------------------------------------------------------------

    /** Recover the transaction of one intent file: forward when it is committed, back otherwise.
        The four conflict branches of the source are marked unreachable. */
    method RecoverOne(host: Host, i: Intent) returns (o: Outcome)
      requires Durable() && open == Some(i)
      modifies this`tick, this`disk, this`intents, this`open, journal
      ensures Durable()
      ensures ClosedOnly(host, old(tick), tick, old(journal.Current()), journal.Current())
      ensures OthersUnchanged(old(journal.Current()), journal.Current(), i.operation)
      ensures o == Done ==> i.operation in journal.Current()
      ensures o == Done ==> open == None && journal.Current()[i.operation].status != J.Started
      ensures o == Done ==> Calm(host, old(tick), tick)
      ensures o != Done ==> Excused(host, old(tick))
      ensures old(tick) <= tick
    {
      var state := journal.StateOf(i.operation);
      if state.None? {
        assert false;  // intent without an operation journal
      }
      if i.phase == Committed {
        o := FinishForward(host, i);
      } else {
        if state.value.status == J.Succeeded {
          assert false;  // pre-commit intent against a succeeded journal
        }
        o := RollbackAndFail(host, i);
      }
    }

    method FinishForward(host: Host, i: Intent) returns (o: Outcome)
      requires Durable() && open == Some(i) && i.phase == Committed
      modifies this`tick, this`disk, this`intents, this`open, journal
      ensures Durable()
      ensures OthersUnchanged(old(journal.Current()), journal.Current(), i.operation)
      ensures o == Done ==> open == None && i.operation in journal.Current()
      ensures o == Done ==> journal.Current()[i.operation].status == J.Succeeded
      ensures ClosedOnly(host, old(tick), tick, old(journal.Current()), journal.Current())
      ensures o == Done ==> Calm(host, old(tick), tick)
      ensures o != Done ==> Excused(host, old(tick))
      ensures old(tick) <= tick
    {
      if !Postcondition(disk, i) {
        assert false;  // committed postcondition invalid
      }
      hide ClosedOnly;
      ClosedNothing(host, tick, journal.Current());
      var state := journal.StateOf(i.operation);
      ghost var closed := tick;
      if state.value.status == J.Started {
        o := MarkSucceeded(host, i.operation);
        closed := tick;
        if o != Done {
          return;
        }
      } else if state.value.status == J.Failed {
        assert false;  // committed intent against a failed journal
      }
      o := CleanupIntent(host, i);
      ClosedWider(host, old(tick), old(tick), closed, tick, old(journal.Current()), journal.Current());
    }

    /** Fail every started package attempt that has no intent. */
    method FailInterrupted(host: Host, seen: set<OperationId>) returns (o: Outcome)
      requires Durable() && open == None
      requires forall id :: id in seen && id in journal.Current() ==> journal.Current()[id].status != J.Started
      modifies this`tick, journal
      ensures Durable() && (o == Done ==> NoneStarted(journal.Current()))
      ensures ClosedOnly(host, old(tick), tick, old(journal.Current()), journal.Current())
      ensures old(NoneStarted(journal.Current())) ==>
                o == Done && journal.lines == old(journal.lines) && tick == old(tick)
      ensures o == Done ==> Calm(host, old(tick), tick)
      ensures o != Done ==> Excused(host, old(tick))
      ensures old(tick) <= tick
    {
      hide Recoverable, JournalAgrees, J.Accepted, J.StatesOf;
      hide StartedAmong, ClosedOnly, OthersUnchanged, NoneStarted;
      o := Done;
      ghost var before := journal.Current();
      var pending := journal.Pending();
      PendingBegins(host, tick, before, pending, seen);
      while pending != {}
        invariant Durable() && o == Done && old(tick) <= tick && Calm(host, old(tick), tick)
        invariant ClosedOnly(host, old(tick), tick, before, journal.Current())
        invariant StartedAmong(journal.Current(), pending, seen)
        invariant forall id :: id in pending ==> id in before && before[id].status == J.Started
        invariant journal.Current().Keys == before.Keys
        invariant NoneStarted(before) ==> journal.lines == old(journal.lines) && tick == old(tick)
        decreases pending
      {
        var id :| id in pending;
        ghost var turn, mid := journal.Current(), tick;
        o := FailPending(host, id, seen);
        ClosedChain(host, old(tick), mid, tick, before, turn, journal.Current());
        PendingStep(before, turn, journal.Current(), id, pending, seen);
        if o != Done {
          return;
        }
        pending := pending - {id};
      }
      PendingEnds(journal.Current(), seen);
    }

    method FailPending(host: Host, id: OperationId, seen: set<OperationId>) returns (o: Outcome)
      requires Durable() && open == None && id in journal.Current()
      modifies this`tick, journal
      ensures Durable()
      ensures OthersUnchanged(old(journal.Current()), journal.Current(), id)
      ensures ClosedOnly(host, old(tick), tick, old(journal.Current()), journal.Current())
      ensures o == Done && id !in seen && IsPackageAction(old(journal.Current())[id].action) ==>
                journal.Current()[id].status != J.Started
      ensures !IsPackageAction(old(journal.Current())[id].action) ==>
                o == Done && journal.lines == old(journal.lines) && tick == old(tick)
      ensures o == Done ==> Calm(host, old(tick), tick)
      ensures o != Done ==> Excused(host, old(tick))
      ensures old(tick) <= tick
    {
      hide J.Accepted, J.StatesOf, Recoverable, JournalAgrees, ClosedOnly;
      o := Done;
      var state := journal.StateOf(id);
      ClosedNothing(host, tick, journal.Current());
      if IsPackageAction(state.value.action) && id !in seen {
        o := MarkFailed(host, id);
      }
    }

    /** `_recover_locked`: settle the open transaction, then fail what never got an intent. */
    method RecoverLocked(host: Host) returns (o: Outcome)
      requires Durable()
      modifies this`tick, this`disk, this`intents, this`open, journal
      ensures Durable() && (o == Done ==> Settled())
      ensures ClosedOnly(host, old(tick), tick, old(journal.Current()), journal.Current())
      ensures o == Done <==> Calm(host, old(tick), tick) && !Late(host)
      ensures Late(host) ==> Behind(host.clock(tick), old(journal.Current()))
      ensures o == Done ==> Reached(host, old(tick), tick, old(journal.Current()))
      ensures Onward(host, old(tick), tick) ==>
                (o == Done <==> Calm(host, old(tick), tick) && !Behind(host.clock(tick), old(journal.Current())))
      ensures old(tick) <= tick
      ensures old(Settled()) ==>
                o == Done && disk == old(disk) && journal.lines == old(journal.lines) && tick == old(tick)
    {
      hide J.Accepted, J.StatesOf, ClosedOnly, OthersUnchanged, Behind, Reached, Onward;
      var seen := intents.Keys;
      o := SettleIntents(host);
      ghost var mid, settled := tick, journal.Current();
      if o == Done {
        o := FailInterrupted(host, seen);
        ClosedChain(host, old(tick), mid, tick, old(journal.Current()), settled, journal.Current());
      }
      LateExactly(host, old(tick), tick, old(journal.Current()), journal.Current());
    }

    /** Recover every intent on disk; there is at most one. */
    method SettleIntents(host: Host) returns (o: Outcome)
      requires Durable()
      modifies this`tick, this`disk, this`intents, this`open, journal
      ensures Durable() && (o == Done ==> open == None)
      ensures o == Done ==> forall id :: id in old(intents) && id in journal.Current() ==>
                journal.Current()[id].status != J.Started
      ensures ClosedOnly(host, old(tick), tick, old(journal.Current()), journal.Current())
      ensures o == Done ==> Calm(host, old(tick), tick)
      ensures o != Done ==> Excused(host, old(tick))
      ensures old(tick) <= tick
      ensures old(open) == None ==>
                o == Done && disk == old(disk) && journal.lines == old(journal.lines) && tick == old(tick)
    {
      hide J.Accepted, J.StatesOf, ClosedOnly, OthersUnchanged;
      ghost var start := journal.Current();
      ClosedNothing(host, tick, start);
      o := Done;
      var seen := intents.Keys;
      var rest := seen;
      while rest != {}
        invariant Durable() && o == Done && old(tick) <= tick && Calm(host, old(tick), tick) && rest == intents.Keys
        invariant forall id :: id in seen && id !in rest && id in journal.Current() ==>
                    journal.Current()[id].status != J.Started
        invariant ClosedOnly(host, old(tick), tick, start, journal.Current())
        invariant seen == {} ==> disk == old(disk) && journal.lines == old(journal.lines) && tick == old(tick)
        decreases rest
      {
        var id :| id in rest;
        ghost var before, mid := journal.Current(), tick;
        o := RecoverOne(host, intents[id]);
        ClosedChain(host, old(tick), mid, tick, start, before, journal.Current());
        if o != Done {
          return;
        }
        rest := rest - {id};
      }
    }

    // -------------------------------------------------------------------------------------
    // Going forward
    // -------------------------------------------------------------------------------------

    /** `_begin`: start the attempt, retry a failed one, or report a finished one. */
    method Begin(host: Host, id: OperationId, action: Action, target: string) returns (b: Beginning)
      requires Settled()
      modifies this`tick, journal
      ensures Durable() && open == None
      ensures b == Fresh ==> OnlyStarted(journal.Current(), id)
      ensures b != Fresh ==> journal.Current() == old(journal.Current())
      ensures b == AlreadyDone ==> id in done
      ensures b == Fresh ==> journal.Current()[id].startedAt == host.clock(tick)
      ensures b.Halted? ==> !Calm(host, old(tick), tick) || RetryLate(host, id)
      ensures !b.Halted? ==> Calm(host, old(tick), tick)
      ensures old(tick) < tick
      ensures b == Fresh ==> !RetryBehind(host.clock(tick), old(journal.Current()), id)
      ensures b == Conflicting <==>
                host.fault(old(tick)) == NoFault && !Matches(old(journal.Current()), id, ActionName(action), target)
      ensures id !in old(journal.Current()) ==> (b == Fresh <==> host.fault(old(tick)) == NoFault)
    {
      hide Recoverable, J.Accepted, J.StatesOf;
      var o := Effect(host);
      if o != Done {
        return Halted(o);
      }
      var begun := journal.Begin(id, ActionName(action), target, host.clock(tick));
      if begun.Failure? {
        return Conflicting;
      }
      if begun.value.status == J.Succeeded {
        return AlreadyDone;
      }
      if begun.value.status == J.Failed {
        b := RetryFailed(host, id);
      } else {
        b := Fresh;
        StartedAttemptAgrees(old(journal.Current()), done, id, begun.value);
      }
    }

    method RetryFailed(host: Host, id: OperationId) returns (b: Beginning)
      requires Settled() && id in journal.Current() && IsPackageAction(journal.Current()[id].action)
      requires journal.Current()[id].status == J.Failed
      modifies this`tick, journal
      ensures Durable() && open == None
      ensures b == Fresh || b.Halted?
      ensures b == Fresh ==> OnlyStarted(journal.Current(), id)
      ensures b != Fresh ==> journal.Current() == old(journal.Current())
      ensures b == Fresh ==> journal.Current()[id].startedAt == host.clock(tick)
      ensures b == Fresh <==> Calm(host, old(tick), tick) && !RetryBehind(host.clock(tick), old(journal.Current()), id)
      ensures old(tick) < tick
    {
      hide Recoverable, JournalAgrees, J.Accepted, J.StatesOf;
      var o := Effect(host);
      if o != Done {
        return Halted(o);
      }
      J.AttemptPositive(journal.sign, journal.lines, id);
      var retried := journal.Retry(id, host.clock(tick));
      if retried.Failure? {
        return Halted(Raised);
      }
      StartedAttemptAgrees(old(journal.Current()), done, id, retried.value);
      return Fresh;
    }

    /** `_apply_files`: one rename for install and uninstall, two for update. */
    method ApplyFiles(host: Host, i: Intent, ghost c: Change) returns (o: Outcome)
      requires open == Some(i) && i.phase == Prepared && Recoverable(disk, base, open)
      requires Intends(i, base, c) && Fits(cfg, base, c) && ReadyToApply(disk, base, i, c)
      modifies this`tick, this`disk
      ensures Recoverable(disk, base, open) && disk.registry == old(disk).registry
      ensures o == Done ==> Landed(disk.(registry := i.after), base, i, c)
      ensures o == Done <==> Calm(host, old(tick), tick)
      ensures old(tick) <= tick
    {
      o := Done;
      var id, slot := i.packageId, SlotOf(i);
      if i.action == Install {
        if slot !in disk.stages || id in disk.trees {
          assert false;  // install staging postcondition
        }
        o := Effect(host);
        if o == Done {
          disk := disk.(trees := disk.trees[id := disk.stages[slot]], stages := disk.stages - {slot});
        }
      } else if i.action == Update {
        if slot !in disk.stages || id !in disk.trees || slot in disk.backups {
          assert false;  // update staging postcondition
        }
        o := MoveToBackup(host, i);
        if o != Done {
          return;
        }
        o := Effect(host);
        if o == Done {
          disk := disk.(trees := disk.trees[id := disk.stages[slot]], stages := disk.stages - {slot});
        }
      } else if i.action.Uninstall? {
        if id !in disk.trees || slot in disk.backups {
          assert false;  // uninstall staging postcondition
        }
        o := MoveToBackup(host, i);
      }
    }

    method MoveToBackup(host: Host, i: Intent) returns (o: Outcome)
      requires open == Some(i) && i.phase == Prepared && Recoverable(disk, base, open) && i.backedUp
      requires i.packageId in disk.trees && disk.trees == base.trees && disk.backups == map[]
      modifies this`tick, this`disk
      ensures Recoverable(disk, base, open)
      ensures o != Done ==> disk == old(disk)
      ensures o == Done ==> disk == old(disk).(trees := old(disk).trees - {i.packageId},
                                               backups := map[SlotOf(i) := old(disk).trees[i.packageId]])
      ensures o == Done <==> Calm(host, old(tick), tick)
      ensures old(tick) <= tick
    {
      o := Effect(host);
      if o == Done {
        disk := disk.(trees := disk.trees - {i.packageId},
                      backups := disk.backups[SlotOf(i) := disk.trees[i.packageId]]);
      }
    }

    /** The reversible part of `_execute`: files, migrations and registry, each followed by its
        phase. `current` is the phase the process believes in when it stops. */
    method Forward(host: Host, i: Intent, ghost c: Change) returns (o: Outcome, current: Intent)
      requires Durable() && open == Some(i) && i.phase == Prepared
      requires Intends(i, base, c) && Fits(cfg, base, c) && ReadyToApply(disk, base, i, c)
      modifies this`tick, this`disk, this`intents, this`open
      ensures Durable()
      ensures open.Some? && SameTransaction(open.value, i) && SameTransaction(current, i)
      ensures open.value.phase != Committed && open.value.phase != RolledBack
      ensures o == Done ==> open == Some(current) && current.phase == RegistryApplied && Landed(disk, base, i, c)
      ensures o == Done <==> Calm(host, old(tick), tick) && MigrationsRunnable(cfg, c)
      ensures o == Crashed ==> !Calm(host, old(tick), tick)
      ensures old(tick) <= tick
    {
      o, current := ForwardFiles(host, i, c);
      if o == Done {
        o, current := ForwardRegistry(host, current, c);
      }
    }

    method AdvancePhase(host: Host, i: Intent) returns (o: Outcome)
      requires Durable() && open.Some? && SameTransaction(open.value, i)
      requires Reversible(open.value.phase) && Reversible(i.phase)
      modifies this`tick, this`intents, this`open
      ensures Durable()
      ensures open == if o == Done then Some(i) else old(open)
      ensures o == Done <==> Calm(host, old(tick), tick)
      ensures old(tick) <= tick
    {
      o := WriteIntent(host, i);
    }

    method ForwardFiles(host: Host, i: Intent, ghost c: Change) returns (o: Outcome, current: Intent)
      requires Durable() && open == Some(i) && i.phase == Prepared
      requires Intends(i, base, c) && Fits(cfg, base, c) && ReadyToApply(disk, base, i, c)
      modifies this`tick, this`disk, this`intents, this`open
      ensures Durable()
      ensures open.Some? && SameTransaction(open.value, i) && SameTransaction(current, i)
      ensures open.value.phase == Prepared || open.value.phase == FilesApplied
      ensures o == Done ==>
                && open == Some(current) && current.phase == FilesApplied
                && Landed(disk.(registry := i.after), base, i, c)
      ensures o == Done <==> Calm(host, old(tick), tick)
      ensures old(tick) <= tick
    {
      hide J.Accepted, J.StatesOf, JournalAgrees;
      current := i;
      o := ApplyFiles(host, i, c);
      if o != Done {
        return;
      }
      current := i.(phase := FilesApplied);
      o := AdvancePhase(host, current);
      if o != Done {
        return;
      }
      o := Effect(host);  // after_filesystem
    }

    method ForwardRegistry(host: Host, i: Intent, ghost c: Change) returns (o: Outcome, current: Intent)
      requires Durable() && open == Some(i) && i.phase == FilesApplied
      requires Intends(i, base, c) && Fits(cfg, base, c) && Landed(disk.(registry := i.after), base, i, c)
      modifies this`tick, this`disk, this`intents, this`open
      ensures Durable()
      ensures open.Some? && SameTransaction(open.value, i) && SameTransaction(current, i)
      ensures open.value.phase == FilesApplied || open.value.phase == RegistryApplied
      ensures o == Done ==> open == Some(current) && current.phase == RegistryApplied && Landed(disk, base, i, c)
      ensures o == Done <==> Calm(host, old(tick), tick) && MigrationsRunnable(cfg, c)
      ensures o == Crashed ==> !Calm(host, old(tick), tick)
      ensures old(tick) <= tick
    {
      current := i;
      o := Done;
      if i.staged {
        o := ApplyMigrations(host, i);
      }
      if o == Done {
        o, current := SwitchRegistry(host, i, c);
      }
    }

    method SwitchRegistry(host: Host, i: Intent, ghost c: Change) returns (o: Outcome, current: Intent)
      requires Durable() && open == Some(i) && i.phase == FilesApplied
      requires Intends(i, base, c) && Landed(disk.(registry := i.after), base, i, c)
      modifies this`tick, this`disk, this`intents, this`open
      ensures Durable()
      ensures open.Some? && SameTransaction(open.value, i) && SameTransaction(current, i)
      ensures open.value.phase == FilesApplied || open.value.phase == RegistryApplied
      ensures o == Done ==> open == Some(current) && current.phase == RegistryApplied && Landed(disk, base, i, c)
      ensures o == Done <==> Calm(host, old(tick), tick)
      ensures old(tick) <= tick
    {
      hide J.Accepted, J.StatesOf, JournalAgrees;
      current := i;
      o := Effect(host);
      if o != Done {
        return;
      }
      RegistryMayVary(disk, base, i, i.after);
      disk := disk.(registry := i.after);
      current := i.(phase := RegistryApplied);
      o := AdvancePhase(host, current);
      if o != Done {
        return;
      }
      o := Effect(host);  // after_registry
    }

    method ApplyMigrations(host: Host, i: Intent) returns (o: Outcome)
      modifies this`tick
      ensures o == Done <==>
                Calm(host, old(tick), tick) &&
                (i.packageId in i.after && i.after[i.packageId].manifest.migrations ==> cfg.migrationApplier)
      ensures o == Crashed ==> !Calm(host, old(tick), tick)
      ensures old(tick) <= tick
    {
      if i.packageId !in i.after || !i.after[i.packageId].manifest.migrations {
        return Done;
      }
      if !cfg.migrationApplier {
        return Raised;
      }
      o := Effect(host);
    }

    /** The commit point: once this intent write is durable the change is part of the settled pair. */
    method Commit(host: Host, i: Intent, ghost c: Change) returns (o: Outcome)
      requires Durable() && open == Some(i) && i.phase == RegistryApplied
      requires Intends(i, base, c) && Fits(cfg, base, c) && Landed(disk, base, i, c)
      modifies this`tick, this`intents, this`open, this`base, this`done
      ensures Durable()
      ensures o == Done ==>
                && open == Some(i.(phase := Committed))
                && base == Apply(old(base), c) && done == old(done) + {c.operation}
      ensures o != Done ==> open == Some(i) && base == old(base) && done == old(done)
      ensures o == Done <==> Calm(host, old(tick), tick)
      ensures old(tick) <= tick
    {
      hide J.Accepted, J.StatesOf, JournalAgrees, PreCommit, PostCommit, Fits;
      LandedCommits(cfg, disk, base, i.(phase := Committed), c);
      CommitAgrees(journal.Current(), done, i);
      o := WriteIntent(host, i.(phase := Committed));
      if o == Done {
        base := Apply(base, c);
        done := done + {c.operation};
      }
    }

    ghost predicate Took(before: Base, doneBefore: set<OperationId>, c: Change)
      reads `base, `done
    {
      base == Apply(before, c) && done == doneBefore + {c.operation}
    }

    /** `_execute` from a durable prepared intent on. */
    method Carry(host: Host, i: Intent, ghost c: Change) returns (r: Execution)
      requires Durable() && open == Some(i) && i.phase == Prepared
      requires Intends(i, base, c) && Fits(cfg, base, c) && ReadyToApply(disk, base, i, c)
      modifies this`tick, this`disk, this`intents, this`open, this`base, this`done, journal
      ensures Durable()
      ensures OthersUnchanged(old(journal.Current()), journal.Current(), i.operation)
      ensures (base == old(base) && done == old(done)) || Took(old(base), old(done), c)
      ensures r.Finished? ==> Took(old(base), old(done), c) && Closing(i.operation, J.Succeeded)
      ensures r.Undone? ==> base == old(base) && done == old(done) && Closing(i.operation, J.Failed)
      ensures r.Stopped? ==> Excused(host, old(tick))
      ensures r.Finished? ==> MigrationsRunnable(cfg, c)
      ensures r.Finished? ==> Calm(host, old(tick), tick)
      ensures r.Undone? ==> !Calm(host, old(tick), tick) || !MigrationsRunnable(cfg, c)
      ensures old(tick) <= tick
    {
      var o, current := Forward(host, i, c);
      SameIntends(i, current, disk, base, c);
      if o == Done {
        r := CommitAndConclude(host, current, c);
      } else {
        r := Undo(host, o, current);
      }
    }

    method CommitAndConclude(host: Host, i: Intent, ghost c: Change) returns (r: Execution)
      requires Durable() && open == Some(i) && i.phase == RegistryApplied
      requires Intends(i, base, c) && Fits(cfg, base, c) && Landed(disk, base, i, c)
      modifies this`tick, this`disk, this`intents, this`open, this`base, this`done, journal
      ensures Durable()
      ensures OthersUnchanged(old(journal.Current()), journal.Current(), i.operation)
      ensures (base == old(base) && done == old(done)) || Took(old(base), old(done), c)
      ensures r.Finished? ==> Took(old(base), old(done), c) && Closing(i.operation, J.Succeeded)
      ensures r.Undone? ==> base == old(base) && done == old(done) && Closing(i.operation, J.Failed)
      ensures r.Finished? ==> Calm(host, old(tick), tick)
      ensures r.Stopped? ==> Excused(host, old(tick))
      ensures r.Undone? ==> !Calm(host, old(tick), tick)
      ensures old(tick) <= tick
    {
      var o := Commit(host, i, c);
      if o == Done {
        r := Conclude(host, i.(phase := Committed));
      } else {
        r := Undo(host, o, i);
      }
    }

    /** Roll back in the same process after an error; after a crash leave it to recovery. */
    method Undo(host: Host, o: Outcome, i: Intent) returns (r: Execution)
      requires Durable() && open.Some? && open.value.phase != Committed && SameTransaction(open.value, i)
      requires o != Done
      modifies this`tick, this`disk, this`intents, this`open, journal
      ensures Durable()
      ensures OthersUnchanged(old(journal.Current()), journal.Current(), i.operation)
      ensures r.Undone? ==> Closing(i.operation, J.Failed)
      ensures !r.Finished?
      ensures r.Undone? ==> o == Raised
      ensures r.Stopped? ==> o == Crashed || Excused(host, old(tick))
      ensures old(tick) <= tick
    {
      if o == Crashed {
        return Stopped(Crashed);
      }
      var undone := RollbackAndFail(host, i);
      return if undone == Done then Undone else Stopped(undone);
    }

    ghost predicate Closing(id: OperationId, status: J.Status)
      reads `open, journal
    {
      open == None && journal.Valid() && id in journal.Current() && journal.Current()[id].status == status
    }

    /** After the commit point nothing is undone: record success, clean up. */
    method Conclude(host: Host, i: Intent) returns (r: Execution)
      requires Durable() && open == Some(i) && i.phase == Committed
      modifies this`tick, this`disk, this`intents, this`open, journal
      ensures Durable()
      ensures OthersUnchanged(old(journal.Current()), journal.Current(), i.operation)
      ensures r.Finished? ==> Closing(i.operation, J.Succeeded)
      ensures !r.Undone?
      ensures r.Finished? ==> Calm(host, old(tick), tick)
      ensures r.Stopped? ==> Excused(host, old(tick))
      ensures old(tick) <= tick
    {
      hide Recoverable, J.Accepted, J.StatesOf;
      var o := Effect(host);  // after_commit_marker
      if o != Done {
        return Stopped(o);
      }
      o := MarkSucceeded(host, i.operation);
      if o != Done {
        return Stopped(o);
      }
      o := CleanupIntent(host, i);
      return if o == Done then Finished else Stopped(o);
    }

    // -------------------------------------------------------------------------------------
    // One transaction from its intent to its end
    // -------------------------------------------------------------------------------------

    method OpenIntent(host: Host, i: Intent, ghost c: Change) returns (o: Outcome)
      requires Durable() && open == None && OnlyStarted(journal.Current(), i.operation)
      requires i.phase == Prepared && Intends(i, base, c) && Fits(cfg, base, c)
      modifies this`tick, this`intents, this`open
      ensures Durable()
      ensures open == if o == Done then Some(i) else None
      ensures o == Done <==> Calm(host, old(tick), tick)
      ensures old(tick) <= tick
    {
      o := WriteIntent(host, i);
    }

    /** One step of staging. */
    method FillStage(host: Host, i: Intent, tree: Tree) returns (o: Outcome)
      requires Durable() && open == Some(i) && i.phase == Prepared && i.staged
      modifies this`tick, this`disk
      ensures Durable() && tick == old(tick) + 1 && (o == Done <==> host.fault(old(tick)) == NoFault)
      ensures disk == if o == Done then old(disk).(stages := map[SlotOf(i) := tree]) else old(disk)
    {
      hide JournalAgrees, J.Accepted, J.StatesOf;
      o := Effect(host);
      if o == Done {
        disk := disk.(stages := map[SlotOf(i) := tree]);
      }
    }

    /** Extract the artifact and write its marker; either step may leave a partial stage behind. */
    method StageArtifact(host: Host, i: Intent, artifact: Artifact) returns (o: Outcome)
      requires Durable() && open == Some(i) && i.phase == Prepared && i.staged
      modifies this`tick, this`disk
      ensures Durable() && disk == old(disk).(stages := disk.stages)
      ensures o == Done ==> disk.stages == map[SlotOf(i) := StagedTree(artifact)]
      ensures o == Done <==> Calm(host, old(tick), tick)
      ensures old(tick) <= tick
    {
      hide Recoverable, JournalAgrees, J.Accepted, J.StatesOf;
      o := FillStage(host, i, Tree(None, TornContent));
      if o != Done {
        return;
      }
      o := FillStage(host, i, Tree(None, Whole(artifact.content)));
      if o == Done {
        o := FillStage(host, i, StagedTree(artifact));
      }
    }

    /** Install and update: durable intent, stage, validators and occupancy hooks, then carry on. */
    method TransactStaged(host: Host, i: Intent, artifact: Artifact, ghost c: Change) returns (r: Execution)
      requires Durable() && open == None && OnlyStarted(journal.Current(), i.operation)
      requires i.phase == Prepared && i.staged && Intends(i, base, c) && Fits(cfg, base, c)
      requires c.files == Put(StagedTree(artifact))
      modifies this`tick, this`disk, this`intents, this`open, this`base, this`done, journal
      ensures Concluded(r, old(base), old(done), c)
      ensures NoNewStarts(old(journal.Current()), journal.Current())
      ensures r.Stopped? ==> Excused(host, old(tick))
      ensures r.Finished? ==> MigrationsRunnable(cfg, c)
      ensures r.Finished? ==> Calm(host, old(tick), tick)
      ensures r.Undone? ==> !Calm(host, old(tick), tick) || !MigrationsRunnable(cfg, c)
      ensures old(tick) <= tick
    {
      hide Recoverable, JournalAgrees, J.Accepted, J.StatesOf;
      NothingInFlight();
      var o := OpenIntent(host, i, c);
      if o != Done {
        r := Abandon(host, o, i.operation);
        return;
      }
      r := StageAndCarry(host, i, artifact, c);
    }

    method StageAndCarry(host: Host, i: Intent, artifact: Artifact, ghost c: Change) returns (r: Execution)
      requires Durable() && open == Some(i) && OnlyStarted(journal.Current(), i.operation) && Idle(disk, base)
      requires i.phase == Prepared && i.staged && Intends(i, base, c) && Fits(cfg, base, c)
      requires c.files == Put(StagedTree(artifact))
      modifies this`tick, this`disk, this`intents, this`open, this`base, this`done, journal
      ensures Concluded(r, old(base), old(done), c)
      ensures NoNewStarts(old(journal.Current()), journal.Current())
      ensures r.Stopped? ==> Excused(host, old(tick))
      ensures r.Finished? ==> Calm(host, old(tick), tick) && MigrationsRunnable(cfg, c)
      ensures r.Undone? ==> !Calm(host, old(tick), tick) || !MigrationsRunnable(cfg, c)
      ensures old(tick) <= tick
    {
      hide PreCommit, PostCommit, JournalAgrees, J.Accepted, J.StatesOf, Fits;
      hide OnlyStarted, OthersUnchanged, NoneStarted, NoNewStarts;
      var o := StageArtifact(host, i, artifact);
      if o == Done {
        o := Effect(host);  // stage_validator, after_stage, occupancy reset
      }
      if o == Done {
        r := Carry(host, i, c);
      } else {
        r := Undo(host, o, i);
      }
      OnlyOneClosed(old(journal.Current()), journal.Current(), i.operation);
    }

    /** Enable, disable and uninstall have nothing to stage. */
    method Transact(host: Host, i: Intent, ghost c: Change) returns (r: Execution)
      requires Durable() && open == None && OnlyStarted(journal.Current(), i.operation)
      requires i.phase == Prepared && !i.staged && Intends(i, base, c) && Fits(cfg, base, c)
      modifies this`tick, this`disk, this`intents, this`open, this`base, this`done, journal
      ensures Concluded(r, old(base), old(done), c)
      ensures NoNewStarts(old(journal.Current()), journal.Current())
      ensures r.Stopped? ==> Excused(host, old(tick))
      ensures r.Finished? ==> MigrationsRunnable(cfg, c)
      ensures r.Finished? ==> Calm(host, old(tick), tick)
      ensures r.Undone? ==> !Calm(host, old(tick), tick) || !MigrationsRunnable(cfg, c)
      ensures old(tick) <= tick
    {
      hide PreCommit, PostCommit, JournalAgrees, J.Accepted, J.StatesOf, Fits;
      hide OnlyStarted, OthersUnchanged, NoneStarted, NoNewStarts;
      var o := OpenIntent(host, i, c);
      if o == Done {
        r := Carry(host, i, c);
      } else {
        r := Abandon(host, o, i.operation);
      }
      OnlyOneClosed(old(journal.Current()), journal.Current(), i.operation);
    }

    /** The intent could not be written: fail the attempt. */
    method Abandon(host: Host, o: Outcome, id: OperationId) returns (r: Execution)
      requires Durable() && open == None && o != Done && OnlyStarted(journal.Current(), id)
      modifies this`tick, journal
      ensures Durable() && open == None
      ensures OthersUnchanged(old(journal.Current()), journal.Current(), id)
      ensures r.Undone? ==> Closing(id, J.Failed)
      ensures !r.Finished?
      ensures r.Stopped? ==> o == Crashed || Excused(host, old(tick))
      ensures old(tick) <= tick
    {
      if o == Crashed {
        return Stopped(Crashed);
      }
      var failed := MarkFailed(host, id);
      return if failed == Done then Undone else Stopped(failed);
    }

    /** How a transaction may end, relative to the settled pair it started from. */
    ghost predicate Concluded(r: Execution, before: Base, doneBefore: set<OperationId>, c: Change)
      reads `intents, `open, `disk, `base, `done, journal
    {
      && Durable()
      && ((base == before && done == doneBefore) || Took(before, doneBefore, c))
      && (r.Finished? ==> Took(before, doneBefore, c) && Settled() && Closing(c.operation, J.Succeeded))
      && (r.Undone? ==> base == before && done == doneBefore && Settled() && Closing(c.operation, J.Failed))
    }

    // -------------------------------------------------------------------------------------
    // The public operations
    // -------------------------------------------------------------------------------------

    /** How one operation may end, relative to the history it started from. Together with `Valid`
        this is the atomicity of the lifecycle: the settled pair is the replay of the ledger, so
        registry and package root are those before the change or those after it, and the journal
        says failed or succeeded accordingly. */
    ghost predicate Answered(reply: Reply, before: Ledger, c: Change)
      reads `intents, `open, `disk, `base, `done, `ledger, journal
    {
      && Valid()
      && match reply
         case Applied(record) =>
           record == c.record && ledger == before + [c] && Settled() && Closing(c.operation, J.Succeeded)
         case Replayed => ledger == before && Settled() && c.operation in done
         case Rejected => ledger == before && Settled() && Closing(c.operation, J.Failed)
         case Refused => ledger == before && Settled()
         case Interrupted(_) => ledger == before || ledger == before + [c]
    }

    /** The registry in use is closed and keyed, and agrees with the package root. */
    lemma HistoryIsClosed()
      requires HistoryKept()
      ensures Closed(cfg.vm, cfg.core, base.registry) && Agreeing(base)
    {
      LedgerKeepsClosed(cfg, initial, ledger);
      LedgerKeepsAgreement(cfg, initial, ledger);
    }

    /** `recover`: run again after any number of interruptions, it leaves exactly the settled pair,
        nothing in flight, and a journal whose succeeded package operations are the ledger. */
    method Recover(host: Host) returns (o: Outcome)
      requires Valid()
      modifies this`tick, this`disk, this`intents, this`open, journal
      ensures Valid()
      ensures o == Done ==> Settled() && intents == map[] && Idle(disk, Replay(initial, ledger))
      ensures o == Done ==> Closed(cfg.vm, cfg.core, disk.registry)
      ensures o == Done ==> forall id :: id in journal.Current() && IsPackageAction(journal.Current()[id].action) ==>
                journal.Current()[id].status == if id in Operations(ledger) then J.Succeeded else J.Failed
      ensures old(tick) <= tick && (o == Done <==> Calm(host, old(tick), tick) && !Late(host))
      ensures Late(host) ==> Behind(host.clock(tick), old(journal.Current()))
      ensures o == Done ==> Reached(host, old(tick), tick, old(journal.Current()))
      ensures Onward(host, old(tick), tick) ==>
                (o == Done <==> Calm(host, old(tick), tick) && !Behind(host.clock(tick), old(journal.Current())))
      ensures ClosedOnly(host, old(tick), tick, old(journal.Current()), journal.Current())
      ensures old(Settled()) ==>
                o == Done && disk == old(disk) && journal.lines == old(journal.lines) && tick == old(tick)
    {
      hide ClosedOnly, Reached, Behind, Onward, J.Accepted, J.StatesOf, LedgerGuarded, Agreeing, Closed;
      o := RecoverLocked(host);
      HistoryIsClosed();
    }

    lemma NotDoneYet(id: OperationId)
      requires Durable() && open == None && OnlyStarted(journal.Current(), id)
      ensures id !in done
    {
    }

    lemma NothingInFlight()
      requires Durable() && open == None
      ensures Idle(disk, base)
    {
    }

    /** Every operation first recovers, then begins its journal attempt. */
    method Enter(host: Host, id: OperationId, action: Action, target: string) returns (b: Beginning)
      requires Valid()
      modifies this`tick, this`disk, this`intents, this`open, journal
      ensures Valid()
      ensures b == Fresh ==> open == None && OnlyStarted(journal.Current(), id)
      ensures b == AlreadyDone ==> id in done
      ensures b == AlreadyDone || b == Conflicting ==> Settled()
      ensures b == Fresh ==> journal.Current()[id].startedAt == host.clock(tick)
      ensures b != Fresh ==> NoNewStarts(old(journal.Current()), journal.Current())
      ensures b.Halted? ==>
                || Excused(host, old(tick))
                || (RetryLate(host, id) && ClockFell(host, old(tick), tick, old(journal.Current()), id))
      ensures !b.Halted? ==> Calm(host, old(tick), tick)
      ensures b == Fresh ==> ClockReached(host, old(tick), tick, old(journal.Current()), id)
      ensures b == Conflicting ==> !Matches(old(journal.Current()), id, ActionName(action), target)
      ensures old(tick) <= tick
      ensures id !in old(journal.Current()) ==> b == Fresh || (b.Halted? && Excused(host, old(tick)))
      ensures old(Settled()) && id !in old(journal.Current()) ==> (b == Fresh <==> host.fault(old(tick)) == NoFault)
    {
      hide ClosedOnly, Reached, Behind, Onward, ClockReached, ClockFell, Matches, NoneStarted;
      hide Recoverable, JournalAgrees, J.Accepted, J.StatesOf, LedgerGuarded, OnceEach;
      var o := RecoverLocked(host);
      ghost var mid, settled := tick, journal.Current();
      ClosedStartsNothing(host, old(tick), mid, old(journal.Current()), settled);
      if o != Done {
        return Halted(o);
      }
      b := Begin(host, id, action, target);
      if b == Fresh {
        BegunReached(host, old(tick), mid, tick, old(journal.Current()), settled, id);
      } else if b == Conflicting {
        StillMatches(host, old(tick), mid, old(journal.Current()), settled, id);
      } else if b.Halted? && RetryLate(host, id) {
        RetryFell(host, old(tick), mid, tick, old(journal.Current()), settled, id);
      }
    }

    /** `_fail_without_intent`. */
    method Reject(host: Host, id: OperationId) returns (reply: Reply)
      requires Valid() && open == None && OnlyStarted(journal.Current(), id)
      modifies this`tick, journal
      ensures Valid()
      ensures reply == Rejected || reply.Interrupted?
      ensures reply == Rejected ==> Settled() && Closing(id, J.Failed)
      ensures NoNewStarts(old(journal.Current()), journal.Current())
      ensures reply.Interrupted? ==> Excused(host, old(tick))
      ensures old(tick) <= tick
    {
      hide Recoverable, JournalAgrees, Closed, LedgerGuarded, OnceEach, Operations;
      var o := MarkFailed(host, id);
      return if o == Done then Rejected else Interrupted(o);
    }

    /** Book a transaction that reached its commit point, however it ended afterwards. */
    ghost method Book(r: Execution, before: Base, doneBefore: set<OperationId>, c: Change)
      requires Concluded(r, before, doneBefore, c) && c.operation !in doneBefore
      requires Closed(cfg.vm, cfg.core, initial.registry) && Agreeing(initial)
      requires LedgerGuarded(cfg, initial, ledger) && before == Replay(initial, ledger)
      requires doneBefore == Operations(ledger) && OnceEach(ledger) && Guarded(cfg, before, c)
      modifies this`ledger
      ensures Answered(ReplyTo(r, c.record), old(ledger), c)
    {
      hide Recoverable, JournalAgrees, Closed, Replay, Operations, OnceEach, Guarded, Agreeing;
      if c.operation in done {
        ReplayAppend(cfg, initial, ledger, c);
        OperationsAppend(ledger, c);
        ledger := ledger + [c];
      }
    }

    predicate MarkerValid(id: PackageId)
      requires id in disk.registry
      reads `disk
    {
      id in disk.trees && MarkerMatches(disk.trees[id], id, disk.registry[id].manifest.version)
    }

    /** The checks of install and update, in the order of the source. */
    method AdmitArtifact(op: OperationId, action: Action, artifact: Artifact) returns (ok: bool)
      requires Idle(disk, base) && Agreeing(base) && artifact.signer != ""
      requires action == Install || action == Update
      ensures ok <==> Guarded(cfg, base, ArtifactChange(base.registry, op, action, artifact))
    {
      var id, before := artifact.manifest.id, disk.registry;
      if id in cfg.reservedIds || (action == Install && id in before) {
        return false;
      }
      if action == Update {
        if id !in before || before[id].manifest.kind != artifact.manifest.kind
           || !cfg.newer(artifact.manifest.version, before[id].manifest.version) || !MarkerValid(id)
           || !SignerMayFollow(cfg, id, artifact.manifest.kind, disk.trees[id].marker.value.signer, artifact.signer) {
          return false;
        }
      }
      var c := ArtifactChange(before, op, action, artifact);
      var after := before[id := c.record.value];
      ok := ValidateGraph(cfg.vm, cfg.core, after);
      if ok && c.record.value.status == Enabled {
        ok := ResolveCapabilities(cfg.vm, Selected(after, None, None));
        ok := ok && EnabledDependencies(cfg.vm, after, id);
      }
      if ok {
        ok := if action == Install then id !in disk.trees else id in disk.trees;
      }
    }

    /** Carry out an admitted install or update on a fresh attempt and book it. */
    method PerformArtifact(host: Host, artifact: Artifact, c: Change) returns (reply: Reply)
      requires Valid() && open == None && OnlyStarted(journal.Current(), c.operation)
      requires (c.action == Install || c.action == Update) && c.files == Put(StagedTree(artifact))
      requires Guarded(cfg, base, c)
      modifies this, journal
      ensures Answered(reply, old(ledger), c) && !reply.Replayed? && !reply.Refused?
      ensures reply.Interrupted? ==> Excused(host, old(tick))
      ensures reply.Applied? ==> MigrationsRunnable(cfg, c)
      ensures reply.Applied? ==> Calm(host, old(tick), tick)
      ensures reply == Rejected ==> !Calm(host, old(tick), tick) || !MigrationsRunnable(cfg, c)
      ensures NoNewStarts(old(journal.Current()), journal.Current())
      ensures old(tick) <= tick
    {
      var i := NewIntent(disk.registry, c, Some(artifact.sha256), Some(artifact.signer));
      ghost var before, doneBefore := base, done;
      var r := TransactStaged(host, i, artifact, c);
      Book(r, before, doneBefore, c);
      return ReplyTo(r, c.record);
    }

    method InstallOrUpdate(host: Host, op: OperationId, action: Action, artifact: Artifact) returns (reply: Reply)
      requires Valid() && artifact.signer != "" && (action == Install || action == Update)
      modifies this, journal
      ensures var c := ArtifactChange(old(base).registry, op, action, artifact);
              && Answered(reply, old(ledger), c)
              && (Undecided(old(done), old(journal.Current()), op, action, ArtifactTarget(artifact)) ==>
                    Decided(reply, Guarded(cfg, old(base), c) && MigrationsRunnable(cfg, c),
                            host, old(tick), old(journal.Current()), op))
      ensures reply == Replayed ==>
                var id := artifact.manifest.id;
                && id in disk.registry && disk.registry[id].manifest.version == artifact.manifest.version
                && id in disk.trees && disk.trees[id].marker == StagedTree(artifact).marker
      ensures reply.Interrupted? ==> Excused(host, old(tick)) || RetryLate(host, op)
      ensures Late(host) ==> FellBehind(host, old(tick), tick, old(journal.Current()))
      ensures old(tick) <= tick
    {
      hide Recoverable, JournalAgrees, Closed, LedgerGuarded, OnceEach, Operations, J.Accepted, J.StatesOf;
      hide Guarded, ClockReached, ClockFell, Decided;
      var id := artifact.manifest.id;
      var begun := Enter(host, op, action, ArtifactTarget(artifact));
      if begun != Fresh {
        reply := AnswerRepeated(begun, id in disk.registry && id in disk.trees
                                       && disk.registry[id].manifest.version == artifact.manifest.version
                                       && disk.trees[id].marker == StagedTree(artifact).marker);
      } else {
        ghost var mid := tick;
        reply := PutArtifact(host, op, action, artifact);
        ReachedWider(host, old(tick), mid, tick, old(journal.Current()), op);
      }
      Decide(reply, Guarded(cfg, old(base), ArtifactChange(old(base).registry, op, action, artifact))
                    && MigrationsRunnable(cfg, ArtifactChange(old(base).registry, op, action, artifact)),
             host, old(tick), old(journal.Current()), op);
    }

    /** The checks of install and update on a fresh attempt, then the change itself. */
    method PutArtifact(host: Host, op: OperationId, action: Action, artifact: Artifact) returns (reply: Reply)
      requires Valid() && open == None && OnlyStarted(journal.Current(), op)
      requires artifact.signer != "" && (action == Install || action == Update)
      modifies this, journal
      ensures var c := ArtifactChange(old(base).registry, op, action, artifact);
              && Answered(reply, old(ledger), c) && !reply.Replayed? && !reply.Refused?
              && (reply.Applied? ==> Calm(host, old(tick), tick) && Guarded(cfg, old(base), c) && MigrationsRunnable(cfg, c))
              && (reply == Rejected ==>
                    !Calm(host, old(tick), tick) || !Guarded(cfg, old(base), c) || !MigrationsRunnable(cfg, c))
      ensures reply.Interrupted? ==> Excused(host, old(tick))
      ensures NoNewStarts(old(journal.Current()), journal.Current())
      ensures old(tick) <= tick
    {
      hide Recoverable, JournalAgrees, Closed, LedgerGuarded, OnceEach, Operations, J.Accepted, J.StatesOf;
      hide Guarded;
      HistoryIsClosed();
      NothingInFlight();
      var admitted := AdmitArtifact(op, action, artifact);
      if !admitted {
        reply := Reject(host, op);
        return;
      }
      var c := ArtifactChange(disk.registry, op, action, artifact);
      reply := PerformArtifact(host, artifact, c);
    }

    /** When a request that was not decided before is applied: exactly when it is admissible, the host
        lets every effect through and the clock is behind no attempt at the end; on a clock that does
        not run backward, exactly when it is behind none that was found. */
    ghost predicate Decided(reply: Reply, admissible: bool, host: Host, from: nat, before: J.States, id: OperationId)
      reads `tick, journal
    {
      && journal.Valid()
      && (reply.Applied? <==> admissible && Calm(host, from, tick) && !Late(host) && !RetryLate(host, id))
      && (Onward(host, from, tick) ==>
            (reply.Applied? <==>
               admissible && Calm(host, from, tick) && ClockAllows(host.clock(tick), before, id)))
    }

    lemma Decide(reply: Reply, admissible: bool, host: Host, from: nat, before: J.States, id: OperationId)
      requires Valid()
      requires reply.Applied? ==>
                 && Settled() && Closing(id, J.Succeeded) && admissible && Calm(host, from, tick)
                 && ClockReached(host, from, tick, before, id)
      requires reply == Rejected ==> !admissible || !Calm(host, from, tick)
      requires reply.Interrupted? ==> Excused(host, from) || (RetryLate(host, id) && ClockFell(host, from, tick, before, id))
      requires Late(host) ==> FellBehind(host, from, tick, before)
      ensures !reply.Replayed? && !reply.Refused? ==> Decided(reply, admissible, host, from, before, id)
    {
      hide Recoverable, JournalAgrees, Closed, LedgerGuarded, OnceEach, J.Accepted, J.StatesOf;
      hide ClockReached, ClockFell, FellBehind, ClockAllows, Onward;
      if Onward(host, from, tick) {
        ClockExactly(host, from, tick, before, id);
      }
    }

    /** Carry out an admitted enable, disable or uninstall on a fresh attempt and book it. */
    method PerformPlain(host: Host, c: Change) returns (reply: Reply)
      requires Valid() && open == None && OnlyStarted(journal.Current(), c.operation)
      requires c.action != Install && c.action != Update && Guarded(cfg, base, c)
      modifies this, journal
      ensures Answered(reply, old(ledger), c) && !reply.Replayed? && !reply.Refused?
      ensures reply.Interrupted? ==> Excused(host, old(tick))
      ensures reply.Applied? ==> Calm(host, old(tick), tick)
      ensures reply == Rejected ==> !Calm(host, old(tick), tick)
      ensures NoNewStarts(old(journal.Current()), journal.Current())
      ensures old(tick) <= tick
    {
      hide Recoverable, JournalAgrees, Closed, LedgerGuarded, OnceEach, J.Accepted, J.StatesOf;
      NotDoneYet(c.operation);
      NothingInFlight();
      var i := NewIntent(disk.registry, c, None, None);
      ghost var before, doneBefore := base, done;
      var r := Transact(host, i, c);
      Book(r, before, doneBefore, c);
      return ReplyTo(r, c.record);
    }

    method AdmitStatus(action: Action, id: PackageId) returns (ok: bool)
      requires id in disk.registry
      ensures ok <==> if action == Enable then
                        EnabledDependencies(cfg.vm, disk.registry, id)
                        && CapabilitiesMet(cfg.vm, Selected(disk.registry, Some(id), None))
                      else
                        RequiredDependents(disk.registry, id, true) == {}
                        && CapabilitiesMet(cfg.vm, Selected(disk.registry, None, Some(id)))
    {
      if action == Enable {
        if !EnabledDependencies(cfg.vm, disk.registry, id) {
          return false;
        }
        ok := ResolveCapabilities(cfg.vm, Selected(disk.registry, Some(id), None));
      } else {
        if RequiredDependents(disk.registry, id, true) != {} {
          return false;
        }
        ok := ResolveCapabilities(cfg.vm, Selected(disk.registry, None, Some(id)));
      }
    }

    method StateChange(host: Host, op: OperationId, action: Action, id: PackageId) returns (reply: Reply)
      requires Valid() && (action == Enable || action == Disable)
      modifies this, journal
      ensures var c := StatusChange(old(base).registry, op, action, id);
              && Answered(reply, old(ledger), c)
              && (Undecided(old(done), old(journal.Current()), op, action, "package/" + id) ==>
                    Decided(reply, Guarded(cfg, old(base), c), host, old(tick), old(journal.Current()), op))
      ensures reply == Replayed ==>
                id in disk.registry && disk.registry[id].status == if action == Enable then Enabled else Disabled
      ensures reply.Interrupted? ==> Excused(host, old(tick)) || RetryLate(host, op)
      ensures Late(host) ==> FellBehind(host, old(tick), tick, old(journal.Current()))
      ensures old(tick) <= tick
    {
      hide Recoverable, JournalAgrees, Closed, LedgerGuarded, OnceEach, Operations;
      hide Guarded, ClockReached, ClockFell, Decided;
      var begun := Enter(host, op, action, "package/" + id);
      if begun != Fresh {
        var expected := if action == Enable then Enabled else Disabled;
        reply := AnswerRepeated(begun, id in disk.registry && disk.registry[id].status == expected && MarkerValid(id));
      } else {
        ghost var mid := tick;
        reply := ChangeStatus(host, op, action, id);
        ReachedWider(host, old(tick), mid, tick, old(journal.Current()), op);
      }
      Decide(reply, Guarded(cfg, old(base), StatusChange(old(base).registry, op, action, id)),
             host, old(tick), old(journal.Current()), op);
    }

    /** The checks of enable and disable around the state validator, then the change itself. */
    method ChangeStatus(host: Host, op: OperationId, action: Action, id: PackageId) returns (reply: Reply)
      requires Valid() && open == None && OnlyStarted(journal.Current(), op)
      requires action == Enable || action == Disable
      modifies this, journal
      ensures Answered(reply, old(ledger), StatusChange(old(base).registry, op, action, id))
      ensures !reply.Replayed? && !reply.Refused?
      ensures reply.Interrupted? ==> Excused(host, old(tick))
      ensures var c := StatusChange(old(base).registry, op, action, id);
              && (reply.Applied? ==> Calm(host, old(tick), tick) && Guarded(cfg, old(base), c))
              && (reply == Rejected ==> !Calm(host, old(tick), tick) || !Guarded(cfg, old(base), c))
      ensures NoNewStarts(old(journal.Current()), journal.Current())
      ensures old(tick) <= tick
    {
      hide Recoverable, JournalAgrees, Closed, LedgerGuarded, OnceEach, Operations, J.Accepted, J.StatesOf, Fits, Checked, Agreeing;
      NothingInFlight();
      HistoryIsClosed();
      StatusFits(cfg, base, op, action, id);
      if id !in disk.registry || !MarkerValid(id) || (action == Disable && id in cfg.protectedIds) {
        reply := Reject(host, op);
        return;
      }
      var o := Effect(host);  // state_validator
      if o == Crashed {
        return Interrupted(Crashed);
      }
      if o == Raised {
        reply := Reject(host, op);
        return;
      }
      reply := PerformIfPermitted(host, StatusChange(disk.registry, op, action, id));
    }

    method PerformIfPermitted(host: Host, c: Change) returns (reply: Reply)
      requires Valid() && open == None && OnlyStarted(journal.Current(), c.operation)
      requires (c.action == Enable || c.action == Disable) && Fits(cfg, base, c)
      modifies this, journal
      ensures Answered(reply, old(ledger), c) && !reply.Replayed? && !reply.Refused?
      ensures reply.Interrupted? ==> Excused(host, old(tick))
      ensures reply.Applied? ==> Calm(host, old(tick), tick) && Guarded(cfg, old(base), c)
      ensures reply == Rejected ==> !Calm(host, old(tick), tick) || !Guarded(cfg, old(base), c)
      ensures NoNewStarts(old(journal.Current()), journal.Current())
      ensures old(tick) <= tick
    {
      hide Recoverable, JournalAgrees, Closed, LedgerGuarded, OnceEach, Operations;
      NothingInFlight();
      var admitted := AdmitStatus(c.action, c.packageId);
      if admitted {
        reply := PerformPlain(host, c);
      } else {
        reply := Reject(host, c.operation);
      }
    }

    method Uninstall(host: Host, op: OperationId, id: PackageId) returns (reply: Reply)
      requires Valid()
      modifies this, journal
      ensures var c := RemovalChange(op, id);
              && Answered(reply, old(ledger), c)
              && (Undecided(old(done), old(journal.Current()), op, Action.Uninstall, "package/" + id) ==>
                    Decided(reply, Guarded(cfg, old(base), c), host, old(tick), old(journal.Current()), op))
      ensures reply == Replayed ==> id !in disk.registry
      ensures reply.Interrupted? ==> Excused(host, old(tick)) || RetryLate(host, op)
      ensures Late(host) ==> FellBehind(host, old(tick), tick, old(journal.Current()))
      ensures old(tick) <= tick
    {
      hide Recoverable, JournalAgrees, Closed, LedgerGuarded, OnceEach, Operations;
      hide Guarded, ClockReached, ClockFell, Decided;
      var begun := Enter(host, op, Action.Uninstall, "package/" + id);
      if begun != Fresh {
        reply := AnswerRepeated(begun, id !in disk.registry);
      } else {
        ghost var mid := tick;
        reply := Remove(host, op, id);
        ReachedWider(host, old(tick), mid, tick, old(journal.Current()), op);
      }
      Decide(reply, Guarded(cfg, old(base), RemovalChange(op, id)), host, old(tick), old(journal.Current()), op);
    }

    /** The checks of uninstall around the state validator, then the removal itself. */
    method Remove(host: Host, op: OperationId, id: PackageId) returns (reply: Reply)
      requires Valid() && open == None && OnlyStarted(journal.Current(), op)
      modifies this, journal
      ensures Answered(reply, old(ledger), RemovalChange(op, id)) && !reply.Replayed? && !reply.Refused?
      ensures reply.Interrupted? ==> Excused(host, old(tick))
      ensures reply.Applied? ==> Calm(host, old(tick), tick) && Guarded(cfg, old(base), RemovalChange(op, id))
      ensures reply == Rejected ==> !Calm(host, old(tick), tick) || !Guarded(cfg, old(base), RemovalChange(op, id))
      ensures NoNewStarts(old(journal.Current()), journal.Current())
      ensures old(tick) <= tick
    {
      hide Recoverable, JournalAgrees, Closed, LedgerGuarded, OnceEach, Operations, J.Accepted, J.StatesOf, Guarded, Agreeing;
      NothingInFlight();
      HistoryIsClosed();
      RemovalGuarded(cfg, base, op, id);
      if id !in disk.registry || !MarkerValid(id) || id in cfg.protectedIds || disk.registry[id].status == Enabled {
        reply := Reject(host, op);
        return;
      }
      var o := Effect(host);  // state_validator
      if o == Crashed {
        return Interrupted(Crashed);
      }
      if o == Raised || RequiredDependents(disk.registry, id, false) != {} || id !in disk.trees {
        reply := Reject(host, op);
        return;
      }
      reply := ReleaseAndUninstall(host, RemovalChange(op, id));
    }

    /** The occupancy reset precedes the intent of an uninstall. */
    method ReleaseAndUninstall(host: Host, c: Change) returns (reply: Reply)
      requires Valid() && open == None && OnlyStarted(journal.Current(), c.operation)
      requires c.action.Uninstall? && Guarded(cfg, base, c)
      modifies this, journal
      ensures Answered(reply, old(ledger), c) && !reply.Replayed? && !reply.Refused?
      ensures reply.Interrupted? ==> Excused(host, old(tick))
      ensures reply.Applied? ==> Calm(host, old(tick), tick)
      ensures reply == Rejected ==> !Calm(host, old(tick), tick)
      ensures NoNewStarts(old(journal.Current()), journal.Current())
      ensures old(tick) <= tick
    {
      hide Recoverable, JournalAgrees, Closed, LedgerGuarded, OnceEach, Operations;
      hide Guarded, J.Accepted, J.StatesOf;
      var o := Effect(host);
      if o == Crashed {
        return Interrupted(Crashed);
      }
      if o == Raised {
        reply := Reject(host, c.operation);
        return;
      }
      reply := PerformPlain(host, c);
    }

    // -------------------------------------------------------------------------------------
    // Whole runs
    // -------------------------------------------------------------------------------------

    /** Serve one request; at most one change is committed, and it is the one requested. */
    method Serve(host: Host, q: Request) returns (reply: Reply)
      requires Valid() && WellFormed(q)
      modifies this, journal
      ensures Valid()
      ensures ledger == old(ledger) || ledger == old(ledger) + [Requested(old(base).registry, q)]
      ensures Settled() || Excused(host, old(tick)) || RetryLate(host, q.operation)
      ensures old(tick) <= tick
    {
      hide Recoverable, JournalAgrees, Closed, LedgerGuarded, OnceEach, Operations;
      hide Guarded;
      match q
      case InstallRequest(op, artifact) => reply := InstallOrUpdate(host, op, Install, artifact);
      case UpdateRequest(op, artifact) => reply := InstallOrUpdate(host, op, Update, artifact);
      case EnableRequest(op, id) => reply := StateChange(host, op, Enable, id);
      case DisableRequest(op, id) => reply := StateChange(host, op, Disable, id);
      case UninstallRequest(op, id) => reply := Uninstall(host, op, id);
    }

    /** Any requests, in any order, each against a host that may stop it anywhere. The committed
        changes are, in order, exactly what some of the requests asked for in the state they met;
        every registry on the way is closed, and one recovery at the end leaves exactly their replay
        unless its own host stops it or its clock is behind. */
    method AnyRun(hosts: seq<Host>, requests: seq<Request>, last: Host)
      returns (o: Outcome, ghost served: seq<nat>, ghost resumed: nat)
      requires Valid() && |hosts| == |requests|
      requires forall q :: q in requests ==> WellFormed(q)
      modifies this, journal
      ensures Valid() && old(ledger) <= ledger
      ensures Follows(initial, ledger, |old(ledger)|, requests, served)
      ensures Closed(cfg.vm, cfg.core, base.registry) && Agreeing(base)
      ensures o == Done ==> Settled() && Idle(disk, Replay(initial, ledger)) && intents == map[]
      ensures o == Done ==> forall id :: id in journal.Current() && IsPackageAction(journal.Current()[id].action) ==>
                journal.Current()[id].status == if id in Operations(ledger) then J.Succeeded else J.Failed
      ensures old(tick) <= resumed <= tick && (o == Done <==> Calm(last, resumed, tick) && !Late(last))
    {
      hide Recoverable, JournalAgrees, Closed, LedgerGuarded, OnceEach, Operations, Follows, Requested, Replay;
      served := [];
      FollowsNothing(initial, ledger, requests);
      for k := 0 to |requests|
        invariant Valid() && old(ledger) <= ledger && old(tick) <= tick
        invariant Follows(initial, ledger, |old(ledger)|, requests, served)
        invariant forall n :: n in served ==> n < k
      {
        assert requests[k] in requests;
        ghost var before := ledger;
        var reply := Serve(hosts[k], requests[k]);
        if ledger != before {
          FollowsNext(initial, before, |old(ledger)|, requests, served, k);
          served := served + [k];
        }
      }
      HistoryIsClosed();
      resumed := tick;
      o := Recover(last);
    }

    /** A stop right after a package attempt was begun, then a recovery on another host. When that
        host lets every effect through and its clock does not run backward, the recovery completes
        if and only if the clock reads no earlier than the start of the attempt; otherwise the
        attempt stays started, for the next recovery to try. */
    method StopAfterBegin(host: Host, id: OperationId, action: Action, target: string, later: Host)
      returns (b: Beginning, o: Outcome, ghost begun: nat)
      requires Valid()
      modifies this`tick, this`disk, this`intents, this`open, journal
      ensures Valid()
      ensures old(Settled()) && id !in old(journal.Current()) && host.fault(old(tick)) == NoFault ==> b == Fresh
      ensures old(tick) <= begun <= tick
      ensures b == Fresh && Calm(later, begun, tick) && Onward(later, begun, tick) ==>
                && (o == Done <==> host.clock(begun) <= later.clock(tick))
                && (o != Done ==> OnlyStarted(journal.Current(), id)
                                  && journal.Current()[id].startedAt == host.clock(begun))
    {
      hide Recoverable, JournalAgrees, LedgerGuarded, OnceEach, Operations, J.Accepted, J.StatesOf, Reached, Onward, ClosedOnly;
      b := Enter(host, id, action, target);
      begun := tick;
      ghost var found := journal.Current();
      o := Recover(later);
      if b == Fresh {
        OnlyOneLeft(later, begun, tick, found, journal.Current(), id);
      }
    }
  }

  /** The intent carries the change: its names, both registries and the artifact evidence. */
  predicate Intends(i: Intent, b: Base, c: Change) {
    && ShapedIntent(i)
    && i.operation == c.operation && i.action == c.action && i.packageId == c.packageId
    && i.before == b.registry && i.after == Apply(b, c).registry
    && (i.staged ==>
          && c.files.Put? && c.record.Some? && i.sha256.Some? && i.signer.Some?
          && c.files.tree.marker
             == Some(Marker(c.packageId, c.record.value.manifest.version, i.sha256.value, i.signer.value)))
  }

  /** Registry and package root are those after the change; the commit marker is still missing. */
  predicate Landed(d: Disk, b: Base, i: Intent, c: Change) {
    && d.registry == Apply(b, c).registry && d.trees == Apply(b, c).trees && d.stages == map[]
    && d.backups.Keys <= (if i.backedUp then {SlotOf(i)} else {})
  }

  /** The state right before files move: everything old in place, the new tree staged. */
  predicate ReadyToApply(d: Disk, b: Base, i: Intent, c: Change) {
    && d.registry == b.registry && d.trees == b.trees && d.backups == map[]
    && d.stages == if i.staged && c.files.Put? then map[SlotOf(i) := c.files.tree] else map[]
  }

  predicate MigrationsRunnable(cfg: Config, c: Change) {
    c.files.Put? && c.record.Some? && c.record.value.manifest.migrations ==> cfg.migrationApplier
  }

  lemma SameIntends(i: Intent, j: Intent, d: Disk, b: Base, c: Change)
    requires SameTransaction(i, j) && Intends(i, b, c)
    ensures i.operation == j.operation && Intends(j, b, c)
    ensures Landed(d, b, i, c) <==> Landed(d, b, j, c)
  {
  }

  lemma LandedCommits(cfg: Config, d: Disk, b: Base, i: Intent, c: Change)
    requires Intends(i, b, c) && Fits(cfg, b, c) && Landed(d, b, i, c)
    ensures PostCommit(d, Apply(b, c), i)
  {
  }

  lemma CommitAgrees(states: J.States, done: set<OperationId>, i: Intent)
    requires JournalAgrees(states, done, Some(i)) && i.phase == RegistryApplied
    ensures JournalAgrees(states, done + {i.operation}, Some(i.(phase := Committed)))
  {
  }

  lemma ClosedAgrees(states: J.States, done: set<OperationId>, i: Intent)
    requires JournalAgrees(states, done, Some(i))
    requires i.phase == RolledBack || (i.phase == Committed && states[i.operation].status == J.Succeeded)
    ensures JournalAgrees(states, done, None)
  {
  }

  lemma OnlyOneClosed(before: J.States, after: J.States, id: OperationId)
    requires OnlyStarted(before, id) && OthersUnchanged(before, after, id)
    ensures NoNewStarts(before, after)
    ensures id in after && after[id].status != J.Started ==> NoneStarted(after)
  {
  }

  /** Failing a started attempt that has no committed intent keeps journal and ledger in agreement. */
  lemma FailureAgrees(states: J.States, done: set<OperationId>, open: Option<Intent>, id: OperationId)
    requires JournalAgrees(states, done, open) && id in states && states[id].status == J.Started
    requires IsPackageAction(states[id].action)
    requires open == None || (open.value.operation == id && open.value.phase == RolledBack)
    ensures forall failed: J.State {:trigger states[id := failed]} ::
              failed.status == J.Failed && failed.action == states[id].action ==> JournalAgrees(states[id := failed], done, open)
  {
  }

  /** So does recording the success of the committed transaction. */
  lemma SuccessAgrees(states: J.States, done: set<OperationId>, open: Option<Intent>, id: OperationId)
    requires JournalAgrees(states, done, open) && CommittedOpen(open, id)
    ensures id in states && IsPackageAction(states[id].action)
    ensures states[id].status == J.Started || states[id].status == J.Succeeded
    ensures forall succeeded: J.State {:trigger states[id := succeeded]} ::
              succeeded.status == J.Succeeded && succeeded.action == states[id].action ==>
                JournalAgrees(states[id := succeeded], done, open)
  {
  }

  /** The only started package attempt is `id`. */
  ghost predicate OnlyStarted(states: J.States, id: OperationId) {
    && id in states && IsPackageAction(states[id].action) && states[id].status == J.Started
    && forall other :: other in states && IsPackageAction(states[other].action) && other != id ==>
         states[other].status != J.Started
  }

  lemma StartedAttemptAgrees(states: J.States, done: set<OperationId>, id: OperationId, state: J.State)
    requires JournalAgrees(states, done, None) && NoneStarted(states)
    requires state.status == J.Started && IsPackageAction(state.action)
    requires id in states ==> states[id].status == J.Failed
    ensures JournalAgrees(states[id := state], done, None)
    ensures OnlyStarted(states[id := state], id)
  {
  }

  /** Only this operation changed, and it was not started anew. */
  ghost predicate OthersUnchanged(before: J.States, after: J.States, id: OperationId) {
    && (forall other :: other in after <==> other in before)
    && (forall other :: other in after && other != id ==> after[other] == before[other])
    && (id in after && after[id].status == J.Started ==> id in before && after[id] == before[id])
  }

  /** A started package attempt whose start lies ahead of the clock. */
  ghost predicate Behind(now: int, states: J.States) {
    exists id :: id in states && states[id].status == J.Started && IsPackageAction(states[id].action)
                 && now < states[id].startedAt
  }

  /** Every package attempt that is started now was started, in the same way, before. */
  ghost predicate NoNewStarts(before: J.States, after: J.States) {
    forall id :: id in after && after[id].status == J.Started && IsPackageAction(after[id].action) ==>
      id in before && after[id] == before[id]
  }

  /** A started attempt was closed at this time, and was not closed before its start. */
  predicate ClosedAt(was: J.State, now: J.State, time: int) {
    && was.status == J.Started && was.startedAt <= time && now.status != J.Started
    && now == was.(status := now.status, finishedAt := Some(time), errorCode := now.errorCode,
                   lastSequence := now.lastSequence)
  }

  /** Attempts are as before, or were closed at a reading of the clock in this stretch. */
  ghost predicate ClosedOnly(host: Host, from: nat, to: nat, before: J.States, after: J.States) {
    && after.Keys == before.Keys
    && forall id :: id in before ==>
         after[id] == before[id] || exists n :: from < n <= to && ClosedAt(before[id], after[id], host.clock(n))
  }

  /** Every package attempt found started can be closed at some reading of the clock in this stretch. */
  ghost predicate Reached(host: Host, from: nat, to: nat, before: J.States) {
    forall id :: id in before && before[id].status == J.Started && IsPackageAction(before[id].action) ==>
      exists n :: from < n <= to && before[id].startedAt <= host.clock(n)
  }

  /** The clock does not run backward in this stretch. */
  ghost predicate Onward(host: Host, from: nat, to: nat) {
    forall n, m :: from <= n <= m <= to ==> host.clock(n) <= host.clock(m)
  }

  lemma ClosedNothing(host: Host, tick: nat, states: J.States)
    ensures ClosedOnly(host, tick, tick, states, states)
  {
  }

  lemma ClosedWider(host: Host, sooner: nat, from: nat, to: nat, later: nat, before: J.States, after: J.States)
    requires ClosedOnly(host, from, to, before, after) && sooner <= from && to <= later
    ensures ClosedOnly(host, sooner, later, before, after)
  {
  }

  lemma ClosedChain(host: Host, from: nat, mid: nat, to: nat, a: J.States, b: J.States, c: J.States)
    requires ClosedOnly(host, from, mid, a, b) && ClosedOnly(host, mid, to, b, c) && from <= mid <= to
    ensures ClosedOnly(host, from, to, a, c)
  {
  }

  lemma ClosedStartsNothing(host: Host, from: nat, to: nat, before: J.States, after: J.States)
    requires ClosedOnly(host, from, to, before, after)
    ensures NoNewStarts(before, after) && after.Keys == before.Keys
  {
  }

  lemma OnlyOneLeft(host: Host, from: nat, to: nat, before: J.States, after: J.States, id: OperationId)
    requires ClosedOnly(host, from, to, before, after) && OnlyStarted(before, id)
    ensures Behind(host.clock(to), before) <==> host.clock(to) < before[id].startedAt
    ensures Behind(host.clock(to), after) ==> OnlyStarted(after, id) && after[id] == before[id]
  {
    ClosedStartsNothing(host, from, to, before, after);
  }

  /** When some started attempt is left, the clock is behind one; when none is left, it reached all. */
  lemma LateExactly(host: Host, from: nat, to: nat, before: J.States, after: J.States)
    requires ClosedOnly(host, from, to, before, after) && from <= to
    ensures NoneStarted(after) ==> Reached(host, from, to, before) && !Behind(host.clock(to), after)
    ensures Behind(host.clock(to), after) ==> Behind(host.clock(to), before)
    ensures Onward(host, from, to) && Reached(host, from, to, before) ==> !Behind(host.clock(to), before)
  {
    ClosedStartsNothing(host, from, to, before, after);
  }

  lemma PendingBegins(host: Host, tick: nat, states: J.States, pending: set<OperationId>, seen: set<OperationId>)
    requires forall id :: id in pending <==> id in states && states[id].status == J.Started
    requires forall id :: id in seen && id in states ==> states[id].status != J.Started
    ensures StartedAmong(states, pending, seen) && ClosedOnly(host, tick, tick, states, states)
  {
  }

  lemma PendingStep(before: J.States, turn: J.States, after: J.States, id: OperationId, pending: set<OperationId>,
                    seen: set<OperationId>)
    requires StartedAmong(turn, pending, seen) && OthersUnchanged(turn, after, id)
    ensures after.Keys == turn.Keys
    ensures (id in after && IsPackageAction(after[id].action) && id !in seen ==> after[id].status != J.Started) ==>
              StartedAmong(after, pending - {id}, seen)
    ensures NoneStarted(before) && id in before && before[id].status == J.Started ==> !IsPackageAction(before[id].action)
  {
  }

  lemma PendingEnds(after: J.States, seen: set<OperationId>)
    requires StartedAmong(after, {}, seen)
    ensures NoneStarted(after)
  {
  }

  /** The clock reads earlier than the last failure of this attempt. */
  predicate RetryBehind(now: int, states: J.States, id: OperationId) {
    && id in states && states[id].status == J.Failed
    && states[id].finishedAt.Some? && now < states[id].finishedAt.value
  }

  /** The id is new, or was used for the same action on the same target. */
  predicate Matches(states: J.States, id: OperationId, action: string, target: string) {
    id in states ==> states[id].action == action && states[id].target == target
  }

  function ArtifactTarget(artifact: Artifact): string {
    "package/" + artifact.manifest.id + "/" + artifact.sha256
  }

  /** The operation has not been committed, and its id is not used for anything else. */
  predicate Undecided(done: set<OperationId>, states: J.States, id: OperationId, action: Action, target: string) {
    id !in done && Matches(states, id, ActionName(action), target)
  }

  /** At this reading the journal lets every started package attempt be closed, and this one, when it
      has failed, be retried. A caller can check it before the call. */
  ghost predicate ClockAllows(now: int, states: J.States, id: OperationId) {
    !Behind(now, states) && !RetryBehind(now, states, id)
  }

  /** The same with some reading of the stretch for each attempt. */
  ghost predicate ClockReached(host: Host, from: nat, to: nat, before: J.States, id: OperationId) {
    && Reached(host, from, to, before)
    && (id in before && before[id].status == J.Failed && before[id].finishedAt.Some? ==>
          exists n :: from < n <= to && before[id].finishedAt.value <= host.clock(n))
  }

  /** The last reading is behind what was found, or behind an earlier reading. */
  ghost predicate ClockFell(host: Host, from: nat, to: nat, before: J.States, id: OperationId) {
    !ClockAllows(host.clock(to), before, id) || exists n :: from <= n <= to && host.clock(to) < host.clock(n)
  }

  lemma BegunReached(host: Host, from: nat, mid: nat, to: nat, before: J.States, settled: J.States, id: OperationId)
    requires ClosedOnly(host, from, mid, before, settled) && Reached(host, from, mid, before)
    requires from <= mid < to && !RetryBehind(host.clock(to), settled, id)
    ensures ClockReached(host, from, to, before, id)
  {
  }

  lemma StillMatches(host: Host, from: nat, to: nat, before: J.States, after: J.States, id: OperationId)
    requires ClosedOnly(host, from, to, before, after)
    ensures forall action, target :: Matches(before, id, action, target) <==> Matches(after, id, action, target)
  {
  }

  lemma RetryFell(host: Host, from: nat, mid: nat, to: nat, before: J.States, settled: J.States, id: OperationId)
    requires ClosedOnly(host, from, mid, before, settled) && from <= mid <= to
    requires RetryBehind(host.clock(to), settled, id)
    ensures ClockFell(host, from, to, before, id)
  {
  }

  lemma ReachedWider(host: Host, from: nat, to: nat, later: nat, before: J.States, id: OperationId)
    requires ClockReached(host, from, to, before, id) && to <= later
    ensures ClockReached(host, from, later, before, id)
  {
  }

  /** On a clock that does not run backward the last reading decides. */
  lemma ClockExactly(host: Host, from: nat, to: nat, before: J.States, id: OperationId)
    requires Onward(host, from, to)
    ensures ClockReached(host, from, to, before, id) ==> ClockAllows(host.clock(to), before, id)
    ensures ClockFell(host, from, to, before, id) ==> !ClockAllows(host.clock(to), before, id)
    ensures FellBehind(host, from, to, before) ==> !ClockAllows(host.clock(to), before, id)
  {
  }

  /** At the end of a call the clock was behind an attempt found started, or behind itself. */
  ghost predicate FellBehind(host: Host, from: nat, to: nat, before: J.States) {
    Behind(host.clock(to), before) || exists n :: from <= n <= to && host.clock(to) < host.clock(n)
  }

  ghost predicate StartedAmong(states: J.States, pending: set<OperationId>, seen: set<OperationId>) {
    forall id :: id in states && states[id].status == J.Started && IsPackageAction(states[id].action) ==>
      id in pending && id !in seen
  }

  /** What installing or updating with this artifact changes. */
  function ArtifactChange(reg: Registry, op: OperationId, action: Action, artifact: Artifact): Change {
    var id := artifact.manifest.id;
    Change(op, action, id,
           Some(PackageRecord(artifact.manifest, if id in reg then reg[id].status else Installed)),
           Put(StagedTree(artifact)))
  }

  /** What enabling or disabling changes; for an unknown package there is no record to keep. */
  function StatusChange(reg: Registry, op: OperationId, action: Action, id: PackageId): Change {
    Change(op, action, id,
           if id in reg then Some(reg[id].(status := if action == Enable then Enabled else Disabled)) else None,
           Keep)
  }

  function RemovalChange(op: OperationId, id: PackageId): Change {
    Change(op, Uninstall, id, None, Drop)
  }

  function NewIntent(reg: Registry, c: Change, sha256: Option<string>, signer: Option<string>): Intent {
    Intent(c.operation, c.action, c.packageId, Prepared, reg, Apply(Base(reg, map[]), c).registry, sha256, signer,
           c.action == Install || c.action == Update, c.action == Update || c.action == Uninstall)
  }

  function ReplyTo(r: Execution, record: Option<PackageRecord>): Reply {
    match r
    case Finished => Applied(record)
    case Undone => Rejected
    case Stopped(outcome) => Interrupted(outcome)
  }

  /** The answer to an operation that did not get a fresh attempt: a succeeded one is replayed if
      the package is still as it left it. */
  function AnswerRepeated(b: Beginning, intact: bool): Reply
    requires b != Fresh
  {
    match b
    case AlreadyDone => if intact then Replayed else Refused
    case Conflicting => Refused
    case Halted(outcome) => Interrupted(outcome)
  }

  /** When an uninstall is guarded, in a state where registry and package root agree. */
  lemma RemovalGuarded(cfg: Config, b: Base, op: OperationId, id: PackageId)
    requires Agreeing(b)
    ensures Guarded(cfg, b, RemovalChange(op, id)) <==>
            && id in b.registry && id !in cfg.protectedIds && b.registry[id].status != Enabled
            && RequiredDependents(b.registry, id, false) == {}
    ensures id in b.registry ==> id in b.trees && MarkerMatches(b.trees[id], id, b.registry[id].manifest.version)
  {
  }

  /** When enable or disable fits, before its dependency checks. */
  lemma StatusFits(cfg: Config, b: Base, op: OperationId, action: Action, id: PackageId)
    requires Agreeing(b) && (action == Enable || action == Disable)
    ensures Fits(cfg, b, StatusChange(b.registry, op, action, id)) <==>
            id in b.registry && (action == Disable ==> id !in cfg.protectedIds)
    ensures id in b.registry ==> id in b.trees && MarkerMatches(b.trees[id], id, b.registry[id].manifest.version)
  {
  }

  lemma OperationsAppend(ledger: Ledger, c: Change)
    requires OnceEach(ledger) && c.operation !in Operations(ledger)
    ensures Operations(ledger + [c]) == Operations(ledger) + {c.operation}
    ensures OnceEach(ledger + [c])
  {
    forall k | 0 <= k < |ledger| ensures ledger[k].operation in Operations(ledger) {
      assert ledger[k] in ledger;
    }
    assert c in ledger + [c];
    forall op | op in Operations(ledger) ensures op in Operations(ledger + [c]) {
      var d :| d in ledger && d.operation == op;
      assert d in ledger + [c];
    }
  }

  /** A verified artifact always names its signing key. */
  predicate WellFormed(q: Request) {
    q.InstallRequest? || q.UpdateRequest? ==> q.artifact.signer != ""
  }

  function Requested(reg: Registry, q: Request): Change {
    match q
    case InstallRequest(op, artifact) => ArtifactChange(reg, op, Install, artifact)
    case UpdateRequest(op, artifact) => ArtifactChange(reg, op, Update, artifact)
    case EnableRequest(op, id) => StatusChange(reg, op, Enable, id)
    case DisableRequest(op, id) => StatusChange(reg, op, Disable, id)
    case UninstallRequest(op, id) => RemovalChange(op, id)
  }

  /** From position `from` on, the ledger holds the changes of the served requests, in order, each
      as requested in the registry it was applied to. */
  predicate Follows(initial: Base, ledger: Ledger, from: nat, requests: seq<Request>, served: seq<nat>) {
    && from + |served| == |ledger|
    && (forall n, m :: 0 <= n < m < |served| ==> served[n] < served[m])
    && (forall n :: 0 <= n < |served| ==>
          && served[n] < |requests|
          && ledger[from + n] == Requested(Replay(initial, ledger[..from + n]).registry, requests[served[n]]))
  }

  lemma FollowsNothing(initial: Base, ledger: Ledger, requests: seq<Request>)
    ensures Follows(initial, ledger, |ledger|, requests, [])
  {
  }

  lemma FollowsNext(initial: Base, ledger: Ledger, from: nat, requests: seq<Request>, served: seq<nat>, k: nat)
    requires Follows(initial, ledger, from, requests, served) && k < |requests|
    requires forall n :: n in served ==> n < k
    ensures Follows(initial, ledger + [Requested(Replay(initial, ledger).registry, requests[k])], from, requests, served + [k])
  {
    hide Requested, Replay;
    var longer := ledger + [Requested(Replay(initial, ledger).registry, requests[k])];
    assert longer[..|ledger|] == ledger;
    var more := served + [k];
    forall n | 0 <= n < |more|
      ensures more[n] < |requests|
              && longer[from + n] == Requested(Replay(initial, longer[..from + n]).registry, requests[more[n]])
    {
      if n < |served| {
        assert longer[..from + n] == ledger[..from + n];
      }
    }
    forall n, m | 0 <= n < m < |more| ensures more[n] < more[m] {
      assert served[n] in served;
    }
  }
}

/** The two-rename restore protocol (src/plaik_core/backup.py). The data directory is swapped
    through `previous` and `staging`; a signed intent and a marker that travels inside the staged
    tree tell reconciliation what happened. Archives are already verified, trees are values. */
module Restores {
  import opened Prelude

  /** `mkdtemp` and `uuid4` never return a name in use; names are drawn from a counter. */
  type Name = nat

  datatype Content = Whole(id: nat) | TornContent

  datatype Evidence = Evidence(
    operation: string, actor: string, installation: string, archive: string, manifest: string)

  datatype Marker = Marker(operation: string, archive: string, manifest: string)

  datatype Tree = Tree(content: Content, marker: Option<Marker>)

  datatype Phase = Prepared | PreviousMoved | Committed | Finalized | Aborted

  datatype Intent = Intent(evidence: Evidence, staging: Name, previous: Name, phase: Phase)

  /** How a call ends: the restore is complete, it failed, recovery evidence is pending, or the
      process stopped. */
  datatype Reply = Restored | Failed | RecoveryPending | Died

  function MarkerOf(e: Evidence): Marker {
    Marker(e.operation, e.archive, e.manifest)
  }

  function ContentOf(t: Option<Tree>): Option<Content> {
    if t.Some? then Some(t.value.content) else None
  }

  predicate Carries(t: Option<Tree>, e: Evidence) {
    t.Some? && t.value.marker == Some(MarkerOf(e))
  }

  predicate Unfinished(i: Intent) {
    i.phase == Prepared || i.phase == PreviousMoved
  }

  predicate InFlight(intent: Option<Intent>) {
    intent.Some? && (Unfinished(intent.value) || intent.value.phase == Committed)
  }

  class PlatformBackupManager {
    var data: Option<Tree>
    var siblings: map<Name, Tree>
    var intent: Option<Intent>
    var nonce: Name
    var tick: nat

    /** What the data directory has held for its users, oldest first: extended by their own writes
        and by the one commit point, by nothing else. */
    ghost var lives: seq<Option<Content>>
    /** The tree found and the tree staged by the restore the intent belongs to. */
    ghost var origin: Option<Tree>
    ghost var replacement: Tree

    ghost function Live(): Option<Content>
      reads `data, `siblings, `intent, `nonce, `lives, `origin, `replacement
    {
      if lives == [] then None else lives[|lives| - 1]
    }

    ghost predicate OldInPlace(i: Intent)
      reads `data, `siblings, `intent, `nonce, `lives, `origin, `replacement
    {
      data == origin && i.previous !in siblings && Live() == ContentOf(origin)
    }

    ghost predicate OldMoved(i: Intent)
      reads `data, `siblings, `intent, `nonce, `lives, `origin, `replacement
    {
      && data == None && origin.Some? && Live() == ContentOf(origin)
      && i.previous in siblings && siblings[i.previous] == origin.value
    }

    ghost predicate NewInPlace(i: Intent)
      reads `data, `siblings, `intent, `nonce, `lives, `origin, `replacement
    {
      && data == Some(replacement) && Live() == Some(replacement.content) && i.staging !in siblings
      && |lives| >= 2 && lives[|lives| - 2] == ContentOf(origin)
      && (if origin.Some? then i.previous in siblings && siblings[i.previous] == origin.value
          else i.previous !in siblings)
    }

    ghost predicate Named()
      reads `data, `siblings, `intent, `nonce, `lives, `origin, `replacement
    {
      && lives != [] && (forall n :: n in siblings ==> n < nonce)
      && (intent.Some? ==> KnownNames(intent.value))
    }

    ghost predicate KnownNames(i: Intent)
      reads `data, `siblings, `intent, `nonce, `lives, `origin, `replacement
    {
      i.staging < nonce && i.previous < nonce && i.staging != i.previous
    }

    /** The old tree is whole in place or at `previous`, or the whole new tree is in place. A
        committed intent may also stand over an old tree that already carried its marker. */
    ghost predicate Valid()
      reads `data, `siblings, `intent, `nonce, `lives, `origin, `replacement
    {
      Named() &&
      match intent
      case None => ContentOf(data) == Live()
      case Some(i) =>
        match i.phase
        case Prepared => Staged(i) && (OldInPlace(i) || OldMoved(i) || NewInPlace(i))
        case PreviousMoved => Staged(i) && (OldInPlace(i) || OldMoved(i) || NewInPlace(i))
        case Committed => Staged(i) && (NewInPlace(i) || (OldInPlace(i) && Carries(origin, i.evidence)))
        case Finalized => ContentOf(data) == Live()
        case Aborted => ContentOf(data) == Live() && i.previous !in siblings
    }

    ghost predicate Staged(i: Intent)
      reads `data, `siblings, `intent, `nonce, `lives, `origin, `replacement
    {
      replacement.content.Whole? && replacement.marker == Some(MarkerOf(i.evidence))
    }

    /** Until a finalized intent is durable, the tree that was live before the restore exists intact
        in place or at `previous`. */
    ghost predicate OldTreeSafe()
      reads `data, `siblings, `intent, `nonce, `lives, `origin, `replacement
    {
      InFlight(intent) ==>
        && (|| ContentOf(origin) == Live()
            || (|lives| >= 2 && Live() == Some(replacement.content) && ContentOf(origin) == lives[|lives| - 2]))
        && (origin.Some? ==>
              data == origin || (intent.value.previous in siblings && siblings[intent.value.previous] == origin.value))
    }

    lemma ValidIsSafe()
      requires Valid()
      ensures OldTreeSafe()
      ensures intent.Some? && intent.value.phase == Committed ==> Carries(data, intent.value.evidence)
    {
    }

    constructor (data: Option<Tree>)
      ensures Valid() && intent == None && this.data == data && lives == [ContentOf(data)]
    {
      this.data, siblings, intent, nonce, tick := data, map[], None, 0, 0;
      lives, origin, replacement := [ContentOf(data)], None, Tree(TornContent, None);
    }

    /** The platform changes its own data; it does so only while no restore is in flight. */
    method UseData(t: Option<Tree>)
      requires Valid() && !InFlight(intent)
      modifies this`data, this`lives
      ensures Valid() && data == t && lives == old(lives) + [ContentOf(t)]
    {
      data := t;
      lives := lives + [ContentOf(t)];
    }

    /** Ask the host about one effect. */
    method Effect(host: Host) returns (o: Outcome)
      modifies this`tick
      ensures tick == old(tick) + 1
      ensures o == match host.fault(old(tick))
                   case NoFault => Done
                   case Raise => Raised
                   case Crash => Crashed
    {
      var f := host.fault(tick);
      tick := tick + 1;
      return match f
             case NoFault => Done
             case Raise => Raised
             case Crash => Crashed;
    }

    /** `_cleanup_path`: errors are swallowed, and a removal may stop half way. */
    method CleanupPath(host: Host, name: Name) returns (alive: bool)
      modifies this`tick, this`siblings
      ensures siblings.Keys <= old(siblings).Keys
      ensures forall n :: n in old(siblings) && n != name ==> n in siblings && siblings[n] == old(siblings)[n]
      ensures Calm(host, old(tick), tick) ==> alive && name !in siblings
      ensures name !in old(siblings) ==> alive && Calm(host, old(tick), tick)
      ensures alive <==> Survived(host, old(tick), tick)
      ensures old(tick) <= tick
    {
      if name !in siblings {
        return true;
      }
      var o := Effect(host);
      if o != Done {
        return o != Crashed;
      }
      siblings := siblings[name := siblings[name].(content := TornContent)];
      o := Effect(host);
      if o == Done {
        siblings := siblings - {name};
      }
      return o != Crashed;
    }

    /** `_cleanup_restore_marker`: also best effort. */
    method CleanupMarker(host: Host) returns (alive: bool)
      modifies this`tick, this`data
      ensures data == old(data) || (data.Some? && old(data).Some? && data.value == old(data).value.(marker := None))
      ensures Calm(host, old(tick), tick) ==> alive && (data.Some? ==> data.value.marker == None)
      ensures alive <==> Survived(host, old(tick), tick)
      ensures old(tick) <= tick
    {
      if data.None? || data.value.marker.None? {
        return true;
      }
      var o := Effect(host);
      if o == Done {
        data := Some(data.value.(marker := None));
      }
      return o != Crashed;
    }

    /** Replace the intent by one the state supports. */
    method WriteIntent(host: Host, i: Intent) returns (o: Outcome)
      modifies this`tick, this`intent
      ensures intent == if o == Done then Some(i) else old(intent)
      ensures o == Done <==> Calm(host, old(tick), tick)
      ensures tick == old(tick) + 1
    {
      o := Effect(host);
      if o == Done {
        intent := Some(i);
      }
    }

    // -------------------------------------------------------------------------------------
    // Reconciliation
    // -------------------------------------------------------------------------------------

    /** Tidy up behind a finalized or aborted restore. */
    method CleanupSettled(host: Host, i: Intent) returns (alive: bool)
      requires Valid() && intent == Some(i) && (i.phase == Finalized || i.phase == Aborted)
      modifies this`tick, this`siblings, this`data
      ensures Valid() && siblings.Keys <= old(siblings).Keys && ContentOf(data) == ContentOf(old(data))
      ensures data == old(data) || (data.Some? && data.value.marker == None)
      ensures Calm(host, old(tick), tick) ==>
                && alive && i.staging !in siblings && i.previous !in siblings
                && (data.Some? ==> data.value.marker == None)
      ensures alive <==> Survived(host, old(tick), tick)
      ensures old(tick) <= tick
    {
      alive := CleanupPath(host, i.staging);
      if !alive {
        return;
      }
      alive := CleanupPath(host, i.previous);
      if !alive {
        return;
      }
      alive := CleanupMarker(host);
    }

    /** The branch for an intent whose marker is in place: the rename happened, say so. */
    method AcknowledgeCommit(host: Host, i: Intent) returns (o: Outcome)
      requires Valid() && intent == Some(i) && Unfinished(i) && Carries(data, i.evidence)
      modifies this`tick, this`intent
      ensures Valid()
      ensures intent == Some(if o == Done then i.(phase := Committed) else i)
      ensures o == Done <==> Calm(host, old(tick), tick)
      ensures old(tick) <= tick
    {
      o := WriteIntent(host, i.(phase := Committed));
    }

    /** The branches for an unfinished intent without its marker in place: undo, or fail closed. */
    method AbortUnfinished(host: Host, i: Intent) returns (reply: Reply)
      requires Valid() && intent == Some(i) && Unfinished(i) && !Carries(data, i.evidence)
      modifies this`tick, this`intent, this`siblings, this`data
      ensures Valid() && siblings.Keys <= old(siblings).Keys
      ensures reply == Restored ==> intent == Some(i.(phase := Aborted)) && data == origin && i.previous !in siblings
      ensures reply != Restored ==> intent == Some(i)
      ensures data == old(data) || (old(data) == None && data == origin)
      ensures Calm(host, old(tick), tick) ==>
                (reply == Restored <==> if old(data).Some? then i.staging in old(siblings)
                                        else i.previous in old(siblings))
      ensures Calm(host, old(tick), tick) && reply != Restored ==> reply == RecoveryPending && data == old(data)
      ensures Stuck(i, old(data), old(siblings)) ==>
                reply == RecoveryPending && data == old(data) && siblings == old(siblings) && tick == old(tick)
      ensures old(tick) <= tick
    {
      if data.Some? && i.staging !in siblings {
        return RecoveryPending;  // restore commit state is uncertain
      }
      if data.None? && i.previous in siblings {
        var o := Effect(host);
        if o != Done {
          return Interruption(o);
        }
        data := Some(siblings[i.previous]);
        siblings := siblings - {i.previous};
      }
      if data.None? {
        return RecoveryPending;  // restore reconciliation cannot locate data
      }
      var alive := CleanupPath(host, i.staging);
      if !alive {
        return Died;
      }
      var o := WriteIntent(host, i.(phase := Aborted));
      return if o == Done then Restored else Interruption(o);
    }

    /** `_reconcile_intent`. `Restored` here means the intent on disk is settled or committed. */
    method ReconcileIntent(host: Host, i: Intent) returns (reply: Reply)
      requires Valid() && intent == Some(i)
      modifies this`tick, this`intent, this`siblings, this`data
      ensures Valid() && siblings.Keys <= old(siblings).Keys && OldTreeSafe()
      ensures Reconciled(i, intent)
      ensures reply == Restored ==> !Unfinished(intent.value)
      ensures reply == Restored && Unfinished(i) ==>
                if Carries(old(data), i.evidence) then intent.value.phase == Committed && data == old(data)
                else intent.value.phase == Aborted && data == origin
      ensures InFlight(Some(i)) ==> data == old(data) || (old(data) == None && data == origin)
      ensures InFlight(Some(i)) && Carries(old(data), i.evidence) ==>
                && data == old(data) && siblings == old(siblings)
                && (intent == Some(i) || intent == Some(i.(phase := Committed)))
      ensures !InFlight(Some(i)) ==>
                ContentOf(data) == ContentOf(old(data)) && (data == old(data) || (data.Some? && data.value.marker == None))
      ensures i.phase == Committed ==> data == old(data) && siblings == old(siblings) && reply == Restored
      ensures Calm(host, old(tick), tick) ==> (reply == RecoveryPending <==> Stuck(i, old(data), old(siblings)))
      ensures Calm(host, old(tick), tick) ==> reply == Restored || reply == RecoveryPending
      ensures reply == RecoveryPending ==> intent == Some(i)
      ensures Calm(host, old(tick), tick) && reply == RecoveryPending ==> data == old(data)
      ensures Stuck(i, old(data), old(siblings)) ==>
                reply == RecoveryPending && data == old(data) && siblings == old(siblings)
      ensures old(tick) <= tick
    {
      if i.phase == Finalized || i.phase == Aborted {
        var alive := CleanupSettled(host, i);
        return if alive then Restored else Died;
      }
      if i.phase == Committed {
        if data.None? || !Carries(data, i.evidence) {
          assert false;  // committed restore data or marker missing
        }
        return Restored;
      }
      if Carries(data, i.evidence) {
        var o := AcknowledgeCommit(host, i);
        return if o == Done then Restored else Interruption(o);
      }
      reply := AbortUnfinished(host, i);
    }

    /** `reconcile_restore`. It never moves the commit point, so what users see stays the same. */
    method ReconcileRestore(host: Host) returns (reply: Reply)
      requires Valid()
      modifies this`tick, this`intent, this`siblings, this`data
      ensures Valid() && OldTreeSafe()
      ensures old(intent) == None ==> reply == Restored && intent == None && data == old(data)
      ensures old(intent).Some? ==> intent.Some? && Reconciled(old(intent).value, intent)
      ensures reply == Restored && old(intent).Some? && Unfinished(old(intent).value) ==>
                && !Unfinished(intent.value)
                && (intent.value.phase == Committed <==> Carries(old(data), intent.value.evidence))
                && (intent.value.phase == Aborted ==> data == origin)
                && (!Carries(origin, intent.value.evidence) ==>
                      (intent.value.phase == Committed <==> old(data) == Some(replacement)))
      ensures Calm(host, old(tick), tick) ==>
                (reply == Restored <==>
                   (old(intent).Some? ==> !Stuck(old(intent).value, old(data), old(siblings))))
      ensures Calm(host, old(tick), tick) && reply != Restored ==>
                intent == old(intent) && data == old(data) && siblings.Keys <= old(siblings).Keys
      ensures StuckIn(old(intent), old(data), old(siblings)) ==>
                reply == RecoveryPending && intent == old(intent) && data == old(data) && siblings == old(siblings)
      ensures old(tick) <= tick
    {
      if intent.None? {
        return Restored;
      }
      reply := ReconcileIntent(host, intent.value);
    }

    // -------------------------------------------------------------------------------------
    // Restore
    // -------------------------------------------------------------------------------------

    /** One step of staging. */
    method Fill(host: Host, staging: Name, tree: Tree) returns (o: Outcome)
      requires Valid() && !InFlight(intent) && staging < nonce
      requires intent.Some? ==> staging != intent.value.previous
      modifies this`tick, this`siblings
      ensures Valid() && tick == old(tick) + 1 && (o == Done <==> host.fault(old(tick)) == NoFault)
      ensures siblings == if o == Done then old(siblings)[staging := tree] else old(siblings)
    {
      o := Effect(host);
      if o == Done {
        siblings := siblings[staging := tree];
      }
    }

    /** Extract into a new staging directory, write the marker, validate. */
    method Stage(host: Host, staging: Name, tree: Tree) returns (o: Outcome)
      requires Valid() && !InFlight(intent) && staging < nonce && staging !in siblings
      requires intent.Some? ==> staging != intent.value.previous
      modifies this`tick, this`siblings
      ensures Valid()
      ensures forall n :: n != staging ==> (n in siblings <==> n in old(siblings))
      ensures o == Done ==> siblings == old(siblings)[staging := tree]
      ensures o == Done <==> Calm(host, old(tick), old(tick) + 4)
      ensures o == Done <==> Calm(host, old(tick), tick)
      ensures old(tick) <= tick && (o == Done ==> tick == old(tick) + 4)
    {
      hide OldInPlace, OldMoved, NewInPlace, Staged;
      o := Fill(host, staging, Tree(TornContent, None));
      if o != Done {
        return;
      }
      o := Fill(host, staging, tree.(marker := None));
      if o != Done {
        return;
      }
      o := Fill(host, staging, tree);
      if o != Done {
        return;
      }
      o := Effect(host);  // staged_validator
    }

    /** A restore that has not reached its commit point can be taken back. */
    ghost predicate Reversible(i: Intent)
      reads `data, `siblings, `intent, `nonce, `lives, `origin, `replacement
    {
      && Valid() && KnownNames(i) && (OldInPlace(i) || OldMoved(i))
      && (InFlight(intent) ==> Unfinished(intent.value) && intent.value.(phase := Prepared) == i.(phase := Prepared))
      && (!InFlight(intent) ==> OldInPlace(i) && (intent.Some? ==> FreshAgainst(i, intent.value)))
    }

    static predicate FreshAgainst(i: Intent, settled: Intent) {
      i.staging != settled.previous && i.previous != settled.previous
    }

    /** Bring the old tree back if it was moved aside. */
    method MoveBack(host: Host, i: Intent) returns (o: Outcome)
      requires Reversible(i)
      modifies this`tick, this`siblings, this`data
      ensures Reversible(i) && (o == Done ==> OldInPlace(i))
      ensures o != Done ==> data == old(data) && siblings == old(siblings)
      ensures o == Done <==> Calm(host, old(tick), tick)
      ensures old(tick) <= tick
    {
      o := Done;
      if data.None? && i.previous in siblings {
        o := Effect(host);
        if o == Done {
          data := Some(siblings[i.previous]);
          siblings := siblings - {i.previous};
        }
      }
    }

    /** `_rollback_precommit`, with the final removal of the staging directory. */
    method RollbackPrecommit(host: Host, i: Intent) returns (reply: Reply)
      requires Reversible(i)
      modifies this`tick, this`intent, this`siblings, this`data
      ensures Valid() && reply != Restored
      ensures reply == Failed ==> intent == Some(i.(phase := Aborted)) && data == origin
      ensures reply != Failed ==> intent == old(intent) || (reply == Died && intent == Some(i.(phase := Aborted)))
      ensures data == old(data) || data == origin
      ensures Calm(host, old(tick), tick) ==> reply == Failed
      ensures old(tick) <= tick
    {
      var o := MoveBack(host, i);
      if o == Done {
        o := Abort(host, i);
      }
      if o == Crashed {
        return Died;
      }
      var alive := CleanupStaging(host, i);
      return if !alive then Died else if o == Done then Failed else RecoveryPending;
    }

    /** The old tree is in place: drop the staging directory, record the abort. */
    method Abort(host: Host, i: Intent) returns (o: Outcome)
      requires Reversible(i) && OldInPlace(i)
      modifies this`tick, this`intent, this`siblings
      ensures Valid() && (intent == old(intent) ==> Reversible(i))
      ensures OldInPlace(i) && intent == if o == Done then Some(i.(phase := Aborted)) else old(intent)
      ensures Calm(host, old(tick), tick) ==> o == Done
      ensures old(tick) <= tick
    {
      var alive := CleanupPath(host, i.staging);
      if !alive {
        return Crashed;
      }
      o := WriteIntent(host, i.(phase := Aborted));
    }

    /** The last attempt to remove the staging directory. */
    method CleanupStaging(host: Host, i: Intent) returns (alive: bool)
      requires Reversible(i) || (Valid() && intent == Some(i.(phase := Aborted)) && i.staging != i.previous)
      modifies this`tick, this`siblings
      ensures Valid()
      ensures Calm(host, old(tick), tick) ==> alive
      ensures old(tick) <= tick
    {
      alive := CleanupPath(host, i.staging);
    }

    method Recoil(host: Host, o: Outcome, i: Intent) returns (reply: Reply)
      requires Reversible(i) && o != Done
      modifies this`tick, this`intent, this`siblings, this`data
      ensures Valid() && reply != Restored
      ensures reply == Failed ==> intent == Some(i.(phase := Aborted)) && data == origin
      ensures old(tick) <= tick
    {
      if o == Crashed {
        return Died;
      }
      reply := RollbackPrecommit(host, i);
    }

    /** `previous` takes the old tree; the intent records it. */
    method MoveAside(host: Host, i: Intent) returns (o: Outcome, current: Intent)
      requires Valid() && intent == Some(i) && i.phase == Prepared && OldInPlace(i) && data.Some?
      requires i.staging in siblings
      modifies this`tick, this`intent, this`siblings, this`data
      ensures current == i || current == i.(phase := PreviousMoved)
      ensures Reversible(current)
      ensures o == Done ==>
                intent == Some(current) && OldMoved(current) && siblings == old(siblings)[i.previous := origin.value]
      ensures o == Done <==> Calm(host, old(tick), old(tick) + 2)
      ensures o == Done <==> Calm(host, old(tick), tick)
      ensures old(tick) <= tick && (o == Done ==> tick == old(tick) + 2)
    {
      current := i;
      o := Effect(host);
      if o != Done {
        return;
      }
      siblings := siblings[i.previous := data.value];
      data := None;
      current := i.(phase := PreviousMoved);
      o := WriteIntent(host, current);
    }

    /** The commit point: one rename brings the whole staged tree and its marker. */
    method SwitchIn(host: Host, i: Intent) returns (o: Outcome)
      requires Valid() && intent == Some(i) && Unfinished(i) && data == None
      requires (OldInPlace(i) || OldMoved(i)) && i.staging in siblings && siblings[i.staging] == replacement
      modifies this`tick, this`siblings, this`data, this`lives
      ensures Valid()
      ensures o == Done ==> NewInPlace(i) && lives == old(lives) + [Some(replacement.content)]
      ensures o != Done ==> Reversible(i) && lives == old(lives)
      ensures o == Done <==> Calm(host, old(tick), tick)
      ensures tick == old(tick) + 1
    {
      o := Effect(host);
      if o == Done {
        data := Some(siblings[i.staging]);
        siblings := siblings - {i.staging};
        lives := lives + [Some(replacement.content)];
      }
    }

    /** After the commit point: post-commit evidence, finalized intent, best-effort cleanup. */
    method Finish(host: Host, i: Intent) returns (reply: Reply)
      requires Valid() && intent == Some(i) && i.phase == Committed
      modifies this`tick, this`intent, this`siblings, this`data
      ensures Valid() && OldTreeSafe() && (reply == Restored || reply == RecoveryPending || reply == Died)
      ensures intent == Some(i) || intent == Some(i.(phase := Finalized))
      ensures reply == Restored ==> intent == Some(i.(phase := Finalized))
      ensures intent == Some(i) ==> data == old(data) && siblings == old(siblings)
      ensures ContentOf(data) == ContentOf(old(data))
      ensures reply == Restored <==> Calm(host, old(tick), old(tick) + 2) && Survived(host, old(tick), tick)
      ensures Calm(host, old(tick), tick) ==>
                && reply == Restored && i.staging !in siblings && i.previous !in siblings
                && data.Some? && data.value.marker == None
      ensures old(tick) <= tick
    {
      var o := Effect(host);  // post_commit
      if o != Done {
        return if o == Crashed then Died else RecoveryPending;
      }
      var finalized := i.(phase := Finalized);
      o := WriteIntent(host, finalized);
      if o != Done {
        return if o == Crashed then Died else RecoveryPending;
      }
      var alive := CleanupSettled(host, finalized);
      return if alive then Restored else Died;
    }

    method CommitAndFinish(host: Host, i: Intent) returns (reply: Reply)
      requires Valid() && intent == Some(i) && Unfinished(i) && NewInPlace(i)
      modifies this`tick, this`intent, this`siblings, this`data
      ensures Valid() && (reply == Restored || reply == RecoveryPending || reply == Died)
      ensures intent.Some? && intent.value.(phase := i.phase) == i && intent.value.phase != Aborted
      ensures reply == Restored ==> intent.value.phase == Finalized
      ensures ContentOf(data) == ContentOf(old(data))
      ensures reply == Restored <==> Calm(host, old(tick), old(tick) + 3) && Survived(host, old(tick), tick)
      ensures Calm(host, old(tick), tick) ==>
                && reply == Restored && i.staging !in siblings && i.previous !in siblings
                && data.Some? && data.value.marker == None
      ensures old(tick) <= tick
    {
      var committed := i.(phase := Committed);
      var o := WriteIntent(host, committed);
      if o != Done {
        return if o == Crashed then Died else RecoveryPending;
      }
      reply := Finish(host, committed);
    }

    /** From a durable prepared intent to the end. */
    method Swap(host: Host, i: Intent) returns (reply: Reply)
      requires Valid() && intent == Some(i) && i.phase == Prepared && OldInPlace(i)
      requires i.staging in siblings && siblings[i.staging] == replacement
      modifies this`tick, this`intent, this`siblings, this`data, this`lives
      ensures Valid()
      ensures lives == old(lives) || lives == old(lives) + [Some(replacement.content)]
      ensures reply == Restored ==>
                && intent == Some(i.(phase := Finalized)) && lives == old(lives) + [Some(replacement.content)]
                && ContentOf(data) == Live()
      ensures reply == Failed ==> intent == Some(i.(phase := Aborted)) && data == origin && lives == old(lives)
      ensures reply == Restored <==> Calm(host, old(tick), old(tick) + SwapLength(old(data))) && Survived(host, old(tick), tick)
      ensures Calm(host, old(tick), tick) ==>
                && reply == Restored && i.staging !in siblings && i.previous !in siblings
                && data.Some? && data.value.marker == None
      ensures old(tick) <= tick
    {
      var o, current := Done, i;
      if data.Some? {
        o, current := MoveAside(host, i);
        if o != Done {
          reply := Recoil(host, o, current);
          return;
        }
      }
      o := SwitchIn(host, current);
      if o != Done {
        reply := Recoil(host, o, current);
        return;
      }
      reply := CommitAndFinish(host, current);
    }

    /** Stage the archive and make the prepared intent durable. */
    method Prepare(host: Host, e: Evidence, content: nat) returns (o: Outcome, i: Intent)
      requires Valid() && !InFlight(intent)
      modifies this
      ensures Valid() && data == old(data) && lives == old(lives)
      ensures i.phase == Prepared ==> origin == old(data)
      ensures o == Done ==>
                && intent == Some(i) && i.phase == Prepared && i.evidence == e && OldInPlace(i)
                && i.staging in siblings && siblings[i.staging] == replacement
                && replacement.content == Whole(content)
      ensures o != Done ==> intent == old(intent) && (i.phase == Prepared ==> Reversible(i))
      ensures o == Done <==> Calm(host, old(tick), old(tick) + 5)
      ensures o == Done <==> Calm(host, old(tick), tick)
      ensures old(tick) <= tick && (o == Done ==> tick == old(tick) + 5)
    {
      var staging, previous := nonce, nonce + 1;
      nonce := nonce + 2;
      var tree := Tree(Whole(content), Some(MarkerOf(e)));
      i := Intent(e, staging, previous, Aborted);
      o := Stage(host, staging, tree);
      if o != Done {
        if o == Raised {
          var alive := CleanupPath(host, staging);
          o := if alive then Raised else Crashed;
        }
        return;
      }
      i := Intent(e, staging, previous, Prepared);
      origin, replacement := data, tree;
      o := WriteIntent(host, i);
    }

    /** A restore with nothing in flight: prepare, then swap. */
    method RestoreFresh(host: Host, e: Evidence, content: nat) returns (reply: Reply)
      requires Valid() && !InFlight(intent)
      modifies this
      ensures Valid() && OldTreeSafe() && (InFlight(intent) ==> origin == old(data))
      ensures lives == old(lives) || lives == old(lives) + [Some(Whole(content))]
      ensures reply == Restored ==>
                && intent.Some? && intent.value.phase == Finalized && intent.value.evidence == e
                && lives == old(lives) + [Some(Whole(content))] && ContentOf(data) == Live()
      ensures reply == Failed ==> lives == old(lives) && ContentOf(data) == Live() && !InFlight(intent)
      ensures reply == Restored <==> Calm(host, old(tick), old(tick) + 5 + SwapLength(old(data))) && Survived(host, old(tick), tick)
      ensures Calm(host, old(tick), tick) ==>
                && reply == Restored && data == Some(Tree(Whole(content), None))
                && intent.value.staging !in siblings && intent.value.previous !in siblings
      ensures old(tick) <= tick
    {
      var o, i := Prepare(host, e, content);
      if o == Done {
        reply := Swap(host, i);
      } else if i.phase == Prepared {
        reply := Recoil(host, o, i);
      } else {
        reply := Interruption(o);
      }
    }

    /** `restore`. A call with the evidence of a committed restore only completes it; with other
        evidence it changes neither the data nor the committed intent. Whatever stops it, the tree
        it found is the origin that `OldTreeSafe` keeps until the intent is finalized. */
    method Restore(host: Host, e: Evidence, content: nat) returns (reply: Reply)
      requires Valid()
      modifies this
      ensures Valid() && OldTreeSafe()
      ensures InFlight(intent) ==>
                if InFlight(old(intent)) then origin == old(origin)
                else ContentOf(origin) == ContentOf(old(data)) && (old(intent) == None ==> origin == old(data))
      ensures lives == old(lives) || lives == old(lives) + [Some(Whole(content))]
      ensures reply == Failed ==> lives == old(lives)
      ensures reply == Restored ==>
                && intent.Some? && intent.value.phase == Finalized && intent.value.evidence == e
                && ContentOf(data) == Live()
                && (lives == old(lives) + [Some(Whole(content))]
                    || (InFlight(old(intent)) && Completes(old(intent).value, intent)))
      ensures InFlight(old(intent)) && Carries(old(data), old(intent).value.evidence) ==>
                && lives == old(lives) && ContentOf(data) == ContentOf(old(data))
                && intent.Some? && intent.value.(phase := old(intent).value.phase) == old(intent).value
                && intent.value.phase != Aborted
                && (old(intent).value.evidence != e ==>
                      && reply != Restored && data == old(data) && siblings == old(siblings)
                      && (old(intent).value.phase == Committed ==> intent == old(intent)))
                && (Calm(host, old(tick), tick) ==>
                      reply == if old(intent).value.evidence == e then Restored else RecoveryPending)
      ensures old(intent) == None ==>
                (reply == Restored <==>
                   Calm(host, old(tick), old(tick) + 6 + SwapLength(old(data))) && Survived(host, old(tick), tick))
      ensures StuckIn(old(intent), old(data), old(siblings)) ==>
                && reply != Restored && intent == old(intent) && data == old(data) && siblings == old(siblings)
                && lives == old(lives)
      ensures Calm(host, old(tick), tick) && !(InFlight(old(intent)) && Carries(old(data), old(intent).value.evidence)) ==>
                if StuckIn(old(intent), old(data), old(siblings)) then reply == RecoveryPending
                else reply == Restored && data == Some(Tree(Whole(content), None))
      ensures old(tick) <= tick
    {
      hide OldInPlace, OldMoved, NewInPlace, Staged, OldTreeSafe;
      ValidIsSafe();
      var o := Effect(host);  // copy and verify the archive
      if o != Done {
        return Interruption(o);
      }
      if intent.Some? {
        reply := ReconcileIntent(host, intent.value);
        if reply != Restored {
          return;
        }
        if intent.value.phase == Committed {
          if intent.value.evidence != e {
            return RecoveryPending;
          }
          reply := Finish(host, intent.value);
          return;
        }
      }
      reply := RestoreFresh(host, e, content);
    }

    // -------------------------------------------------------------------------------------
    // Two stops, and what they lead to
    // -------------------------------------------------------------------------------------

    /** When is a crash right after the prepared intent harmless? Exactly when there is an old tree
        and it does not already carry the marker of the same evidence, left behind by an earlier
        restore whose marker could not be removed. With such a marker the retry reports a
        completed restore over the old tree; with no old tree every later call fails closed. */
    method CrashAfterPrepare(host: Host, e: Evidence, content: nat) returns (reply: Reply)
      requires Valid() && !InFlight(intent)
      modifies this
      ensures Valid() && old(tick) <= tick
      ensures Calm(host, old(tick), tick) ==>
                if old(data) == None then
                  reply == RecoveryPending && data == None && StuckIn(intent, data, siblings)
                else
                  && reply == Restored && ContentOf(data) == Live()
                  && lives == if Carries(old(data), e) then old(lives) else old(lives) + [Some(Whole(content))]
    {
      var o, i := Prepare(host, e, content);
      var reconciled := ReconcileRestore(host);
      reply := Restore(host, e, content);
    }

    /** A stop inside the undoing of a prepared restore, after its staging directory is gone and
        before `aborted` is written. Reconciliation then fails closed, with the old data in place,
        exactly when the old tree does not carry the marker of the same evidence; and no later
        restore, of whatever archive and on whatever host, gets past that state. */
    method StopBeforeAborted(host: Host, e: Evidence, content: nat, later: Host, f: Evidence, other: nat)
      returns (reconciled: Reply, reply: Reply, ghost stopped: nat)
      requires Valid() && !InFlight(intent)
      modifies this
      ensures Valid() && old(tick) <= stopped <= tick
      ensures Calm(host, old(tick), stopped) ==>
                && (reconciled == RecoveryPending <==> !Carries(old(data), e))
                && (reconciled == RecoveryPending ==>
                      && StuckIn(intent, data, siblings) && reply != Restored
                      && data == old(data) && lives == old(lives))
    {
      var o, i := Prepare(host, e, content);
      if o == Done {
        var _ := CleanupPath(host, i.staging);
      }
      reconciled := ReconcileRestore(host);
      stopped := tick;
      reply := Restore(later, f, other);
    }

    /** Any sequence of restores, reconciliations and platform writes, each against a host that may
        stop it anywhere: what was live is never rewritten, only followed by what the platform wrote
        or by one of the archives, and the tree that was live before an unfinished restore exists
        intact until the restore is finalized. */
    method AnyRun(hosts: seq<Host>, steps: seq<Step>)
      requires Valid() && |hosts| == |steps|
      modifies this
      ensures Valid() && OldTreeSafe()
      ensures old(lives) <= lives && |lives| <= |old(lives)| + |steps|
      ensures forall k :: |old(lives)| <= k < |lives| ==> lives[k] in Offered(steps)
    {
      for k := 0 to |steps|
        invariant Valid() && old(lives) <= lives && |lives| <= |old(lives)| + k
        invariant forall n :: |old(lives)| <= n < |lives| ==> lives[n] in Offered(steps)
      {
        assert steps[k] in steps;
        match steps[k]
        case Restoring(e, content) => var reply := Restore(hosts[k], e, content);
        case Reconciling => var reply := ReconcileRestore(hosts[k]);
        case Writing(tree) =>
          if !InFlight(intent) {
            UseData(Some(tree));
          }
      }
    }
  }

  datatype Step = Restoring(e: Evidence, content: nat) | Reconciling | Writing(tree: Tree)

  function Offer(s: Step): Option<Content> {
    match s
    case Restoring(_, content) => Some(Whole(content))
    case Reconciling => None
    case Writing(tree) => Some(tree.content)
  }

  function Offered(steps: seq<Step>): set<Option<Content>> {
    set s | s in steps && !s.Reconciling? :: Offer(s)
  }

  /** An error is reported, a crash is not. */
  function Interruption(o: Outcome): Reply {
    if o == Crashed then Died else Failed
  }

  /** The effects from the prepared intent to the finalized one; only cleanup comes after them. */
  function SwapLength(data: Option<Tree>): nat {
    if data.Some? then 6 else 4
  }

  /** Reconciliation settles the same restore or leaves it; it never reopens one. */
  predicate Reconciled(before: Intent, after: Option<Intent>) {
    && after.Some? && after.value.(phase := before.phase) == before
    && (after.value == before || (Unfinished(before) && (after.value.phase == Committed || after.value.phase == Aborted)))
  }

  predicate Completes(before: Intent, after: Option<Intent>) {
    after == Some(before.(phase := Finalized))
  }

  /** The two fail-closed situations: the data is there but the staged tree is gone without its
      marker having arrived, or there is no tree to go back to. */
  predicate Stuck(i: Intent, data: Option<Tree>, siblings: map<Name, Tree>) {
    && Unfinished(i) && !Carries(data, i.evidence)
    && if data.Some? then i.staging !in siblings else i.previous !in siblings
  }

  predicate StuckIn(intent: Option<Intent>, data: Option<Tree>, siblings: map<Name, Tree>) {
    intent.Some? && Stuck(intent.value, data, siblings)
  }
}

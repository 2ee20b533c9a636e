/** Who may dispatch: the claim, release, defer and recover steps of the durable events
    (src/plaik_core/event_outbox.py). Every step holds the lock; a waiting thread gives it up and
    is woken later, so any interleaving of threads is a sequence of these steps. */
module DispatchClaims {
  import opened Prelude

  type Thread = nat

  /** What a thread waiting on the condition will do next. */
  datatype Errand = Claiming | Deferring | Recovering

  datatype Answer = Yes | No | Waits

  datatype Event =
    | Held(thread: Thread)
    | Deferred(thread: Thread)
    | Enabled(thread: Thread)
    | Claimed(thread: Thread)
    | Released(thread: Thread)

  // ---------------------------------------------------------------------------------------
  // Histories
  // ---------------------------------------------------------------------------------------

  predicate EnabledAfter(h: seq<Event>, initially: bool) {
    if h == [] then initially
    else match h[|h| - 1]
      case Held(_) => false
      case Enabled(_) => true
      case Deferred(_) => EnabledAfter(h[..|h| - 1], initially)
      case Claimed(_) => EnabledAfter(h[..|h| - 1], initially)
      case Released(_) => EnabledAfter(h[..|h| - 1], initially)
  }

  function DispatcherAfter(h: seq<Event>): Option<Thread> {
    if h == [] then None
    else match h[|h| - 1]
      case Claimed(thread) => Some(thread)
      case Released(_) => None
      case Held(_) => DispatcherAfter(h[..|h| - 1])
      case Enabled(_) => DispatcherAfter(h[..|h| - 1])
      case Deferred(_) => DispatcherAfter(h[..|h| - 1])
  }

  /** A claim needs dispatch enabled and nobody dispatching; only the dispatcher releases; a
      deferral returns only when no other thread dispatches. */
  predicate Possible(h: seq<Event>, e: Event, initially: bool) {
    match e
    case Claimed(_) => EnabledAfter(h, initially) && DispatcherAfter(h) == None
    case Released(thread) => DispatcherAfter(h) == Some(thread)
    case Deferred(thread) => DispatcherAfter(h) == None || DispatcherAfter(h) == Some(thread)
    case Held(_) => true
    case Enabled(_) => true
  }

  predicate Run(h: seq<Event>, initially: bool) {
    h == [] || (Run(h[..|h| - 1], initially) && Possible(h[..|h| - 1], h[|h| - 1], initially))
  }

  lemma {:induction false} RunAt(h: seq<Event>, k: nat, initially: bool)
    requires k < |h| && Run(h, initially)
    ensures Run(h[..k], initially) && Possible(h[..k], h[k], initially)
  {
    if k + 1 < |h| {
      RunAt(h[..|h| - 1], k, initially);
      assert h[..|h| - 1][..k] == h[..k];
    } else {
      assert h[..k] == h[..|h| - 1];
    }
  }

  /** Held off means held off: a claim after `Held` needs an `Enabled` in between. */
  lemma {:induction false} HeldUntilEnabled(h: seq<Event>, i: nat, j: nat, initially: bool)
    requires i < j <= |h| && h[i].Held? && EnabledAfter(h[..j], initially)
    ensures exists k :: i < k < j && h[k].Enabled?
    decreases j
  {
    assert h[..j][..j - 1] == h[..j - 1];
    if !h[j - 1].Enabled? {
      HeldUntilEnabled(h, i, j - 1, initially);
      var k :| i < k < j - 1 && h[k].Enabled?;
    }
  }

  lemma {:induction false} StillDispatching(h: seq<Event>, i: nat, j: nat, initially: bool)
    requires i < j <= |h| && Run(h, initially) && h[i].Claimed?
    ensures DispatcherAfter(h[..j]) == Some(h[i].thread) || exists k :: i < k < j && h[k] == Released(h[i].thread)
    decreases j
  {
    assert h[..j][..j - 1] == h[..j - 1];
    RunAt(h, j - 1, initially);
    if j > i + 1 {
      StillDispatching(h, i, j - 1, initially);
      if k :| i < k < j - 1 && h[k] == Released(h[i].thread) {
        assert i < k < j;
      } else if h[j - 1].Released? {
        assert h[j - 1] == Released(h[i].thread);
      }
    }
  }

  /** Two dispatches never overlap. */
  lemma OneDispatcher(h: seq<Event>, i: nat, j: nat, initially: bool)
    requires i < j < |h| && Run(h, initially) && h[i].Claimed? && h[j].Claimed?
    ensures exists k :: i < k < j && h[k] == Released(h[i].thread)
  {
    RunAt(h, j, initially);
    StillDispatching(h, i, j, initially);
  }

  /** Once `defer_dispatch` has returned to a thread that was not dispatching, nothing is being
      dispatched and no dispatch starts, until somebody enables dispatch after the deferral began. */
  lemma QuietAfterDefer(h: seq<Event>, i: nat, r: nat, j: nat, initially: bool)
    requires i < r < j <= |h| && Run(h, initially)
    requires h[i] == Held(h[r].thread) && h[r].Deferred? && DispatcherAfter(h[..r]) != Some(h[r].thread)
    requires forall k :: i < k < j ==> !h[k].Enabled?
    ensures DispatcherAfter(h[..j]) == None && forall k :: r < k < j ==> !h[k].Claimed?
    decreases j
  {
    RunAt(h, r, initially);
    assert h[..r + 1][..r] == h[..r];
    if j > r + 1 {
      QuietAfterDefer(h, i, r, j - 1, initially);
      assert h[..j][..j - 1] == h[..j - 1];
      RunAt(h, j - 1, initially);
      if h[j - 1].Claimed? {
        HeldUntilEnabled(h, i, j - 1, initially);
      }
    }
  }

  // ---------------------------------------------------------------------------------------
  // The steps
  // ---------------------------------------------------------------------------------------

  class SqliteDurableEvents {
    var dispatchAfterEnqueue: bool
    var dispatching: bool
    var dispatchThread: Option<Thread>
    var waiting: map<Thread, Errand>

    ghost const initially: bool
    ghost var history: seq<Event>

    /** The fields say what the history says; a waiting thread does not dispatch. */
    ghost predicate Valid()
      reads this
    {
      && Run(history, initially) && dispatchAfterEnqueue == EnabledAfter(history, initially)
      && dispatchThread == DispatcherAfter(history) && (dispatching <==> dispatchThread.Some?)
      && (dispatching ==> dispatchThread.value !in waiting)
    }

    constructor (enabled: bool)
      ensures Valid() && history == [] && initially == enabled && waiting == map[]
    {
      dispatchAfterEnqueue, dispatching, dispatchThread, waiting := enabled, false, None, map[];
      initially, history := enabled, [];
    }

    ghost method Note(e: Event)
      requires Run(history, initially) && Possible(history, e, initially)
      modifies this`history
      ensures history == old(history) + [e] && Run(history, initially) && history[..|history| - 1] == old(history)
    {
      assert (history + [e])[..|history|] == history;
      history := history + [e];
    }

    predicate OtherDispatches(me: Thread)
      reads this
    {
      dispatching && dispatchThread != Some(me)
    }

    /** `_claim_dispatch_locked` up to its first wait, and `drain`. */
    method Claim(me: Thread) returns (r: Answer)
      requires Valid() && me !in waiting
      modifies this
      ensures Valid() && (r == Waits <==> old(OtherDispatches(me)))
      ensures r == Waits ==> history == old(history) && waiting == old(waiting)[me := Claiming]
      ensures r != Waits ==> waiting == old(waiting)
      ensures r == Yes <==> old(!dispatching && dispatchAfterEnqueue)
      ensures history == if r == Yes then old(history) + [Claimed(me)] else old(history)
    {
      if dispatching && dispatchThread == Some(me) {
        return No;
      }
      if dispatching {
        waiting := waiting[me := Claiming];
        return Waits;
      }
      r := TakeOver(me);
    }

    method TakeOver(me: Thread) returns (r: Answer)
      requires Valid() && me !in waiting && !dispatching
      modifies this`dispatching, this`dispatchThread, this`history
      ensures Valid() && r == (if dispatchAfterEnqueue then Yes else No)
      ensures history == if r == Yes then old(history) + [Claimed(me)] else old(history)
    {
      if !dispatchAfterEnqueue {
        return No;
      }
      Note(Claimed(me));
      dispatching, dispatchThread := true, Some(me);
      return Yes;
    }

    /** A woken claimer looks again. */
    method WakeClaimer(me: Thread) returns (r: Answer)
      requires Valid() && me in waiting && waiting[me] == Claiming
      modifies this
      ensures Valid() && (r == Waits <==> old(dispatching))
      ensures waiting == if r == Waits then old(waiting) else old(waiting) - {me}
      ensures r == Yes <==> old(!dispatching && dispatchAfterEnqueue)
      ensures history == if r == Yes then old(history) + [Claimed(me)] else old(history)
    {
      if !dispatchAfterEnqueue && !dispatching {
        waiting := waiting - {me};
        return No;
      }
      if dispatching {
        return Waits;
      }
      waiting := waiting - {me};
      r := TakeOver(me);
    }

    method Release(me: Thread)
      requires Valid() && dispatchThread == Some(me)
      modifies this`dispatching, this`dispatchThread, this`history
      ensures Valid() && !dispatching && history == old(history) + [Released(me)]
    {
      Note(Released(me));
      dispatching, dispatchThread := false, None;
    }

    /** `defer_dispatch` up to its first wait; the dispatching thread itself never waits. */
    method Defer(me: Thread) returns (r: Answer)
      requires Valid() && me !in waiting
      modifies this
      ensures Valid() && !dispatchAfterEnqueue && (r == Waits <==> old(OtherDispatches(me))) && r != No
      ensures waiting == if r == Waits then old(waiting)[me := Deferring] else old(waiting)
      ensures history == old(history) + [Held(me)] + if r == Yes then [Deferred(me)] else []
    {
      Note(Held(me));
      dispatchAfterEnqueue := false;
      if dispatching && dispatchThread != Some(me) {
        waiting := waiting[me := Deferring];
        return Waits;
      }
      Note(Deferred(me));
      return Yes;
    }

    method WakeDeferrer(me: Thread) returns (r: Answer)
      requires Valid() && me in waiting && waiting[me] == Deferring
      modifies this
      ensures Valid() && (r == Waits <==> old(dispatching)) && r != No
      ensures waiting == if r == Waits then old(waiting) else old(waiting) - {me}
      ensures history == old(history) + if r == Yes then [Deferred(me)] else []
    {
      if dispatching && dispatchThread != Some(me) {
        return Waits;
      }
      Note(Deferred(me));
      waiting := waiting - {me};
      return Yes;
    }

    method EnableLiveDispatch(me: Thread)
      requires Valid()
      modifies this`dispatchAfterEnqueue, this`history
      ensures Valid() && dispatchAfterEnqueue && history == old(history) + [Enabled(me)]
    {
      Note(Enabled(me));
      dispatchAfterEnqueue := true;
    }

    /** `recover_subscribers` up to its first wait: enable, then claim. */
    method Recover(me: Thread) returns (r: Answer)
      requires Valid() && me !in waiting
      modifies this
      ensures Valid() && (r == Waits <==> old(OtherDispatches(me))) && (r == Yes <==> old(!dispatching))
      ensures waiting == if r == Waits then old(waiting)[me := Recovering] else old(waiting)
      ensures history == old(history) + match r
                                         case Waits => []
                                         case No => [Enabled(me)]
                                         case Yes => [Enabled(me), Claimed(me)]
    {
      if dispatching && dispatchThread != Some(me) {
        waiting := waiting[me := Recovering];
        return Waits;
      }
      EnableLiveDispatch(me);
      if dispatching {
        return No;
      }
      r := TakeOver(me);
    }

    method WakeRecoverer(me: Thread) returns (r: Answer)
      requires Valid() && me in waiting && waiting[me] == Recovering
      modifies this
      ensures Valid() && (r == Waits <==> old(dispatching)) && (r == Yes <==> old(!dispatching))
      ensures waiting == if r == Waits then old(waiting) else old(waiting) - {me}
      ensures history == old(history) + if r == Yes then [Enabled(me), Claimed(me)] else []
    {
      if dispatching && dispatchThread != Some(me) {
        return Waits;
      }
      EnableLiveDispatch(me);
      waiting := waiting - {me};
      r := TakeOver(me);
    }
  }
}

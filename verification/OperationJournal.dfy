/** The operation journal: idempotent operation attempts as a signed chain of events, and the
    per-operation state folded from it (src/plaik_core/operation_journal.py). */
module OperationJournals {
  import opened Prelude
  import opened HashChain

  type OperationId = string

  datatype Status = Started | Succeeded | Failed

  datatype Body = Body(
    operationId: OperationId, attempt: int, action: string, target: string,
    status: Status, occurredAt: int, errorCode: Option<string>)

  type Event = Link<Body>

  datatype State = State(
    operationId: OperationId, attempt: int, action: string, target: string, status: Status,
    startedAt: int, finishedAt: Option<int>, errorCode: Option<string>, lastSequence: nat)

  type States = map<OperationId, State>

  datatype JournalError = Integrity | Conflict | Transition

  function Lookup(states: States, id: OperationId): Option<State> {
    if id in states then Some(states[id]) else None
  }

  function InitialState(e: Event): State {
    State(e.body.operationId, e.body.attempt, e.body.action, e.body.target, Started,
          e.body.occurredAt, None, None, e.sequence)
  }

  function TerminalState(current: State, e: Event): State {
    current.(status := e.body.status, finishedAt := Some(e.body.occurredAt),
             errorCode := e.body.errorCode, lastSequence := e.sequence)
  }

  predicate FieldsValid(b: Body) {
    b.attempt >= 1 && (b.status == Failed <==> b.errorCode.Some?)
  }

  /** The state after one more event, or `None` where the reader raises an integrity error. */
  function ApplyEvent(current: Option<State>, e: Event): Option<State> {
    if !FieldsValid(e.body) then None
    else if current.None? then
      if e.body.status != Started || e.body.attempt != 1 then None else Some(InitialState(e))
    else if current.value.action != e.body.action || current.value.target != e.body.target then None
    else if e.body.status == Started then
      if current.value.status != Failed then None
      else if e.body.attempt != current.value.attempt + 1 then None
      else if current.value.finishedAt.None? || e.body.occurredAt < current.value.finishedAt.value then None
      else Some(InitialState(e))
    else if current.value.status != Started || e.body.attempt != current.value.attempt then None
    else if e.body.occurredAt < current.value.startedAt then None
    else Some(TerminalState(current.value, e))
  }

  /** All states after the whole journal, or `None` when some event is rejected. */
  function Replay(events: seq<Event>): Option<States> {
    if events == [] then Some(map[])
    else
      var e := events[|events| - 1];
      match Replay(events[..|events| - 1])
      case None => None
      case Some(states) =>
        match ApplyEvent(Lookup(states, e.body.operationId), e)
        case None => None
        case Some(next) => Some(states[e.body.operationId := next])
  }

  predicate Accepted(sign: Signer<Body>, lines: seq<Line<Body>>) {
    AllWhole(lines) && Chained(sign, Links(lines)) && Replay(Links(lines)).Some?
  }

  function StatesOf(sign: Signer<Body>, lines: seq<Line<Body>>): States
    requires Accepted(sign, lines)
  {
    Replay(Links(lines)).value
  }

  // ---------------------------------------------------------------------------------------
  // What an accepted journal looks like, one operation at a time
  // ---------------------------------------------------------------------------------------

  /** The events of one operation, in journal order. */
  function Project(events: seq<Event>, id: OperationId): seq<Body> {
    if events == [] then []
    else
      var e := events[|events| - 1];
      Project(events[..|events| - 1], id) + (if e.body.operationId == id then [e.body] else [])
  }

  /** Position `i` of (started failed)* followed by nothing, started, or started succeeded. */
  predicate ShapedAt(bs: seq<Body>, i: nat)
    requires i < |bs|
  {
    && bs[i].attempt == i / 2 + 1
    && bs[i].action == bs[0].action && bs[i].target == bs[0].target
    && (i % 2 == 0 ==> bs[i].status == Started)
    && (i % 2 == 1 ==> bs[i].status != Started)
    && (bs[i].status == Succeeded ==> i == |bs| - 1)
    && (bs[i].status == Failed <==> bs[i].errorCode.Some?)
    && (i > 0 ==> bs[i - 1].occurredAt <= bs[i].occurredAt)
  }

  predicate Shaped(bs: seq<Body>) {
    forall i :: 0 <= i < |bs| ==> ShapedAt(bs, i)
  }

  /** `current` is the state that the events `bs` of one operation leave behind. */
  predicate Reflects(current: Option<State>, bs: seq<Body>) {
    if bs == [] then current.None?
    else
      var last := bs[|bs| - 1];
      && current.Some?
      && current.value.attempt == last.attempt && current.value.status == last.status
      && current.value.action == last.action && current.value.target == last.target
      && current.value.errorCode == last.errorCode
      && (last.status == Started ==>
            current.value.startedAt == last.occurredAt && current.value.finishedAt.None?)
      && (last.status != Started ==>
            && |bs| >= 2 && current.value.startedAt == bs[|bs| - 2].occurredAt
            && current.value.finishedAt == Some(last.occurredAt))
  }

  /** One event keeps the shape exactly when the reader accepts it. */
  lemma ShapeStep(bs: seq<Body>, e: Event, current: Option<State>)
    requires Shaped(bs) && Reflects(current, bs)
    ensures Shaped(bs + [e.body]) <==> ApplyEvent(current, e).Some?
    ensures ApplyEvent(current, e).Some? ==> Reflects(ApplyEvent(current, e), bs + [e.body])
  {
    var longer := bs + [e.body];
    var n := |bs|;
    if n > 0 {
      assert ShapedAt(bs, n - 1);
    }
    if ApplyEvent(current, e).Some? {
      forall i | 0 <= i < |longer| ensures ShapedAt(longer, i) {
        if i < n {
          assert ShapedAt(bs, i);
        }
      }
    }
    if Shaped(longer) {
      assert ShapedAt(longer, n);
      if n > 0 {
        assert ShapedAt(longer, n - 1);
      }
    }
  }

  lemma ShapePrefix(bs: seq<Body>, b: Body)
    requires Shaped(bs + [b])
    ensures Shaped(bs)
  {
    forall i | 0 <= i < |bs| ensures ShapedAt(bs, i) {
      assert ShapedAt(bs + [b], i);
    }
  }

  ghost predicate AllShaped(events: seq<Event>) {
    forall id {:trigger Project(events, id)} :: Shaped(Project(events, id))
  }

  /** A journal replays exactly when every operation's own events have the attempt shape, and
      then each folded state is the one its last event describes. */
  lemma {:induction false} AcceptedExactlyShaped(events: seq<Event>)
    ensures Replay(events).Some? <==> AllShaped(events)
    ensures Replay(events).Some? ==>
              forall id :: Reflects(Lookup(Replay(events).value, id), Project(events, id))
  {
    if events != [] {
      var init, e := events[..|events| - 1], events[|events| - 1];
      AcceptedExactlyShaped(init);
      var own := e.body.operationId;
      assert Project(events, own) == Project(init, own) + [e.body];
      assert forall id :: id != own ==> Project(events, id) == Project(init, id);
      if Replay(init).Some? {
        assert Shaped(Project(init, own));
        ShapeStep(Project(init, own), e, Lookup(Replay(init).value, own));
        if Replay(events).Some? {
          forall id ensures Shaped(Project(events, id)) {
            assert Shaped(Project(init, id));
          }
        } else {
          assert !Shaped(Project(events, own));
        }
      } else {
        var id :| !Shaped(Project(init, id));
        if AllShaped(events) {
          assert Shaped(Project(events, id));
          assert id == own;
          ShapePrefix(Project(init, own), e.body);
        }
      }
    }
  }

  /** An operation id that once succeeded never appears in a later event. */
  lemma SucceededIsFinal(events: seq<Event>, id: OperationId, i: nat)
    requires Replay(events).Some?
    requires i < |Project(events, id)| && Project(events, id)[i].status == Succeeded
    ensures i == |Project(events, id)| - 1
    ensures id in Replay(events).value && Replay(events).value[id].status == Succeeded
  {
    AcceptedExactlyShaped(events);
    assert Shaped(Project(events, id));
    assert ShapedAt(Project(events, id), i);
    assert Reflects(Lookup(Replay(events).value, id), Project(events, id));
  }

  // ---------------------------------------------------------------------------------------
  // Writing
  // ---------------------------------------------------------------------------------------

  lemma LinksAppend(lines: seq<Line<Body>>, link: Event)
    requires AllWhole(lines)
    ensures AllWhole(lines + [Whole(link)])
    ensures Links(lines + [Whole(link)]) == Links(lines) + [link]
  {
    var longer := lines + [Whole(link)];
    assert longer[..|longer| - 1] == lines;
  }

  lemma ReplayAppend(events: seq<Event>, e: Event)
    requires Replay(events).Some?
    ensures var next := ApplyEvent(Lookup(Replay(events).value, e.body.operationId), e);
            Replay(events + [e]) ==
            if next.Some? then Some(Replay(events).value[e.body.operationId := next.value]) else None
  {
    assert (events + [e])[..|events|] == events;
  }

  /** An event that the fold accepts, sealed by the writer, verifies on the next read. */
  lemma AppendAccepted(sign: Signer<Body>, lines: seq<Line<Body>>, body: Body)
    requires Accepted(sign, lines)
    requires ApplyEvent(Lookup(StatesOf(sign, lines), body.operationId),
                        NextLink(sign, Links(lines), body)).Some?
    ensures Accepted(sign, lines + [Whole(NextLink(sign, Links(lines), body))])
    ensures StatesOf(sign, lines + [Whole(NextLink(sign, Links(lines), body))])
            == StatesOf(sign, lines)[body.operationId :=
                 ApplyEvent(Lookup(StatesOf(sign, lines), body.operationId),
                            NextLink(sign, Links(lines), body)).value]
  {
    hide Replay, ApplyEvent;
    var link := NextLink(sign, Links(lines), body);
    LinksAppend(lines, link);
    AppendChained(sign, Links(lines), body);
    ReplayAppend(Links(lines), link);
  }

  /** A crash in the middle of an append fails closed: no journal with a torn line is accepted,
      whatever is written after it. */
  lemma TornLineNeverAccepted(sign: Signer<Body>, lines: seq<Line<Body>>, more: seq<Line<Body>>)
    ensures !Accepted(sign, lines + [Torn] + more)
  {
    assert (lines + [Torn] + more)[|lines|] == Torn;
  }

  class OperationJournal {
    var lines: seq<Line<Body>>
    const sign: Signer<Body>

    constructor (sign: Signer<Body>)
      ensures this.sign == sign && lines == [] && Valid() && Current() == map[]
    {
      this.sign := sign;
      lines := [];
    }

    ghost predicate Valid()
      reads this
    {
      Accepted(sign, lines)
    }

    ghost function Current(): States
      reads this
      requires Valid()
    {
      StatesOf(sign, lines)
    }

    /** Re-read the file, check every link and fold the states; succeeds exactly on an accepted
        journal and then returns its events and their fold. */
    method ReadAndVerify() returns (r: Result<(seq<Event>, States), JournalError>)
      ensures r.Success? <==> Accepted(sign, lines)
      ensures r.Success? ==> r.value.0 == Links(lines) && r.value.1 == StatesOf(sign, lines)
      ensures r.Failure? ==> r.error == Integrity
    {
      var events: seq<Event> := [];
      var states: States := map[];
      var previousHash := GENESIS_HASH;
      var lineNumber := 0;
      while lineNumber < |lines|
        invariant 0 <= lineNumber <= |lines|
        invariant AllWhole(lines[..lineNumber]) && events == Links(lines[..lineNumber])
        invariant Chained(sign, events) && previousHash == Head(events)
        invariant Replay(events) == Some(states)
      {
        var line := lines[lineNumber];
        assert lines[..lineNumber + 1] == lines[..lineNumber] + [line];
        if line.Torn? {
          return Failure(Integrity);
        }
        var event := line.link;
        LinksAppend(lines[..lineNumber], event);
        OnlyNextLinkExtends(sign, events, event);
        assert (events + [event])[..|events|] == events;
        lineNumber := lineNumber + 1;
        var next := ApplyEvent(Lookup(states, event.body.operationId), event);
        if event.sequence != lineNumber || event.previousHash != previousHash
           || event.eventHash != sign(event.sequence, event.body, event.previousHash) || next.None? {
          RejectedPrefix(sign, lines, lineNumber);
          return Failure(Integrity);
        }
        states := states[event.body.operationId := next.value];
        previousHash := event.eventHash;
        events := events + [event];
      }
      assert lines[..lineNumber] == lines;
      return Success((events, states));
    }

    method Append(body: Body, ghost before: States, ghost after: State)
      requires Valid() && before == Current()
      requires ApplyEvent(Lookup(Current(), body.operationId), NextLink(sign, Links(lines), body)) == Some(after)
      modifies this
      ensures Valid() && Current() == before[body.operationId := after]
      ensures lines == old(lines) + [Whole(NextLink(sign, Links(old(lines)), body))]
    {
      AppendAccepted(sign, lines, body);
      var events := Links(lines);
      lines := lines + [Whole(NextLink(sign, events, body))];
    }

    /** Start once, or return the existing state of a duplicate request. */
    method Begin(id: OperationId, action: string, target: string, now: int)
      returns (r: Result<State, JournalError>)
      requires Valid()
      modifies this
      ensures Valid()
      ensures r.Failure? <==>
                (id in old(Current()) &&
                 (old(Current())[id].action != action || old(Current())[id].target != target))
      ensures r.Failure? ==> r.error == Conflict
      ensures r.Success? ==> id in Current() && r.value == Current()[id]
      ensures id in old(Current()) ==> lines == old(lines)
      ensures id !in old(Current()) ==>
                && Current() == old(Current())[id := r.value] && |lines| == |old(lines)| + 1
                && r.value == State(id, 1, action, target, Started, now, None, None, |lines|)
    {
      var read := ReadAndVerify();
      var states := read.value.1;
      if id in states {
        if states[id].action != action || states[id].target != target {
          return Failure(Conflict);
        }
        return Success(states[id]);
      }
      var body := Body(id, 1, action, target, Started, now, None);
      var state := InitialState(NextLink(sign, read.value.0, body));
      Append(body, states, state);
      return Success(state);
    }

    /** Begin the next attempt of a failed operation; a started one is returned unchanged. */
    method Retry(id: OperationId, now: int) returns (r: Result<State, JournalError>)
      requires Valid()
      modifies this
      ensures Valid()
      ensures r.Success? <==>
                (id in old(Current()) &&
                 match old(Current())[id].status
                 case Started => true
                 case Succeeded => false
                 case Failed => old(Current())[id].finishedAt.Some? && old(Current())[id].finishedAt.value <= now)
      ensures r.Failure? ==> r.error == Transition && lines == old(lines)
      ensures r.Success? ==> id in Current() && r.value == Current()[id] && r.value.status == Started
      ensures r.Success? && old(Current())[id].status == Started ==> lines == old(lines)
      ensures r.Success? && old(Current())[id].status == Failed ==>
                && Current() == old(Current())[id := r.value] && |lines| == |old(lines)| + 1
                && r.value == State(id, old(Current())[id].attempt + 1, old(Current())[id].action,
                                    old(Current())[id].target, Started, now, None, None, |lines|)
    {
      var read := ReadAndVerify();
      var states := read.value.1;
      if id !in states {
        return Failure(Transition);
      }
      var current := states[id];
      if current.status == Started {
        return Success(current);
      }
      if current.status == Succeeded {
        return Failure(Transition);
      }
      if current.finishedAt.None? || now < current.finishedAt.value {
        return Failure(Transition);
      }
      var body := Body(id, current.attempt + 1, current.action, current.target, Started, now, None);
      AttemptPositive(sign, lines, id);
      var state := InitialState(NextLink(sign, read.value.0, body));
      Append(body, states, state);
      return Success(state);
    }

    /** Close the current attempt as succeeded (no error code) or failed (with one). */
    method Finish(id: OperationId, errorCode: Option<string>, now: int)
      returns (r: Result<State, JournalError>)
      requires Valid()
      modifies this
      ensures Valid()
      ensures r.Success? <==>
                (id in old(Current()) &&
                 var current := old(Current())[id];
                 var status := if errorCode.None? then Succeeded else Failed;
                 || (current.status == status && current.errorCode == errorCode)
                 || (current.status == Started && current.startedAt <= now))
      ensures r.Failure? ==> lines == old(lines)
      ensures r.Success? ==> id in Current() && r.value == Current()[id]
      ensures r.Success? && old(Current())[id].status != Started ==> lines == old(lines)
      ensures r.Success? && old(Current())[id].status == Started ==>
                && Current() == old(Current())[id := r.value] && |lines| == |old(lines)| + 1
                && r.value == old(Current())[id].(
                     status := if errorCode.None? then Succeeded else Failed,
                     finishedAt := Some(now), errorCode := errorCode, lastSequence := |lines|)
    {
      var read := ReadAndVerify();
      var states := read.value.1;
      var status := if errorCode.None? then Succeeded else Failed;
      if id !in states {
        return Failure(Transition);
      }
      var current := states[id];
      AttemptPositive(sign, lines, id);
      if current.status == status {
        if status != Failed || current.errorCode == errorCode {
          return Success(current);
        }
      }
      if current.status != Started {
        return Failure(Transition);
      }
      if now < current.startedAt {
        return Failure(Integrity);
      }
      var body := Body(id, current.attempt, current.action, current.target, status, now, errorCode);
      var state := TerminalState(current, NextLink(sign, read.value.0, body));
      Append(body, states, state);
      return Success(state);
    }

    method StateOf(id: OperationId) returns (r: Option<State>)
      requires Valid()
      ensures r == Lookup(Current(), id)
    {
      var read := ReadAndVerify();
      return Lookup(read.value.1, id);
    }

    /** The started attempts that require resume or explicit failure. */
    method Pending() returns (ids: set<OperationId>)
      requires Valid()
      ensures forall id :: id in ids <==> id in Current() && Current()[id].status == Started
    {
      var read := ReadAndVerify();
      return set id | id in read.value.1 && read.value.1[id].status == Started;
    }
  }

  /** Folded states carry a positive attempt number, and an error code exactly after failure. */
  lemma AttemptPositive(sign: Signer<Body>, lines: seq<Line<Body>>, id: OperationId)
    requires Accepted(sign, lines) && id in StatesOf(sign, lines)
    ensures var s := StatesOf(sign, lines)[id];
            s.attempt >= 1 && (s.status == Failed <==> s.errorCode.Some?)
    ensures var s := StatesOf(sign, lines)[id];
            s.status == Started <==> s.finishedAt.None?
  {
    var events := Links(lines);
    AcceptedExactlyShaped(events);
    var bs := Project(events, id);
    assert Reflects(Lookup(Replay(events).value, id), bs);
    assert ShapedAt(bs, |bs| - 1);
  }

  lemma {:induction false} ReplayPrefix(events: seq<Event>, k: nat)
    requires k <= |events| && Replay(events).Some?
    ensures Replay(events[..k]).Some?
    decreases |events| - k
  {
    if k < |events| {
      ReplayPrefix(events, k + 1);
      assert events[..k + 1][..k] == events[..k];
    } else {
      assert events[..k] == events;
    }
  }

  /** A journal whose first `k` lines are rejected is rejected as a whole. */
  lemma RejectedPrefix(sign: Signer<Body>, lines: seq<Line<Body>>, k: nat)
    requires k <= |lines| && !Accepted(sign, lines[..k])
    ensures !Accepted(sign, lines)
  {
    if Accepted(sign, lines) {
      assert Links(lines)[..k] == Links(lines[..k]);
      PrefixChained(sign, Links(lines), k);
      ReplayPrefix(Links(lines), k);
    }
  }
}

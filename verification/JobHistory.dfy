/** What may ever happen to durable jobs (src/plaik_core/jobs.py): the events of a queue folded
    into one trace per job, and the properties of every history that folds. */
module JobHistories {
  import opened Prelude

  type JobId = nat

  datatype Event =
    | Enqueued(id: JobId)
    | Claimed(id: JobId, worker: string, token: nat, expires: int)
    | Finished(id: JobId, worker: string, token: nat, at: int, requeued: bool)
    | Expired(id: JobId, token: nat, at: int, requeued: bool)
    | Cancelled(id: JobId)
    | Purged(id: JobId)

  /** Where one job stands; `n` counts its claims and is its fencing token. */
  datatype Trace =
    | Waiting(n: nat)
    | Leased(n: nat, worker: string, expires: int)
    | Closed(n: nat)
    | Gone(n: nat)

  type Traces = map<JobId, Trace>

  function Lookup(traces: Traces, id: JobId): Option<Trace> {
    if id in traces then Some(traces[id]) else None
  }

  function Released(n: nat, requeued: bool): Trace {
    if requeued then Waiting(n) else Closed(n)
  }

  /** One event, if it is possible in this state. A lease ends by an accepted finish of its own
      holder and token before it expires, by expiry, or by cancellation of its owner. */
  function Step(t: Option<Trace>, e: Event): Option<Trace> {
    match e
    case Enqueued(_) => if t.None? then Some(Waiting(0)) else None
    case Claimed(_, worker, token, expires) =>
      if t.Some? && t.value.Waiting? && token == t.value.n + 1 then Some(Leased(token, worker, expires)) else None
    case Finished(_, worker, token, at, requeued) =>
      if t.Some? && t.value.Leased? && t.value.n == token && t.value.worker == worker && at < t.value.expires
      then Some(Released(token, requeued)) else None
    case Expired(_, token, at, requeued) =>
      if t.Some? && t.value.Leased? && t.value.n == token && t.value.expires <= at
      then Some(Released(token, requeued)) else None
    case Cancelled(_) =>
      if t.Some? && (t.value.Waiting? || t.value.Leased?) then Some(Closed(t.value.n)) else None
    case Purged(_) =>
      if t.Some? && t.value.Closed? then Some(Gone(t.value.n)) else None
  }

  function Fold(h: seq<Event>): Option<Traces> {
    if h == [] then Some(map[])
    else
      var before := Fold(h[..|h| - 1]);
      var e := h[|h| - 1];
      if before.None? then None
      else
        var next := Step(Lookup(before.value, e.id), e);
        if next.None? then None else Some(before.value[e.id := next.value])
  }

  lemma FoldAppend(h: seq<Event>, e: Event)
    ensures (h + [e])[..|h|] == h
    ensures Fold(h + [e]) ==
            if Fold(h).None? then None
            else
              var next := Step(Lookup(Fold(h).value, e.id), e);
              if next.None? then None else Some(Fold(h).value[e.id := next.value])
  {
    assert (h + [e])[..|h|] == h;
  }

  lemma {:induction false} FoldPrefix(h: seq<Event>, k: nat)
    requires k <= |h| && Fold(h).Some?
    ensures Fold(h[..k]).Some?
    decreases |h| - k
  {
    if k < |h| {
      FoldPrefix(h, k + 1);
      assert h[..k + 1][..k] == h[..k];
    } else {
      assert h[..k] == h;
    }
  }

  /** The event at `k` was possible, and decides the trace of its job. */
  lemma StepAt(h: seq<Event>, k: nat)
    requires k < |h| && Fold(h).Some?
    ensures Fold(h[..k]).Some? && Fold(h[..k + 1]).Some?
    ensures var next := Step(Lookup(Fold(h[..k]).value, h[k].id), h[k]);
            next.Some? && Fold(h[..k + 1]).value == Fold(h[..k]).value[h[k].id := next.value]
  {
    FoldPrefix(h, k + 1);
    FoldPrefix(h, k);
    assert h[..k + 1][..k] == h[..k];
  }

  predicate Ends(e: Event, id: JobId, token: nat) {
    (e.Finished? || e.Expired?) && e.id == id && e.token == token
  }

  /** From its claim on, a token is held until an event ends it; afterwards the job only has
      greater tokens or is closed. */
  lemma {:induction false} HeldUntilEnded(h: seq<Event>, i: nat, j: nat)
    requires i < j <= |h| && Fold(h).Some? && h[i].Claimed?
    ensures Fold(h[..j]).Some? && h[i].id in Fold(h[..j]).value
    ensures var t := Fold(h[..j]).value[h[i].id];
            && t.n >= h[i].token
            && (t.n > h[i].token || t.Waiting? ==> exists k :: i < k < j && Ends(h[k], h[i].id, h[i].token))
            && (t.Leased? && t.n == h[i].token ==> t == Leased(h[i].token, h[i].worker, h[i].expires))
            && (t.Leased? && t.n == h[i].token ==>
                  forall k :: i < k < j ==> !Ends(h[k], h[i].id, h[i].token))
    decreases j
  {
    StepAt(h, j - 1);
    if j > i + 1 {
      HeldUntilEnded(h, i, j - 1);
    }
  }

  /** Leases of one job never overlap: between two claims the first token was ended, and the
      second token is greater. No clock is involved. */
  lemma LeasesNeverOverlap(h: seq<Event>, i: nat, j: nat)
    requires i < j < |h| && Fold(h).Some? && h[i].Claimed? && h[j].Claimed? && h[i].id == h[j].id
    ensures h[i].token < h[j].token
    ensures exists k :: i < k < j && Ends(h[k], h[i].id, h[i].token)
  {
    StepAt(h, j);
    HeldUntilEnded(h, i, j);
  }

  /** Every ended lease was claimed before, by the same worker when it was finished. */
  lemma {:induction false} LeaseWasClaimed(h: seq<Event>, j: nat, id: JobId) returns (i: nat)
    requires j <= |h| && Fold(h).Some?
    requires FoldPrefixTrace(h, j, id).Some? && FoldPrefixTrace(h, j, id).value.Leased?
    ensures i < j && h[i].Claimed? && h[i].id == id
    ensures FoldPrefixTrace(h, j, id) == Some(Leased(h[i].token, h[i].worker, h[i].expires))
    decreases j
  {
    StepAt(h, j - 1);
    if h[j - 1].id == id {
      i := j - 1;
    } else {
      i := LeaseWasClaimed(h, j - 1, id);
    }
  }

  function FoldPrefixTrace(h: seq<Event>, j: nat, id: JobId): Option<Trace>
    requires j <= |h| && Fold(h).Some?
  {
    FoldPrefix(h, j);
    Lookup(Fold(h[..j]).value, id)
  }

  /** A token is accepted for at most one finish, and one that expired is never accepted. */
  lemma TokenEndsOnce(h: seq<Event>, i: nat, j: nat, id: JobId, first: nat, second: nat)
    requires i < j < |h| && Fold(h).Some?
    requires Ends(h[i], id, first) && Ends(h[j], id, second)
    ensures first < second
  {
    StepAt(h, i);
    var claim := LeaseWasClaimed(h, i, id);
    StepAt(h, j);
    HeldUntilEnded(h, claim, j);
    assert Ends(h[i], h[claim].id, h[claim].token);
  }

  /** An accepted finish comes from the worker the token was issued to, before the lease expires. */
  lemma FinishIsByHolder(h: seq<Event>, j: nat) returns (i: nat)
    requires j < |h| && Fold(h).Some? && h[j].Finished?
    ensures i < j && h[i].Claimed? && h[j].at < h[i].expires
    ensures h[i].id == h[j].id && h[i].worker == h[j].worker && h[i].token == h[j].token
    ensures forall k :: i < k < j ==> !Ends(h[k], h[j].id, h[j].token)
  {
    StepAt(h, j);
    i := LeaseWasClaimed(h, j, h[j].id);
    HeldUntilEnded(h, i, j);
  }

  function Claims(h: seq<Event>, id: JobId): nat {
    if h == [] then 0
    else Claims(h[..|h| - 1], id) + if h[|h| - 1].Claimed? && h[|h| - 1].id == id then 1 else 0
  }

  /** The fencing token of a job is the number of times it was claimed. */
  lemma {:induction false} TokenCountsClaims(h: seq<Event>, id: JobId)
    requires Fold(h).Some?
    ensures Claims(h, id) == if id in Fold(h).value then Fold(h).value[id].n else 0
  {
    if h != [] {
      TokenCountsClaims(h[..|h| - 1], id);
    }
  }

  /** A closed job stays closed, at the same token, until it is purged; a purged id never returns. */
  lemma {:induction false} ClosedStaysClosed(h: seq<Event>, i: nat, j: nat, id: JobId)
    requires i <= j <= |h| && Fold(h).Some?
    requires FoldPrefixTrace(h, i, id).Some?
    requires FoldPrefixTrace(h, i, id).value.Closed? || FoldPrefixTrace(h, i, id).value.Gone?
    ensures FoldPrefixTrace(h, j, id) == FoldPrefixTrace(h, i, id) ||
            FoldPrefixTrace(h, j, id) == Some(Gone(FoldPrefixTrace(h, i, id).value.n))
    decreases j
  {
    if i < j {
      ClosedStaysClosed(h, i, j - 1, id);
      StepAt(h, j - 1);
    }
  }
}

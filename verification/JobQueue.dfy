/** The durable job queue, its runner and its drain pump (src/plaik_core/jobs.py). Each public
    operation holds the file lock and replaces the file once, so it is one step here. Times are
    microseconds on any clock, which need not be monotonic. */
module JobQueues {
  import opened Prelude
  import opened JobHistories

  datatype Status = Queued | Running | Succeeded | Failed

  datatype Job = Job(
    id: JobId, kind: string, key: string, payload: string, status: Status, attempts: nat,
    maximum: nat, scheduledAt: int, createdAt: int, updatedAt: int, leaseOwner: Option<string>,
    leaseExpiresAt: Option<int>, token: nat, error: Option<string>)

  type Jobs = map<JobId, Job>

  datatype QueueError = InvalidRequest | KeyBound | CapacityExhausted | Missing | NotOwner | StaleToken | LeaseExpired | Overflow

  predicate Terminal(r: Job) {
    r.status == Succeeded || r.status == Failed
  }

  // ---------------------------------------------------------------------------------------
  // Retry delay
  // ---------------------------------------------------------------------------------------

  function PowerOfTwo(n: nat): (p: nat)
    ensures p >= 1
  {
    if n == 0 then 1 else 2 * PowerOfTwo(n - 1)
  }

  function RetryDelay(base: int, cap: int, attempts: nat): int
    requires attempts >= 1
  {
    var delay := base * PowerOfTwo(attempts - 1);
    if delay <= cap then delay else cap
  }

  /** The longest `timedelta`: 999999999 days, 23:59:59.999999. */
  const LONGEST_DELAY := 86399999999999999999

  /** The doubled delay is computed before it is capped, and cannot be represented. */
  predicate DelayOverflows(base: int, attempts: nat)
    requires attempts >= 1
  {
    base * PowerOfTwo(attempts - 1) > LONGEST_DELAY
  }

  /** No retry of a job with any allowed number of attempts overflows. */
  predicate NeverOverflows(base: int) {
    forall attempts :: 1 <= attempts < 32 ==> !DelayOverflows(base, attempts)
  }

  lemma {:induction false} PowerGrows(n: nat, m: nat)
    requires n <= m
    ensures PowerOfTwo(n) <= PowerOfTwo(m)
    decreases m
  {
    if n < m {
      PowerGrows(n, m - 1);
    }
  }

  lemma {:induction false} PowerOfThirty(n: nat)
    requires n <= 30
    ensures PowerOfTwo(n) == if n == 0 then 1 else 2 * PowerOfTwo(n - 1)
    ensures n == 30 ==> PowerOfTwo(n) == 1073741824
  {
    assert PowerOfTwo(5) == 32;
    assert PowerOfTwo(10) == 32 * PowerOfTwo(5);
    assert PowerOfTwo(15) == 32 * PowerOfTwo(10);
    assert PowerOfTwo(20) == 32 * PowerOfTwo(15);
    assert PowerOfTwo(25) == 32 * PowerOfTwo(20);
    assert PowerOfTwo(30) == 32 * PowerOfTwo(25);
  }

  lemma Scaled(base: int, p: nat, q: nat)
    requires base > 0 && p <= q
    ensures base * p <= base * q
  {
    assert base * (q - p) >= 0;
  }

  lemma OverflowAtTheLimit(base: int)
    ensures DelayOverflows(base, 31) <==> base * 1073741824 > LONGEST_DELAY
  {
    PowerOfThirty(30);
    hide PowerOfTwo;
    assert base * PowerOfTwo(30) == base * 1073741824;
  }

  lemma OverflowGrows(base: int, attempts: nat)
    requires base > 0 && 1 <= attempts < 32 && DelayOverflows(base, attempts)
    ensures DelayOverflows(base, 31)
  {
    hide PowerOfTwo;
    PowerGrows(attempts - 1, 30);
    Scaled(base, PowerOfTwo(attempts - 1), PowerOfTwo(30));
  }

  /** Failing a job raises for some number of attempts exactly when the base delay is above about
      22 hours: the power is taken before the cap. */
  lemma NeverOverflowsExactly(base: int)
    requires base > 0
    ensures NeverOverflows(base) <==> base * 1073741824 <= LONGEST_DELAY
  {
    hide DelayOverflows;
    OverflowAtTheLimit(base);
    forall attempts | 1 <= attempts < 32 && DelayOverflows(base, attempts) ensures DelayOverflows(base, 31) {
      OverflowGrows(base, attempts);
    }
  }

  /** The delay starts at the base, doubles with every attempt until it reaches the cap, never
      shrinks and never leaves [base, cap]. */
  lemma RetryDelayBounds(base: int, cap: int, attempts: nat)
    requires 0 < base <= cap && attempts >= 1
    ensures base <= RetryDelay(base, cap, attempts) <= cap
    ensures RetryDelay(base, cap, 1) == base
    ensures RetryDelay(base, cap, attempts + 1) ==
            if 2 * RetryDelay(base, cap, attempts) <= cap then 2 * RetryDelay(base, cap, attempts) else cap
    ensures RetryDelay(base, cap, attempts) <= RetryDelay(base, cap, attempts + 1)
  {
    var p := PowerOfTwo(attempts - 1);
    assert base * p >= base * 1;
    assert PowerOfTwo(attempts) == 2 * p;
    assert base * (2 * p) == 2 * (base * p);
  }

  // ---------------------------------------------------------------------------------------
  // What the operations do to one record
  // ---------------------------------------------------------------------------------------

  predicate LeaseOver(r: Job, now: int) {
    r.status == Running && r.leaseExpiresAt.Some? && r.leaseExpiresAt.value <= now
  }

  function ExpireIfOver(r: Job, now: int): Job {
    if !LeaseOver(r, now) then r
    else
      r.(status := if r.attempts >= r.maximum then Failed else Queued, scheduledAt := now, updatedAt := now,
         leaseOwner := None, leaseExpiresAt := None, error := Some("job.lease_expired"))
  }

  function Recovered(records: Jobs, now: int): Jobs {
    map id | id in records :: ExpireIfOver(records[id], now)
  }

  function CancelIfOwned(r: Job, prefix: string, now: int): Job {
    if Terminal(r) || !(prefix <= r.kind) then r
    else r.(status := Failed, updatedAt := now, leaseOwner := None, leaseExpiresAt := None,
            error := Some("job.owner_inactive"))
  }

  function LeaseTo(r: Job, worker: string, expires: int, now: int): Job {
    r.(status := Running, attempts := r.attempts + 1, updatedAt := now, leaseOwner := Some(worker),
       leaseExpiresAt := Some(expires), token := r.token + 1, error := None)
  }

  predicate Due(r: Job, now: int) {
    r.status == Queued && r.scheduledAt <= now
  }

  /** The claim order: due time, then creation, then id. */
  predicate Before(a: Job, b: Job) {
    || a.scheduledAt < b.scheduledAt
    || (a.scheduledAt == b.scheduledAt && (a.createdAt < b.createdAt || (a.createdAt == b.createdAt && a.id < b.id)))
  }

  predicate NothingDue(records: Jobs, now: int) {
    forall id :: id in records ==> !Due(records[id], now)
  }

  predicate FirstInLine(records: Jobs, id: JobId, now: int) {
    && id in records && Due(records[id], now)
    && forall other :: other in records && Due(records[other], now) && other != id ==> Before(records[id], records[other])
  }

  /** What one pass over the records has changed so far, `rest` being still ahead. */
  function RecoveredBut(records: Jobs, rest: set<JobId>, now: int): Jobs {
    map id | id in records :: if id in rest then records[id] else ExpireIfOver(records[id], now)
  }

  function CancelledBut(records: Jobs, rest: set<JobId>, prefix: string, now: int): Jobs {
    map id | id in records :: if id in rest then records[id] else CancelIfOwned(records[id], prefix, now)
  }

  function Cancellable(records: Jobs, prefix: string): set<JobId> {
    set id | id in records && !Terminal(records[id]) && prefix <= records[id].kind
  }

  lemma PassStep(records: Jobs, rest: set<JobId>, id: JobId, prefix: string, now: int)
    requires id in rest && id in records
    ensures RecoveredBut(records, rest - {id}, now) ==
            RecoveredBut(records, rest, now)[id := ExpireIfOver(records[id], now)]
    ensures CancelledBut(records, rest - {id}, prefix, now) ==
            CancelledBut(records, rest, prefix, now)[id := CancelIfOwned(records[id], prefix, now)]
    ensures var ahead := Cancellable(records, prefix);
            |ahead * (rest - {id})| == |ahead * rest| - if id in ahead then 1 else 0
  {
    hide ExpireIfOver, CancelIfOwned, Cancellable;
    var ahead := Cancellable(records, prefix);
    if id in ahead {
      assert ahead * rest == ahead * (rest - {id}) + {id};
    } else {
      assert ahead * rest == ahead * (rest - {id});
    }
  }

  lemma PassEnds(records: Jobs, prefix: string, now: int)
    ensures RecoveredBut(records, records.Keys, now) == records && RecoveredBut(records, {}, now) == Recovered(records, now)
    ensures CancelledBut(records, records.Keys, prefix, now) == records
    ensures Cancellable(records, prefix) * records.Keys == Cancellable(records, prefix)
  {
  }

  predicate Purgeable(r: Job, cutoff: int) {
    Terminal(r) && r.updatedAt < cutoff
  }

  predicate PurgedFirst(a: Job, b: Job) {
    a.updatedAt < b.updatedAt || (a.updatedAt == b.updatedAt && a.id < b.id)
  }

  /** A record that was purgeable and precedes all that still are. */
  predicate PurgedBefore(r: Job, rest: Jobs, cutoff: int) {
    Purgeable(r, cutoff) && forall id :: id in rest && Purgeable(rest[id], cutoff) ==> PurgedFirst(r, rest[id])
  }

  /** The purged records were purgeable and precede every purgeable one that stays. */
  predicate OldestPurged(records: Jobs, purged: set<JobId>, cutoff: int) {
    purged <= records.Keys && forall gone :: gone in purged ==> PurgedBefore(records[gone], records - purged, cutoff)
  }

  lemma PurgeStep(records: Jobs, purged: set<JobId>, id: JobId, cutoff: int)
    requires OldestPurged(records, purged, cutoff) && id in records - purged
    requires PurgedBefore(records[id], records - purged - {id}, cutoff)
    ensures records - purged - {id} == records - (purged + {id})
    ensures OldestPurged(records, purged + {id}, cutoff)
  {
  }

  predicate LastIs(h: seq<Event>, e: Event) {
    h != [] && h[|h| - 1] == e
  }

  ghost predicate TerminalKept(before: Jobs, after: Jobs) {
    forall id :: id in before && Terminal(before[id]) ==> id in after && after[id] == before[id]
  }

  lemma ClaimKeepsTerminal(records: Jobs, now: int)
    ensures TerminalKept(records, Recovered(records, now))
    ensures forall id, r {:trigger Recovered(records, now)[id := r]} :: FirstInLine(Recovered(records, now), id, now) ==>
              TerminalKept(records, Recovered(records, now)[id := r])
  {
  }

  // ---------------------------------------------------------------------------------------
  // Remaining attempts
  // ---------------------------------------------------------------------------------------

  function AttemptsLeft(r: Job): nat {
    if Terminal(r) || r.attempts >= r.maximum then 0 else r.maximum - r.attempts
  }

  /** The attempts all unfinished jobs may still use. */
  ghost function Remaining(records: Jobs): nat
    decreases |records|
  {
    if records == map[] then 0
    else
      var id :| id in records;
      assert |records - {id}| < |records| by { Smaller(records, id); }
      AttemptsLeft(records[id]) + Remaining(records - {id})
  }

  lemma Smaller(records: Jobs, id: JobId)
    requires id in records
    ensures |records - {id}| < |records|
  {
    assert (records - {id}).Keys == records.Keys - {id};
    assert |(records - {id}).Keys| == |records.Keys| - 1;
  }

  lemma {:induction false} RemainingWithout(records: Jobs, id: JobId)
    requires id in records
    ensures Remaining(records) == AttemptsLeft(records[id]) + Remaining(records - {id})
    decreases |records|
  {
    var other :| other in records && Remaining(records) == AttemptsLeft(records[other]) + Remaining(records - {other});
    if other != id {
      Smaller(records, other);
      Smaller(records, id);
      RemainingWithout(records - {other}, id);
      RemainingWithout(records - {id}, other);
      assert records - {other} - {id} == records - {id} - {other};
    }
  }

  lemma RemainingPut(records: Jobs, id: JobId, r: Job)
    ensures Remaining(records[id := r]) ==
            Remaining(records) + AttemptsLeft(r) - if id in records then AttemptsLeft(records[id]) else 0
  {
    RemainingWithout(records[id := r], id);
    if id in records {
      RemainingWithout(records, id);
      assert records[id := r] - {id} == records - {id};
    } else {
      assert records[id := r] - {id} == records;
    }
  }

  // ---------------------------------------------------------------------------------------
  // The queue
  // ---------------------------------------------------------------------------------------

  /** A stored record and the trace its history gives it. */
  ghost predicate Mirrors(r: Job, id: JobId, t: Trace) {
    && r.id == id && r.attempts == r.token == t.n && 1 <= r.maximum <= 32 && r.attempts <= r.maximum
    && match t
       case Waiting(n) => r.status == Queued && n < r.maximum && r.leaseOwner == None && r.leaseExpiresAt == None
       case Leased(n, worker, expires) =>
         r.status == Running && n >= 1 && r.leaseOwner == Some(worker) && r.leaseExpiresAt == Some(expires)
       case Closed(n) => Terminal(r) && r.leaseOwner == None && r.leaseExpiresAt == None
       case Gone(_) => false
  }

  ghost predicate AllMirror(records: Jobs, traces: Traces) {
    && (forall id :: id in records <==> id in traces && !traces[id].Gone?)
    && (forall id :: id in records ==> Mirrors(records[id], id, traces[id]))
  }

  predicate KeysDiffer(records: Jobs, a: JobId, b: JobId) {
    a in records && b in records && a != b ==> records[a].key != records[b].key
  }

  /** One record per idempotency key. */
  ghost predicate KeysUnique(records: Jobs) {
    forall a, b {:trigger KeysDiffer(records, a, b)} :: KeysDiffer(records, a, b)
  }

  ghost predicate Consistent(records: Jobs, traces: Traces, maximumRecords: nat) {
    |records| <= maximumRecords && KeysUnique(records) && AllMirror(records, traces)
  }

  lemma PutKeepsMirrors(records: Jobs, traces: Traces, id: JobId, r: Job, t: Trace)
    requires AllMirror(records, traces) && Mirrors(r, id, t)
    ensures AllMirror(records[id := r], traces[id := t])
  {
  }

  lemma PutKeepsKeys(records: Jobs, id: JobId, r: Job)
    requires KeysUnique(records)
    requires if id in records then r.key == records[id].key else forall other :: other in records ==> records[other].key != r.key
    ensures KeysUnique(records[id := r])
  {
    var after := records[id := r];
    forall a, b ensures KeysDiffer(after, a, b) {
      assert KeysDiffer(records, a, b);
    }
  }

  lemma PutKeepsSize(records: Jobs, id: JobId, r: Job)
    ensures |records[id := r]| == |records| + if id in records then 0 else 1
  {
    assert records[id := r].Keys == records.Keys + {id};
    assert id in records ==> records.Keys + {id} == records.Keys;
    assert |records[id := r].Keys| == |records.Keys| + if id in records then 0 else 1;
  }

  lemma PutKeepsConsistent(records: Jobs, traces: Traces, maximumRecords: nat, id: JobId, r: Job, t: Trace)
    requires Consistent(records, traces, maximumRecords) && Mirrors(r, id, t)
    requires if id in records then r.key == records[id].key
             else |records| < maximumRecords && forall other :: other in records ==> records[other].key != r.key
    ensures Consistent(records[id := r], traces[id := t], maximumRecords)
  {
    PutKeepsMirrors(records, traces, id, r, t);
    PutKeepsKeys(records, id, r);
    PutKeepsSize(records, id, r);
  }

  lemma DropKeepsConsistent(records: Jobs, traces: Traces, maximumRecords: nat, id: JobId, n: nat)
    requires Consistent(records, traces, maximumRecords) && id in records
    ensures Consistent(records - {id}, traces[id := Gone(n)], maximumRecords)
  {
    Smaller(records, id);
    var after := records - {id};
    forall a, b ensures KeysDiffer(after, a, b) {
      assert KeysDiffer(records, a, b);
    }
  }

  class DurableJobQueue {
    const base: int
    const cap: int
    const maximumRecords: nat
    var records: Jobs
    ghost var history: seq<Event>

    /** The history folds, and every record is what its trace says: attempts equal the fencing
        token, a queued job has attempts left, a lease is exactly the last claim. */
    ghost predicate Valid()
      reads this
    {
      0 < base <= cap && Fold(history).Some? && Consistent(records, Fold(history).value, maximumRecords)
    }

    constructor (base: int, cap: int, maximumRecords: nat)
      requires 0 < base <= cap
      ensures Valid() && records == map[] && history == []
      ensures this.base == base && this.cap == cap && this.maximumRecords == maximumRecords
    {
      this.base, this.cap, this.maximumRecords := base, cap, maximumRecords;
      records, history := map[], [];
    }

    /** Store one record and record the event that made it. */
    method Put(id: JobId, r: Job, ghost e: Event)
      requires Valid() && e.id == id
      requires var next := Step(JobHistories.Lookup(Fold(history).value, id), e); next.Some? && Mirrors(r, id, next.value)
      requires id in records ==> r.key == records[id].key
      requires id !in records ==>
                 |records| < maximumRecords && forall other :: other in records ==> records[other].key != r.key
      modifies this`records, this`history
      ensures Valid() && records == old(records)[id := r] && history == old(history) + [e]
      ensures Remaining(records) ==
              Remaining(old(records)) + AttemptsLeft(r) - if id in old(records) then AttemptsLeft(old(records)[id]) else 0
    {
      FoldAppend(history, e);
      RemainingPut(records, id, r);
      PutKeepsConsistent(records, Fold(history).value, maximumRecords, id, r,
                         Step(JobHistories.Lookup(Fold(history).value, id), e).value);
      records := records[id := r];
      history := history + [e];
    }

    /** A leased job has used between one and its maximum of attempts. */
    lemma LeasedWithinLimits(id: JobId)
      requires Valid() && id in records && records[id].status == Running
      ensures 1 <= records[id].attempts <= records[id].maximum <= 32
    {
    }

    /** What the history says about one stored record. */
    lemma Mirrored(id: JobId)
      requires Valid() && id in records
      ensures id in Fold(history).value && Mirrors(records[id], id, Fold(history).value[id])
    {
    }

    /** Enqueue once per idempotency key. */
    method Enqueue(id: JobId, kind: string, payload: string, key: string, maximum: nat, due: int, now: int)
      returns (r: Result<Job, QueueError>)
      requires Valid() && id !in Fold(history).value
      modifies this`records, this`history
      ensures Valid() && old(history) <= history
      ensures r.Failure? ==> records == old(records) && history == old(history)
      ensures r == Failure(InvalidRequest) <==> !(1 <= maximum <= 32)
      ensures 1 <= maximum <= 32 && (exists known :: known in old(records) && old(records)[known].key == key) ==>
                exists known :: known in old(records) && old(records)[known].key == key
                  && records == old(records) && history == old(history)
                  && r == if old(records)[known].kind == kind && old(records)[known].payload == payload
                          then Success(old(records)[known]) else Failure(KeyBound)
      ensures 1 <= maximum <= 32 && (forall known :: known in old(records) ==> old(records)[known].key != key) ==>
                if |old(records)| >= maximumRecords then r == Failure(CapacityExhausted)
                else
                  && r.Success? && records == old(records)[id := r.value] && id !in old(records)
                  && r.value == Job(id, kind, key, payload, Queued, 0, maximum, due, now, now, None, None, 0, None)
                  && Remaining(records) == Remaining(old(records)) + maximum
    {
      if !(1 <= maximum <= 32) {
        return Failure(InvalidRequest);
      }
      var existing := FindKey(key);
      if existing.Some? {
        var found := existing.value;
        assert records[found.id] == found;
        return if found.kind == kind && found.payload == payload then Success(found) else Failure(KeyBound);
      }
      if |records| >= maximumRecords {
        return Failure(CapacityExhausted);
      }
      var job := Job(id, kind, key, payload, Queued, 0, maximum, due, now, now, None, None, 0, None);
      Put(id, job, Enqueued(id));
      return Success(job);
    }

    method FindKey(key: string) returns (found: Option<Job>)
      requires Valid()
      ensures found.None? <==> forall id :: id in records ==> records[id].key != key
      ensures found.Some? ==> found.value.id in records && records[found.value.id] == found.value && found.value.key == key
    {
      var rest := records.Keys;
      while rest != {}
        invariant rest <= records.Keys
        invariant forall id :: id in records && id !in rest ==> records[id].key != key
        decreases rest
      {
        var id :| id in rest;
        if records[id].key == key {
          return Some(records[id]);
        }
        rest := rest - {id};
      }
      return None;
    }

    method ExpireOne(id: JobId, now: int)
      requires Valid() && id in records
      modifies this`records, this`history
      ensures Valid() && old(history) <= history
      ensures records == old(records)[id := ExpireIfOver(old(records)[id], now)]
      ensures Remaining(records) == Remaining(old(records))
    {
      hide Consistent, Fold;
      Mirrored(id);
      if LeaseOver(records[id], now) {
        ghost var e := Expired(id, records[id].token, now, records[id].attempts < records[id].maximum);
        Put(id, ExpireIfOver(records[id], now), e);
      } else {
        assert records[id := records[id]] == records;
      }
    }

    /** `_recover_expired`: requeue or close every lease that is over. */
    method RecoverExpired(now: int)
      requires Valid()
      modifies this`records, this`history
      ensures Valid() && old(history) <= history
      ensures records == Recovered(old(records), now) && Remaining(records) == Remaining(old(records))
    {
      ghost var start := records;
      var rest := records.Keys;
      PassEnds(start, "", now);
      while rest != {}
        invariant Valid() && old(history) <= history && rest <= start.Keys
        invariant records == RecoveredBut(start, rest, now) && Remaining(records) == Remaining(start)
        decreases rest
      {
        var id :| id in rest;
        PassStep(start, rest, id, "", now);
        ExpireOne(id, now);
        rest := rest - {id};
      }
    }

    /** The first due job in claim order. */
    method FirstDue(now: int) returns (first: Option<JobId>)
      requires Valid()
      ensures first.None? <==> NothingDue(records, now)
      ensures first.Some? ==> FirstInLine(records, first.value, now)
    {
      first := None;
      var rest := records.Keys;
      while rest != {}
        invariant rest <= records.Keys
        invariant first.None? ==> forall id :: id in records && id !in rest ==> !Due(records[id], now)
        invariant first.Some? ==>
                    && first.value in records && Due(records[first.value], now) && first.value !in rest
                    && forall id :: id in records && id !in rest && Due(records[id], now) && id != first.value ==>
                         Before(records[first.value], records[id])
        decreases rest
      {
        var id :| id in rest;
        if Due(records[id], now) && (first.None? || Before(records[id], records[first.value])) {
          first := Some(id);
        }
        rest := rest - {id};
      }
    }

    /** Recover what expired, then lease the first due job under the next fencing token. */
    method Claim(worker: string, lease: int, now: int) returns (claimed: Option<Job>)
      requires Valid()
      modifies this`records, this`history
      ensures Valid() && old(history) <= history && TerminalKept(old(records), records)
      ensures var ready := Recovered(old(records), now);
              if claimed.None? then
                records == ready && NothingDue(ready, now)
              else
                var id := claimed.value.id;
                && FirstInLine(ready, id, now)
                && claimed.value == LeaseTo(ready[id], worker, now + lease, now) && records == ready[id := claimed.value]
                && LastIs(history, Claimed(id, worker, claimed.value.token, now + lease))
      ensures Remaining(records) + (if claimed.Some? then 1 else 0) == Remaining(old(records))
    {
      ClaimKeepsTerminal(records, now);
      RecoverExpired(now);
      claimed := ClaimReady(worker, lease, now);
    }

    method ClaimReady(worker: string, lease: int, now: int) returns (claimed: Option<Job>)
      requires Valid()
      modifies this`records, this`history
      ensures Valid() && old(history) <= history
      ensures if claimed.None? then records == old(records) && NothingDue(records, now)
              else
                var id := claimed.value.id;
                && FirstInLine(old(records), id, now)
                && claimed.value == LeaseTo(old(records)[id], worker, now + lease, now)
                && records == old(records)[id := claimed.value]
                && LastIs(history, Claimed(id, worker, claimed.value.token, now + lease))
      ensures Remaining(records) + (if claimed.Some? then 1 else 0) == Remaining(old(records))
    {
      hide Consistent;
      var first := FirstDue(now);
      if first.None? {
        return None;
      }
      Mirrored(first.value);
      var job := Lease(first.value, worker, now + lease, now);
      return Some(job);
    }

    method Lease(id: JobId, worker: string, expires: int, now: int) returns (job: Job)
      requires Valid() && id in records && records[id].status == Queued
      modifies this`records, this`history
      ensures Valid() && job == LeaseTo(old(records)[id], worker, expires, now) && records == old(records)[id := job]
      ensures history == old(history) + [Claimed(id, worker, job.token, expires)]
      ensures Remaining(records) + 1 == Remaining(old(records))
    {
      hide Consistent, Fold;
      Mirrored(id);
      job := LeaseTo(records[id], worker, expires, now);
      Put(id, job, Claimed(id, worker, job.token, expires));
    }

    /** `succeed` and `fail`: refuse an unsafe error code, then accept the result of the current holder
        only. */
    method Finish(id: JobId, worker: string, token: nat, error: Option<string>, now: int)
      returns (r: Result<Job, QueueError>)
      requires Valid()
      modifies this`records, this`history
      ensures Valid() && old(history) <= history && TerminalKept(old(records), records)
      ensures r.Success? <==>
                && SafeError(error) && id in old(records) && Holds(old(records)[id], worker, token, now)
                && !RetryOverflows(old(records)[id], error)
      ensures r == Failure(InvalidRequest) <==> !SafeError(error)
      ensures r == Failure(Overflow) <==>
                && SafeError(error) && id in old(records) && Holds(old(records)[id], worker, token, now)
                && RetryOverflows(old(records)[id], error)
      ensures r.Failure? ==> records == old(records) && history == old(history)
      ensures r.Success? ==>
                var was := old(records)[id];
                && records == old(records)[id := r.value]
                && history == old(history) + [Finished(id, worker, token, now, r.value.status == Queued)]
                && FinishedAs(was, r.value, error, now)
      ensures Remaining(records) <= Remaining(old(records))
    {
      hide Consistent, Fold, RetryDelay, SafeError;
      if !SafeError(error) {
        return Failure(InvalidRequest);
      }
      if id !in records {
        return Failure(Missing);
      }
      Mirrored(id);
      var current := records[id];
      if current.status != Running || current.leaseOwner != Some(worker) {
        return Failure(NotOwner);
      }
      if current.token != token {
        return Failure(StaleToken);
      }
      if current.leaseExpiresAt.None? || now >= current.leaseExpiresAt.value {
        return Failure(LeaseExpired);
      }
      if RetryOverflows(current, error) {
        return Failure(Overflow);
      }
      RetryDelayBounds(base, cap, current.attempts);
      var released := current.(updatedAt := now, leaseOwner := None, leaseExpiresAt := None, error := error);
      var updated :=
        if error.None? then released.(status := Succeeded)
        else if current.attempts >= current.maximum then released.(status := Failed)
        else released.(status := Queued, scheduledAt := now + RetryDelay(base, cap, current.attempts));
      Put(id, updated, Finished(id, worker, token, now, updated.status == Queued));
      return Success(updated);
    }

    /** Succeeded, failed for good, or due again after the delay of this attempt; the lease is gone. */
    predicate FinishedAs(was: Job, now: Job, error: Option<string>, time: int) {
      && now == was.(status := now.status, scheduledAt := now.scheduledAt, updatedAt := time,
                     leaseOwner := None, leaseExpiresAt := None, error := error)
      && (error.None? ==> now.status == Succeeded && now.scheduledAt == was.scheduledAt)
      && (error.Some? && was.attempts == was.maximum ==> now.status == Failed && now.scheduledAt == was.scheduledAt)
      && (error.Some? && 1 <= was.attempts < was.maximum ==>
            && now.status == Queued && time + base <= now.scheduledAt <= time + cap
            && now.scheduledAt == time + RetryDelay(base, cap, was.attempts))
    }

    /** A failure that would be retried, with a delay that cannot be computed. */
    predicate RetryOverflows(r: Job, error: Option<string>) {
      error.Some? && 1 <= r.attempts < r.maximum && DelayOverflows(base, r.attempts)
    }

    /** `leased`: the job, only while this worker still holds it. */
    method StillLeased(id: JobId, worker: string, token: nat, now: int) returns (held: Option<Job>)
      ensures held == if id in records && Holds(records[id], worker, token, now) then Some(records[id]) else None
    {
      if id !in records {
        return None;
      }
      var current := records[id];
      if current.status != Running || current.leaseOwner != Some(worker) || current.token != token
         || current.leaseExpiresAt.None? || now >= current.leaseExpiresAt.value {
        return None;
      }
      return Some(current);
    }

    /** Fail the queued and running jobs of an owner. */
    method CancelOwner(prefix: string, now: int) returns (changed: nat)
      requires Valid()
      modifies this`records, this`history
      ensures Valid() && old(history) <= history && TerminalKept(old(records), records)
      ensures records == CancelledBut(old(records), {}, prefix, now)
      ensures changed == |Cancellable(old(records), prefix)|
      ensures Remaining(records) <= Remaining(old(records))
    {
      ghost var start := records;
      var rest := records.Keys;
      changed := 0;
      PassEnds(start, prefix, now);
      while rest != {}
        invariant Valid() && old(history) <= history && rest <= start.Keys
        invariant records == CancelledBut(start, rest, prefix, now) && Remaining(records) <= Remaining(start)
        invariant changed == |Cancellable(start, prefix)| - |Cancellable(start, prefix) * rest|
        decreases rest
      {
        var id :| id in rest;
        PassStep(start, rest, id, prefix, now);
        var hit := CancelOne(id, prefix, now);
        if hit {
          changed := changed + 1;
        }
        rest := rest - {id};
      }
    }

    method CancelOne(id: JobId, prefix: string, now: int) returns (hit: bool)
      requires Valid() && id in records
      modifies this`records, this`history
      ensures Valid() && old(history) <= history
      ensures records == old(records)[id := CancelIfOwned(old(records)[id], prefix, now)]
      ensures hit <==> id in Cancellable(old(records), prefix)
      ensures Remaining(records) <= Remaining(old(records))
    {
      hide Consistent, Fold;
      Mirrored(id);
      hit := !Terminal(records[id]) && prefix <= records[id].kind;
      if hit {
        Put(id, CancelIfOwned(records[id], prefix, now), Cancelled(id));
      } else {
        assert records[id := records[id]] == records;
      }
    }

    method FirstPurgeable(cutoff: int) returns (first: Option<Job>)
      requires Valid()
      ensures first.None? <==> forall id :: id in records ==> !Purgeable(records[id], cutoff)
      ensures first.Some? ==>
                && first.value.id in records && records[first.value.id] == first.value && Purgeable(first.value, cutoff)
                && forall id :: id in records && Purgeable(records[id], cutoff) && id != first.value.id ==>
                     PurgedFirst(first.value, records[id])
    {
      first := None;
      var rest := records.Keys;
      while rest != {}
        invariant rest <= records.Keys
        invariant first.None? ==> forall id :: id in records && id !in rest ==> !Purgeable(records[id], cutoff)
        invariant first.Some? ==>
                    && first.value.id in records && records[first.value.id] == first.value
                    && Purgeable(first.value, cutoff) && first.value.id !in rest
                    && forall id :: id in records && id !in rest && Purgeable(records[id], cutoff) && id != first.value.id ==>
                         PurgedFirst(first.value, records[id])
        decreases rest
      {
        var id :| id in rest;
        if Purgeable(records[id], cutoff) && (first.None? || PurgedFirst(records[id], first.value)) {
          first := Some(records[id]);
        }
        rest := rest - {id};
      }
    }

    /** Remove the oldest terminal records, at most `limit`; everything else stays. */
    method PurgeTerminal(cutoff: int, limit: nat) returns (removed: nat, ghost purged: set<JobId>)
      requires Valid()
      modifies this`records, this`history
      ensures Valid() && old(history) <= history
      ensures OldestPurged(old(records), purged, cutoff) && records == old(records) - purged
      ensures removed == |purged| <= limit
      ensures removed < limit ==> forall id :: id in records ==> !Purgeable(records[id], cutoff)
      ensures Remaining(records) == Remaining(old(records))
    {
      hide Consistent;
      removed, purged := 0, {};
      while removed < limit
        invariant Valid() && old(history) <= history && removed == |purged| <= limit
        invariant OldestPurged(old(records), purged, cutoff) && records == old(records) - purged
        invariant Remaining(records) == Remaining(old(records))
      {
        var first := PurgeOne(cutoff);
        if first.None? {
          return;
        }
        PurgeStep(old(records), purged, first.value, cutoff);
        purged := purged + {first.value};
        removed := removed + 1;
      }
    }

    method PurgeOne(cutoff: int) returns (first: Option<JobId>)
      requires Valid()
      modifies this`records, this`history
      ensures Valid() && old(history) <= history
      ensures first.None? ==> records == old(records) && forall id :: id in records ==> !Purgeable(records[id], cutoff)
      ensures first.Some? ==>
                && first.value in old(records) && records == old(records) - {first.value}
                && PurgedBefore(old(records)[first.value], records, cutoff)
      ensures Remaining(records) == Remaining(old(records))
    {
      var found := FirstPurgeable(cutoff);
      if found.None? {
        return None;
      }
      Drop(found.value.id);
      return Some(found.value.id);
    }

    method Drop(id: JobId)
      requires Valid() && id in records && Terminal(records[id])
      modifies this`records, this`history
      ensures Valid() && records == old(records) - {id} && history == old(history) + [Purged(id)]
      ensures Remaining(records) == Remaining(old(records))
    {
      FoldAppend(history, Purged(id));
      RemainingWithout(records, id);
      DropKeepsConsistent(records, Fold(history).value, maximumRecords, id, Fold(history).value[id].n);
      records := records - {id};
      history := history + [Purged(id)];
    }

    /** Whoever held an earlier token of a job is rejected for ever, whatever the clock says. */
    lemma StaleHolderRejected(i: nat, j: nat, worker: string, now: int)
      requires Valid() && i < j < |history| && history[i].Claimed? && history[j].Claimed?
      requires history[i].id == history[j].id
      ensures var id := history[i].id; id in records ==> !Holds(records[id], worker, history[i].token, now)
    {
      LeasesNeverOverlap(history, i, j);
      HeldUntilEnded(history, j, |history|);
      assert history[..|history|] == history;
    }

    /** At any time at most one lease of a job is live, and it is the last claim. */
    lemma HolderIsLastClaim(id: JobId, worker: string, token: nat, now: int) returns (i: nat)
      requires Valid() && id in records && Holds(records[id], worker, token, now)
      ensures i < |history| && history[i].Claimed? && history[i].id == id
      ensures history[i].worker == worker && history[i].token == token == Claims(history, id) && now < history[i].expires
      ensures forall k :: i < k < |history| ==> !Ends(history[k], id, token) && (history[k].Claimed? ==> history[k].id != id)
    {
      assert history[..|history|] == history;
      i := LeaseWasClaimed(history, |history|, id);
      HeldUntilEnded(history, i, |history|);
      TokenCountsClaims(history, id);
      forall k | i < k < |history| && history[k].Claimed? && history[k].id == id ensures false {
        LeasesNeverOverlap(history, i, k);
      }
    }

    /** No job is ever claimed more often than its maximum. */
    lemma ClaimsAreBounded(id: JobId)
      requires Valid() && id in records
      ensures Claims(history, id) == records[id].attempts <= records[id].maximum
    {
      TokenCountsClaims(history, id);
    }
  }

  predicate Holds(r: Job, worker: string, token: nat, now: int) {
    && r.status == Running && r.leaseOwner == Some(worker) && r.token == token
    && r.leaseExpiresAt.Some? && now < r.leaseExpiresAt.value
  }

  // ---------------------------------------------------------------------------------------
  // Error codes
  // ---------------------------------------------------------------------------------------

  predicate CodeCharacter(c: char) {
    'a' <= c <= 'z' || '0' <= c <= '9' || c == '_' || c == '.' || c == '-'
  }

  /** The pattern of `fail`: a lower-case letter, then 1 to 127 characters of a small alphabet. */
  predicate SafeCode(code: string) {
    && 2 <= |code| <= 128 && 'a' <= code[0] <= 'z'
    && forall k :: 1 <= k < |code| ==> CodeCharacter(code[k])
  }

  predicate SafeError(error: Option<string>) {
    error.Some? ==> SafeCode(error.value)
  }

  /** The code of an exception, from its case-folded type name. */
  function ErrorCode(name: string): string {
    if |"job." + name| <= 128 then "job." + name else ("job." + name)[..128]
  }

  /** The queue accepts the code of an exception exactly when the part of its type name that is kept
      is written in the small alphabet. */
  lemma ErrorCodeSafeExactly(name: string)
    ensures SafeCode(ErrorCode(name)) <==> forall k :: 0 <= k < |name| && k < 124 ==> CodeCharacter(name[k])
  {
    var code := ErrorCode(name);
    assert code[0] == 'j' && code[1] == 'o' && code[2] == 'b' && code[3] == '.';
    assert forall k :: 0 <= k < |name| && k < 124 ==> code[k + 4] == name[k];
    assert forall k :: 4 <= k < |code| ==> code[k] == name[k - 4];
  }

  lemma HandlerMissingIsSafe()
    ensures SafeCode("job.handler_missing")
  {
  }

  // ---------------------------------------------------------------------------------------
  // Runner and pump
  // ---------------------------------------------------------------------------------------

  /** What the world does to the n-th run: clock readings for claim, lease check and completion,
      and the case-folded type name of the exception the handler raises. */
  datatype World = World(clock: nat -> int, raises: nat -> Option<string>)

  /** The error code a run reports. */
  function HandlerError(kind: string, handlers: set<string>, exception: Option<string>): Option<string> {
    if kind !in handlers then Some("job.handler_missing")
    else match exception
         case None => None
         case Some(name) => Some(ErrorCode(name))
  }

  lemma PutTwice(records: Jobs, id: JobId, first: Job, second: Job)
    ensures records[id := first][id := second] == records[id := second]
  {
  }

  /** Every exception a handler raises has a type name whose code the queue accepts. */
  ghost predicate SafeNames(world: World) {
    forall n :: world.raises(n).Some? ==> SafeCode(ErrorCode(world.raises(n).value))
  }

  const DEFAULT_LEASE := 300000000

  class JobRunner {
    const queue: DurableJobQueue
    const handlers: set<string>
    var runs: nat

    constructor (queue: DurableJobQueue, handlers: set<string>)
      ensures this.queue == queue && this.handlers == handlers
    {
      this.queue, this.handlers, runs := queue, handlers, 0;
    }

    /** Claim the first due job, run its handler, report the result. `None` exactly when nothing was
        due; a lease that lapses on the way leaves the claimed job as it is, and so do an unsafe error
        code and an overflow of the retry delay, which are raised to the caller. */
    method RunOnce(worker: string, world: World) returns (job: Option<Job>, raised: bool, ghost id: JobId)
      requires queue.Valid()
      modifies this`runs, queue`records, queue`history
      ensures queue.Valid() && runs == old(runs) + 1 && old(queue.history) <= queue.history
      ensures NeverOverflows(queue.base) && SafeNames(world) ==> !raised
      ensures var now := world.clock(3 * old(runs));
              var ready := Recovered(old(queue.records), now);
              if NothingDue(ready, now) then job.None? && !raised && queue.records == ready
              else FirstInLine(ready, id, now)
                   && Ran(ready, LeaseTo(ready[id], worker, now + DEFAULT_LEASE, now), world, old(runs), job, raised)
      ensures Remaining(queue.records) + (if job.Some? || raised then 1 else 0) <= Remaining(old(queue.records))
      ensures job.None? && !raised ==> Remaining(queue.records) == Remaining(old(queue.records))
    {
      hide Consistent, Remaining, NeverOverflows, SafeNames, HandlerError, Ran, Recovered;
      hide DurableJobQueue.Valid, Fold, TerminalKept;
      var turn := runs;
      runs := runs + 1;
      var claimed := queue.Claim(worker, DEFAULT_LEASE, world.clock(3 * turn));
      if claimed.None? {
        return None, false, 0;
      }
      id := claimed.value.id;
      job, raised := RunClaimed(claimed.value, worker, world, turn, Recovered(old(queue.records), world.clock(3 * turn)));
    }

    /** Run the handler of a job that was just leased. */
    method RunClaimed(leased: Job, worker: string, world: World, n: nat, ghost ready: Jobs)
      returns (job: Option<Job>, raised: bool)
      requires queue.Valid() && queue.records == ready[leased.id := leased]
      requires leased.status == Running && leased.leaseOwner == Some(worker)
      modifies queue`records, queue`history
      ensures queue.Valid() && old(queue.history) <= queue.history
      ensures NeverOverflows(queue.base) && SafeNames(world) ==> !raised
      ensures Ran(ready, leased, world, n, job, raised) && (raised <==> job.None?)
      ensures Remaining(queue.records) <= Remaining(old(queue.records))
    {
      hide Consistent, Remaining, DelayOverflows, NeverOverflows, SafeError, SafeNames, HandlerError;
      hide DurableJobQueue.FinishedAs, DurableJobQueue.RetryOverflows, SafeCode, ErrorCode, TerminalKept;
      hide DurableJobQueue.Valid, Fold;
      var id := leased.id;
      queue.LeasedWithinLimits(id);
      var live := queue.StillLeased(id, worker, leased.token, world.clock(3 * n + 1));
      if live.None? {
        return Some(queue.records[id]), false;
      }
      var error := HandlerError(live.value.kind, handlers, world.raises(n));
      var finished := queue.Finish(id, worker, live.value.token, error, world.clock(3 * n + 2));
      if finished.Success? {
        PutTwice(ready, id, leased, finished.value);
        return Some(finished.value), false;
      }
      if NeverOverflows(queue.base) && SafeNames(world) {
        CodesAreSafe(leased, world, n);
      }
      if finished == Failure(InvalidRequest) || finished == Failure(Overflow) {
        return None, true;
      }
      return Some(queue.records[id]), false;
    }

    lemma CodesAreSafe(leased: Job, world: World, n: nat)
      requires NeverOverflows(queue.base) && SafeNames(world) && 1 <= leased.attempts <= leased.maximum <= 32
      ensures var error := HandlerError(leased.kind, handlers, world.raises(n));
              SafeError(error) && !queue.RetryOverflows(leased, error)
    {
      hide SafeCode, ErrorCode, DelayOverflows;
      HandlerMissingIsSafe();
    }

    /** How the n-th run may end once it leased a job. */
    ghost predicate Ran(ready: Jobs, leased: Job, world: World, n: nat, job: Option<Job>, raised: bool)
      reads queue`records
    {
      var error := HandlerError(leased.kind, handlers, world.raises(n));
      var end := world.clock(3 * n + 2);
      var skipped := leased.leaseExpiresAt.None? || world.clock(3 * n + 1) >= leased.leaseExpiresAt.value;
      var lapsed := skipped || end >= leased.leaseExpiresAt.value;
      && (raised <==> if SafeError(error) then !lapsed && queue.RetryOverflows(leased, error) else !skipped)
      && (if raised then job.None? && queue.records == ready[leased.id := leased]
          else job.Some? && queue.records == ready[leased.id := job.value]
               && if lapsed then job.value == leased else queue.FinishedAs(leased, job.value, error, end))
    }
  }

  class JobDrainPump {
    const runner: JobRunner
    const workerId: string
    var deferred: bool
    var thread: Option<nat>

    constructor (runner: JobRunner, workerId: string)
      ensures this.runner == runner && this.workerId == workerId && deferred && thread == None
    {
      this.runner, this.workerId, deferred, thread := runner, workerId, true, None;
    }

    /** Run until nothing is due. It ends because every claim uses up one remaining attempt; a
        deferred pump and a handler draining from the pump's own thread do nothing. The lock
        keeps other threads out. */
    method Drain(me: nat, world: World) returns (served: nat, raised: bool)
      requires runner.queue.Valid() && (thread == None || thread == Some(me))
      modifies this`thread, runner`runs, runner.queue`records, runner.queue`history
      ensures runner.queue.Valid() && thread == old(thread)
      ensures deferred || old(thread) == Some(me) ==>
                served == 0 && runner.queue.records == old(runner.queue.records)
                && runner.queue.history == old(runner.queue.history)
      ensures served + Remaining(runner.queue.records) <= Remaining(old(runner.queue.records))
      ensures NeverOverflows(runner.queue.base) && SafeNames(world) ==> !raised
      ensures !deferred && old(thread) == None && !raised ==>
                runner.runs == old(runner.runs) + served + 1
                && NothingDue(runner.queue.records, world.clock(3 * (runner.runs - 1)))
    {
      hide Consistent, NothingDue, Remaining, NeverOverflows, SafeNames;
      served, raised := 0, false;
      if deferred || thread == Some(me) {
        return;
      }
      thread := Some(me);
      var more := true;
      while more
        invariant runner.queue.Valid() && !(more && raised)
        invariant NeverOverflows(runner.queue.base) && SafeNames(world) ==> !raised
        invariant served + Remaining(runner.queue.records) <= Remaining(old(runner.queue.records))
        invariant runner.runs == old(runner.runs) + served + (if more then 0 else 1)
        invariant !more && !raised ==> NothingDue(runner.queue.records, world.clock(3 * (runner.runs - 1)))
        decreases Remaining(runner.queue.records), more
      {
        var job;
        ghost var id;
        job, raised, id := runner.RunOnce(workerId, world);
        if job.Some? {
          served := served + 1;
        } else {
          more := false;
        }
      }
      thread := None;
    }
  }
}

/** The login rate limiter (src/plaik_core/http_auth.py): per client a bounded, pruned deque of
    failure times and one blocked-until time, proved against the rule over the full history of
    failures. Rounding of clock readings is not modelled. */
module RateLimiters {
  import opened Prelude
  import opened InsertionOrder

  type Client = string

  datatype FailureWindow = FailureWindow(failures: seq<real>, blockedUntil: real)

  datatype Limits = Limits(maximumFailures: nat, window: real, block: real, maximumClients: nat)

  predicate Sensible(l: Limits) {
    l.maximumFailures >= 1 && l.window > 0.0 && l.block > 0.0 && l.maximumClients >= 1
  }

  // ---------------------------------------------------------------------------------------
  // The full-history rule
  // ---------------------------------------------------------------------------------------

  predicate NotAfter(f: seq<real>, i: int, j: int) {
    0 <= i <= j < |f| ==> f[i] <= f[j]
  }

  ghost predicate InTimeOrder(f: seq<real>) {
    forall i, j {:trigger NotAfter(f, i, j)} :: NotAfter(f, i, j)
  }

  lemma PrefixInTimeOrder(f: seq<real>)
    requires InTimeOrder(f) && f != []
    ensures InTimeOrder(f[..|f| - 1])
  {
    var rest := f[..|f| - 1];
    forall i, j ensures NotAfter(rest, i, j) {
      assert NotAfter(f, i, j);
    }
  }

  lemma AppendInTimeOrder(f: seq<real>, now: real)
    requires InTimeOrder(f) && (f != [] ==> f[|f| - 1] <= now)
    ensures InTimeOrder(f + [now])
  {
    var longer := f + [now];
    forall i, j ensures NotAfter(longer, i, j) {
      assert NotAfter(f, i, j) && NotAfter(f, i, |f| - 1);
    }
  }

  /** How many of these failures are later than the threshold. */
  function Later(f: seq<real>, threshold: real): nat {
    if f == [] then 0 else Later(f[..|f| - 1], threshold) + if f[|f| - 1] > threshold then 1 else 0
  }

  /** The i-th failure is one too many for its window. */
  predicate Trips(l: Limits, f: seq<real>, i: int) {
    0 <= i < |f| && Later(f[..i + 1], f[i] - l.window) >= l.maximumFailures
  }

  /** Some failure tripped the limit and its block is not over. */
  ghost predicate Blocked(l: Limits, f: seq<real>, now: real) {
    exists i :: Trips(l, f, i) && now < f[i] + l.block
  }

  lemma {:induction false} LaterAtMost(f: seq<real>, threshold: real)
    ensures Later(f, threshold) <= |f|
  {
    if f != [] {
      LaterAtMost(f[..|f| - 1], threshold);
    }
  }

  /** In time order, `n` failures are later than the threshold exactly when the n-th last one is. */
  lemma {:induction false} LaterDecided(f: seq<real>, threshold: real, n: nat)
    requires InTimeOrder(f) && 1 <= n
    ensures Later(f, threshold) >= n <==> n <= |f| && f[|f| - n] > threshold
  {
    LaterAtMost(f, threshold);
    if f != [] {
      var rest := f[..|f| - 1];
      PrefixInTimeOrder(f);
      assert NotAfter(f, |f| - n, |f| - 1);
      LaterAtMost(rest, threshold);
      if n > 1 {
        LaterDecided(rest, threshold, n - 1);
      } else if f[|f| - 1] <= threshold {
        if rest != [] {
          assert NotAfter(f, |f| - 2, |f| - 1);
          LaterDecided(rest, threshold, 1);
        }
      }
    }
  }

  // ---------------------------------------------------------------------------------------
  // One client's window refines the rule
  // ---------------------------------------------------------------------------------------

  function Pruned(failures: seq<real>, threshold: real): seq<real> {
    if failures == [] || failures[0] > threshold then failures else Pruned(failures[1..], threshold)
  }

  /** Pruning drops a prefix of stale failures and stops at the first fresh one. */
  lemma {:induction false} PrunedSuffix(failures: seq<real>, threshold: real)
    ensures var r := Pruned(failures, threshold);
            && |r| <= |failures| && r == failures[|failures| - |r|..] && (r != [] ==> r[0] > threshold)
            && forall i :: 0 <= i < |failures| - |r| ==> failures[i] <= threshold
  {
    if failures != [] && failures[0] <= threshold {
      PrunedSuffix(failures[1..], threshold);
    }
  }

  /** `append` on a deque with a maximum length. */
  function Pushed(failures: seq<real>, t: real, maximum: nat): (r: seq<real>)
    requires maximum >= 1
    ensures |failures| <= maximum ==> |r| <= maximum
  {
    var longer := failures + [t];
    if |longer| > maximum then longer[1..] else longer
  }

  /** The latest end of a block. */
  ghost function BlockEnd(l: Limits, f: seq<real>): Option<real> {
    if f == [] then None
    else if Trips(l, f, |f| - 1) then Some(f[|f| - 1] + l.block)
    else BlockEnd(l, f[..|f| - 1])
  }

  lemma {:induction false} BlockEndDecides(l: Limits, f: seq<real>, now: real)
    requires Sensible(l) && InTimeOrder(f)
    ensures Blocked(l, f, now) <==> BlockEnd(l, f).Some? && now < BlockEnd(l, f).value
    ensures BlockEnd(l, f).Some? ==> f != [] && BlockEnd(l, f).value <= f[|f| - 1] + l.block
  {
    if f != [] {
      var rest := f[..|f| - 1];
      PrefixInTimeOrder(f);
      assert NotAfter(f, |f| - 2, |f| - 1);
      BlockEndDecides(l, rest, now);
      forall i | 0 <= i < |rest| ensures Trips(l, f, i) <==> Trips(l, rest, i) {
        assert f[..i + 1] == rest[..i + 1];
      }
      if i :| Trips(l, rest, i) && now < rest[i] + l.block {
        assert Trips(l, f, i);
      }
      if i :| Trips(l, f, i) && now < f[i] + l.block {
        assert i < |rest| ==> Trips(l, rest, i);
        assert NotAfter(f, i, |f| - 1);
      }
    }
  }

  /** The deque is a suffix of the history; what is missing is beyond the maximum or too old. */
  predicate Suffix(l: Limits, failures: seq<real>, f: seq<real>, seen: real) {
    && |failures| <= l.maximumFailures && |failures| <= |f| && failures == f[|f| - |failures|..]
    && (|failures| < l.maximumFailures && |failures| < |f| ==> f[|f| - |failures| - 1] <= seen - l.window)
  }

  /** The block time is the latest block end, or 0 when no block reaches beyond now. */
  ghost predicate BlockKept(l: Limits, blockedUntil: real, f: seq<real>, seen: real) {
    match BlockEnd(l, f)
    case Some(end) => blockedUntil == end || (blockedUntil == 0.0 && end <= seen)
    case None => blockedUntil == 0.0
  }

  /** A client without an entry has nothing fresh and no block. */
  ghost predicate Forgettable(l: Limits, f: seq<real>, seen: real) {
    && (f != [] ==> f[|f| - 1] <= seen - l.window)
    && (BlockEnd(l, f).Some? ==> BlockEnd(l, f).value <= seen)
  }

  ghost predicate Refines(l: Limits, entry: Option<FailureWindow>, f: seq<real>, seen: real) {
    && InTimeOrder(f) && (f != [] ==> 0.0 <= f[0] && f[|f| - 1] <= seen) && 0.0 <= seen
    && match entry
       case None => Forgettable(l, f, seen)
       case Some(w) => Suffix(l, w.failures, f, seen) && BlockKept(l, w.blockedUntil, f, seen)
  }

  lemma TimePasses(l: Limits, entry: Option<FailureWindow>, f: seq<real>, seen: real, now: real)
    requires Refines(l, entry, f, seen) && seen <= now
    ensures Refines(l, entry, f, now)
  {
  }

  function PruneWindow(l: Limits, w: FailureWindow, now: real): FailureWindow {
    w.(failures := Pruned(w.failures, now - l.window))
  }

  lemma PruneRefines(l: Limits, w: FailureWindow, f: seq<real>, seen: real, now: real)
    requires Sensible(l) && Refines(l, Some(w), f, seen) && seen <= now
    ensures Refines(l, Some(PruneWindow(l, w, now)), f, now)
    ensures var kept := PruneWindow(l, w, now).failures;
            if kept == [] then f != [] ==> f[|f| - 1] <= now - l.window else kept[0] > now - l.window
  {
    PrunedSuffix(w.failures, now - l.window);
    var kept := Pruned(w.failures, now - l.window);
    var d := |w.failures| - |kept|;
    if d > 0 {
      assert w.failures[d - 1] == f[|f| - |kept| - 1];
    }
  }

  function CheckedWindow(l: Limits, w: FailureWindow, now: real): Option<FailureWindow> {
    var pruned := PruneWindow(l, w, now);
    if pruned.blockedUntil > now then Some(pruned)
    else if pruned.failures == [] then None
    else Some(pruned.(blockedUntil := 0.0))
  }

  lemma CheckRefines(l: Limits, w: FailureWindow, f: seq<real>, seen: real, now: real)
    requires Sensible(l) && Refines(l, Some(w), f, seen) && seen <= now
    ensures Refines(l, CheckedWindow(l, w, now), f, now)
    ensures w.blockedUntil > now <==> Blocked(l, f, now)
    ensures w.blockedUntil > now ==> !Blocked(l, f, w.blockedUntil)
  {
    PruneRefines(l, w, f, seen, now);
    BlockEndDecides(l, f, now);
    BlockEndDecides(l, f, w.blockedUntil);
  }

  lemma AbsentIsFree(l: Limits, f: seq<real>, seen: real, now: real)
    requires Sensible(l) && Refines(l, None, f, seen) && seen <= now
    ensures !Blocked(l, f, now)
  {
    BlockEndDecides(l, f, now);
  }

  function AppendedWindow(l: Limits, w: FailureWindow, now: real): FailureWindow
    requires l.maximumFailures >= 1
  {
    var pushed := Pushed(w.failures, now, l.maximumFailures);
    FailureWindow(pushed,
                  if |pushed| >= l.maximumFailures && now + l.block > w.blockedUntil then now + l.block
                  else w.blockedUntil)
  }

  function RecordedWindow(l: Limits, w: FailureWindow, now: real): FailureWindow
    requires l.maximumFailures >= 1
  {
    AppendedWindow(l, PruneWindow(l, w, now), now)
  }

  /** After pruning, the deque is full exactly when this failure trips the limit. */
  lemma PushDecides(l: Limits, pruned: seq<real>, f: seq<real>, now: real)
    requires Sensible(l) && InTimeOrder(f + [now]) && Suffix(l, pruned, f, now)
    requires pruned != [] ==> pruned[0] > now - l.window
    ensures Trips(l, f + [now], |f|) <==> |Pushed(pruned, now, l.maximumFailures)| >= l.maximumFailures
  {
    hide Later, InTimeOrder;
    var longer, n := f + [now], l.maximumFailures;
    assert longer[..|longer|] == longer;
    LaterDecided(longer, now - l.window, n);
    if 1 < n <= |longer| {
      NthLastDecides(l, pruned, f, now);
    }
  }

  lemma NthLastDecides(l: Limits, pruned: seq<real>, f: seq<real>, now: real)
    requires Sensible(l) && InTimeOrder(f + [now]) && Suffix(l, pruned, f, now)
    requires pruned != [] ==> pruned[0] > now - l.window
    requires 1 < l.maximumFailures <= |f| + 1
    ensures (f + [now])[|f| + 1 - l.maximumFailures] > now - l.window <==> |pruned| >= l.maximumFailures - 1
  {
    var longer, k := f + [now], |f| + 1 - l.maximumFailures;
    assert longer[k] == f[k];
    if |pruned| >= l.maximumFailures - 1 {
      assert longer[|f| - |pruned|] == pruned[0];
      assert NotAfter(longer, |f| - |pruned|, k);
    } else {
      assert longer[|f| - |pruned| - 1] <= now - l.window;
      assert NotAfter(longer, k, |f| - |pruned| - 1);
    }
  }

  lemma PushSuffix(l: Limits, pruned: seq<real>, f: seq<real>, now: real)
    requires Sensible(l) && Suffix(l, pruned, f, now)
    ensures Suffix(l, Pushed(pruned, now, l.maximumFailures), f + [now], now)
  {
  }

  lemma RecordBlocks(l: Limits, blockedUntil: real, f: seq<real>, seen: real, now: real)
    requires Sensible(l) && InTimeOrder(f) && (f != [] ==> f[|f| - 1] <= now) && 0.0 <= seen <= now
    requires BlockKept(l, blockedUntil, f, seen)
    ensures BlockKept(l, if Trips(l, f + [now], |f|) && now + l.block > blockedUntil then now + l.block else blockedUntil,
                      f + [now], now)
  {
    hide Trips, InTimeOrder;
    assert (f + [now])[..|f|] == f;
    BlockEndDecides(l, f, now);
  }

  lemma RecordRefines(l: Limits, w: FailureWindow, f: seq<real>, seen: real, now: real)
    requires Sensible(l) && Refines(l, Some(w), f, seen) && seen <= now
    ensures Refines(l, Some(RecordedWindow(l, w, now)), f + [now], now)
  {
    hide Trips, BlockEnd, Pruned, BlockKept, Pushed, InTimeOrder, Suffix;
    PruneRefines(l, w, f, seen, now);
    AppendRefines(l, PruneWindow(l, w, now), f, now);
  }

  /** The failure joins a freshly pruned window. */
  lemma AppendRefines(l: Limits, w: FailureWindow, f: seq<real>, now: real)
    requires Sensible(l) && Refines(l, Some(w), f, now)
    requires w.failures != [] ==> w.failures[0] > now - l.window
    ensures Refines(l, Some(AppendedWindow(l, w, now)), f + [now], now)
  {
    hide Trips, BlockEnd, BlockKept, Pushed, InTimeOrder, Suffix;
    AppendInTimeOrder(f, now);
    AppendBlocks(l, w, f, now);
    PushSuffix(l, w.failures, f, now);
  }

  lemma AppendBlocks(l: Limits, w: FailureWindow, f: seq<real>, now: real)
    requires Sensible(l) && Refines(l, Some(w), f, now)
    requires w.failures != [] ==> w.failures[0] > now - l.window
    ensures BlockKept(l, AppendedWindow(l, w, now).blockedUntil, f + [now], now)
  {
    hide Trips, BlockEnd, BlockKept, Pushed, InTimeOrder, Suffix;
    AppendInTimeOrder(f, now);
    PushDecides(l, w.failures, f, now);
    RecordBlocks(l, w.blockedUntil, f, now, now);
  }

  /** A new client starts with an empty deque. */
  lemma FreshRefines(l: Limits, f: seq<real>, seen: real)
    requires Sensible(l) && Refines(l, None, f, seen)
    ensures Refines(l, Some(FailureWindow([], 0.0)), f, seen)
  {
  }

  function SucceededWindow(l: Limits, w: FailureWindow, now: real): Option<FailureWindow> {
    var pruned := PruneWindow(l, w, now);
    var settled := if pruned.blockedUntil <= now then pruned.(blockedUntil := 0.0) else pruned;
    if settled.failures == [] && settled.blockedUntil == 0.0 then None else Some(settled)
  }

  lemma SuccessRefines(l: Limits, w: FailureWindow, f: seq<real>, seen: real, now: real)
    requires Sensible(l) && Refines(l, Some(w), f, seen) && seen <= now
    ensures Refines(l, SucceededWindow(l, w, now), f, now)
  {
    PruneRefines(l, w, f, seen, now);
  }

  // ---------------------------------------------------------------------------------------
  // The limiter
  // ---------------------------------------------------------------------------------------

  type Windows = map<Client, FailureWindow>
  type Histories = map<Client, seq<real>>

  function HistoryOf(failures: Histories, key: Client): seq<real> {
    if key in failures then failures[key] else []
  }

  function WindowOf(entries: Windows, key: Client): Option<FailureWindow> {
    if key in entries then Some(entries[key]) else None
  }

  function Replaced(entries: Windows, key: Client, entry: Option<FailureWindow>): Windows {
    if entry.Some? then entries[key := entry.value] else entries - {key}
  }

  ghost predicate Kept(l: Limits, entries: Windows, failures: Histories, seen: real, key: Client) {
    Refines(l, WindowOf(entries, key), HistoryOf(failures, key), seen)
  }

  ghost predicate AllKept(l: Limits, entries: Windows, failures: Histories, seen: real) {
    forall key {:trigger Kept(l, entries, failures, seen, key)} :: Kept(l, entries, failures, seen, key)
  }

  /** Replace or drop the window of one client and let time pass for all others. */
  lemma ReplaceKeeps(l: Limits, entries: Windows, failures: Histories, seen: real, key: Client,
                     entry: Option<FailureWindow>, f: seq<real>, now: real)
    requires AllKept(l, entries, failures, seen) && seen <= now && Refines(l, entry, f, now)
    ensures AllKept(l, Replaced(entries, key, entry), failures[key := f], now)
  {
    hide Refines;
    var after, histories := Replaced(entries, key, entry), failures[key := f];
    forall other ensures Kept(l, after, histories, now, other) {
      assert Kept(l, entries, failures, seen, other);
      if other != key {
        TimePasses(l, WindowOf(entries, other), HistoryOf(failures, other), seen, now);
      }
    }
  }

  lemma OneKept(l: Limits, entries: Windows, failures: Histories, seen: real, key: Client)
    requires AllKept(l, entries, failures, seen)
    ensures Refines(l, WindowOf(entries, key), HistoryOf(failures, key), seen)
  {
    hide Refines;
    assert Kept(l, entries, failures, seen, key);
  }

  lemma EmptyRefines(l: Limits, entries: Windows, failures: Histories, seen: real, key: Client)
    requires AllKept(l, entries, failures, seen)
    ensures Refines(l, None, [], seen)
  {
    assert Kept(l, entries, failures, seen, key);
  }

  class LoginRateLimiter {
    const limits: Limits
    var entries: Windows
    var order: seq<Client>

    /** Every failure recorded for a client since it was last evicted. */
    ghost var failures: Histories
    ghost var seen: real

    ghost predicate Valid()
      reads this
    {
      && Sensible(limits) && Lists(order, entries.Keys) && |order| <= limits.maximumClients
      && AllKept(limits, entries, failures, seen)
    }

    constructor (limits: Limits, now: real)
      requires Sensible(limits) && 0.0 <= now
      ensures Valid() && this.limits == limits && entries == map[] && failures == map[] && seen == now
    {
      this.limits := limits;
      entries, order, failures, seen := map[], [], map[], now;
    }

    /** Store or drop one window, possibly as the most recently used. */
    method Update(key: Client, entry: Option<FailureWindow>, recent: bool, ghost f: seq<real>, ghost now: real)
      requires Valid() && seen <= now && Refines(limits, entry, f, now)
      requires key !in entries && entry.Some? ==> recent && |order| < limits.maximumClients
      modifies this
      ensures Valid() && seen == now && failures == old(failures)[key := f]
      ensures entries == Replaced(old(entries), key, entry)
      ensures order == if entry.None? then Without(old(order), key)
                       else if recent then Without(old(order), key) + [key]
                       else old(order)
    {
      ReplaceKeeps(limits, entries, failures, seen, key, entry, f, now);
      WithoutLists(order, entries.Keys, key);
      failures := failures[key := f];
      seen := now;
      if entry.None? {
        order := Without(order, key);
        entries := entries - {key};
      } else {
        if recent {
          AppendLists(Without(order, key), entries.Keys - {key}, key);
          order := Without(order, key) + [key];
        }
        assert entries[key := entry.value].Keys == entries.Keys + {key};
        entries := entries[key := entry.value];
      }
    }

    /** `_prune`: drop failures from the left until the first one is fresh. */
    method Prune(w: FailureWindow, now: real) returns (pruned: FailureWindow)
      ensures pruned == PruneWindow(limits, w, now)
    {
      var threshold := now - limits.window;
      var rest := w.failures;
      while rest != [] && rest[0] <= threshold
        invariant Pruned(rest, threshold) == Pruned(w.failures, threshold)
        decreases |rest|
      {
        rest := rest[1..];
      }
      return w.(failures := rest);
    }

    /** `check` rejects exactly the clients the full-history rule blocks, and its retry hint is the
        time left. */
    method Check(key: Client, now: real) returns (retryAfter: Option<real>)
      requires Valid() && seen <= now
      modifies this
      ensures Valid() && seen == now && HistoryOf(failures, key) == HistoryOf(old(failures), key)
      ensures retryAfter.Some? <==> Blocked(limits, HistoryOf(old(failures), key), now)
      ensures retryAfter.Some? ==>
                retryAfter.value > 0.0 && !Blocked(limits, HistoryOf(failures, key), now + retryAfter.value)
      ensures forall other :: other != key ==> WindowOf(entries, other) == WindowOf(old(entries), other)
      ensures forall other :: other != key ==> HistoryOf(failures, other) == HistoryOf(old(failures), other)
    {
      hide Refines, Blocked, Pruned, AllKept;
      ghost var f := HistoryOf(failures, key);
      OneKept(limits, entries, failures, seen, key);
      if key !in entries {
        AbsentIsFree(limits, f, seen, now);
        TimePasses(limits, None, f, seen, now);
        Update(key, None, false, f, now);
        return None;
      }
      CheckRefines(limits, entries[key], f, seen, now);
      var w := Prune(entries[key], now);
      if w.blockedUntil > now {
        Update(key, Some(w), true, f, now);
        return Some(w.blockedUntil - now);
      }
      w := w.(blockedUntil := 0.0);
      Update(key, if w.failures == [] then None else Some(w), false, f, now);
      return None;
    }

    /** `record_failure`: the new failure joins the history; a client unknown so far may push out
        the least recently used ones, and only when the table is full. */
    method RecordFailure(key: Client, now: real)
      requires Valid() && seen <= now
      modifies this
      ensures Valid() && seen == now && key in entries && order[|order| - 1] == key
      ensures HistoryOf(failures, key) == HistoryOf(old(failures), key) + [now]
      ensures forall other :: other != key && other in entries ==>
                other in old(entries) && entries[other] == old(entries)[other]
      ensures forall other :: other != key && (other in old(entries) ==> other in entries) ==>
                HistoryOf(failures, other) == HistoryOf(old(failures), other)
      ensures forall other :: other != key && other in old(entries) && other !in entries ==>
                key !in old(entries) && |old(order)| == limits.maximumClients && other == old(order)[0]
    {
      hide Refines, AllKept, RecordedWindow;
      ghost var f := HistoryOf(failures, key);
      OneKept(limits, entries, failures, seen, key);
      var w := FailureWindow([], 0.0);
      if key in entries {
        w := entries[key];
      } else {
        MakeRoom();
        FreshRefines(limits, f, seen);
      }
      Append(key, w, f, now);
    }

    method Append(key: Client, w: FailureWindow, ghost f: seq<real>, now: real)
      requires Valid() && seen <= now && Refines(limits, Some(w), f, seen)
      requires key in entries || |order| < limits.maximumClients
      modifies this
      ensures Valid() && seen == now && failures == old(failures)[key := f + [now]]
      ensures entries == old(entries)[key := RecordedWindow(limits, w, now)]
      ensures order == Without(old(order), key) + [key]
    {
      hide Refines, Pruned, Pushed, AllKept;
      RecordRefines(limits, w, f, seen, now);
      var pruned := Prune(w, now);
      var pushed := Pushed(pruned.failures, now, limits.maximumFailures);
      var blockedUntil := w.blockedUntil;
      if |pushed| >= limits.maximumFailures && now + limits.block > blockedUntil {
        blockedUntil := now + limits.block;
      }
      Update(key, Some(FailureWindow(pushed, blockedUntil)), true, f + [now], now);
    }

    /** Evict the least recently used client while the table is full; its history is forgotten. */
    method MakeRoom()
      requires Valid()
      modifies this
      ensures Valid() && seen == old(seen) && |order| < limits.maximumClients
      ensures if |old(order)| < limits.maximumClients then
                entries == old(entries) && order == old(order) && failures == old(failures)
              else
                && order == old(order)[1..] && entries == old(entries) - {old(order)[0]}
                && failures == old(failures)[old(order)[0] := []]
    {
      while |order| >= limits.maximumClients
        invariant Valid() && seen == old(seen)
        invariant if |order| == |old(order)| then
                    entries == old(entries) && order == old(order) && failures == old(failures)
                  else
                    && |old(order)| == limits.maximumClients && order == old(order)[1..]
                    && entries == old(entries) - {old(order)[0]} && failures == old(failures)[old(order)[0] := []]
        decreases |order|
      {
        WithoutLists(order, entries.Keys, order[0]);
        EmptyRefines(limits, entries, failures, seen, order[0]);
        Update(order[0], None, false, [], seen);
      }
    }

    /** `record_success` forgives nothing: the rule's verdict is the same before and after. */
    method RecordSuccess(key: Client, now: real)
      requires Valid() && seen <= now
      modifies this
      ensures Valid() && seen == now && HistoryOf(failures, key) == HistoryOf(old(failures), key)
      ensures forall other :: other != key ==> WindowOf(entries, other) == WindowOf(old(entries), other)
      ensures forall other :: other != key ==> HistoryOf(failures, other) == HistoryOf(old(failures), other)
    {
      hide Refines, AllKept, Pruned;
      ghost var f := HistoryOf(failures, key);
      OneKept(limits, entries, failures, seen, key);
      if key !in entries {
        TimePasses(limits, None, f, seen, now);
        Update(key, None, false, f, now);
        return;
      }
      SuccessRefines(limits, entries[key], f, seen, now);
      var w := Prune(entries[key], now);
      if w.blockedUntil <= now {
        w := w.(blockedUntil := 0.0);
      }
      if w.failures == [] && w.blockedUntil == 0.0 {
        Update(key, None, true, f, now);
      } else {
        Update(key, Some(w), true, f, now);
      }
    }
  }

  lemma BlockedAlone(l: Limits, t: real, now: real)
    requires Sensible(l)
    ensures Blocked(l, [t], now) <==> l.maximumFailures == 1 && now < t + l.block
  {
    assert [t][..1] == [t] && Later([t], t - l.window) == 1;
    if l.maximumFailures == 1 && now < t + l.block {
      assert Trips(l, [t], 0) && now < [t][0] + l.block;
    }
  }

  /** A client whose only failure is at `t` is judged by the rule at every later reading exactly
      when the reading is not negative, or one failure is already too many and its block reaches
      zero: the block time of a fresh window starts at 0.0, and a negative clock has not reached it. */
  lemma FreshWindowExactly(l: Limits, t: real)
    requires Sensible(l)
    ensures var w := RecordedWindow(l, FailureWindow([], 0.0), t);
            (forall now :: t <= now ==> (w.blockedUntil > now <==> Blocked(l, [t], now))) <==>
            t >= 0.0 || (l.maximumFailures == 1 && t + l.block >= 0.0)
  {
    hide Blocked;
    var w := RecordedWindow(l, FailureWindow([], 0.0), t);
    forall now ensures Blocked(l, [t], now) <==> l.maximumFailures == 1 && now < t + l.block {
      BlockedAlone(l, t, now);
    }
    if !(t >= 0.0 || (l.maximumFailures == 1 && t + l.block >= 0.0)) {
      var now := if l.maximumFailures > 1 then t else t + l.block;
      assert t <= now && !(w.blockedUntil > now <==> Blocked(l, [t], now));
    }
  }
}

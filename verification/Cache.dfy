/** The coalescing TTL cache (src/plaik_core/cache.py). Every section under the cache lock is one
    method, so any interleaving of threads is a sequence of calls; a producer that runs outside
    the lock is a `Start` and, some calls later, a `Finish` and a `Release`. */
module Caches {
  import opened Prelude
  import opened InsertionOrder

  type Key = (string, string)

  /** Values are opaque to the cache. */
  type Value = nat

  datatype Entry = Entry(value: Value, expiresAt: int)

  /** What callers and the capacity bound did to the cache, in order. A `set` overrides the key and
      then stores; a producer's value is only stored. */
  datatype Event =
    | Overridden(key: Key)
    | Stored(key: Key, entry: Entry)
    | Deleted(key: Key)
    | Invalidated(ns: string, prefix: Option<string>)
    | Evicted(key: Key)
    | Started(key: Key)
    | Ended(key: Key)

  datatype Turn = Served(value: Value) | Produce | Wait

  type Entries = map<Key, Entry>
  type Generations = map<Key, nat>

  predicate Matches(key: Key, ns: string, prefix: Option<string>) {
    key.0 == ns && (prefix.Some? ==> prefix.value <= key.1)
  }

  // ---------------------------------------------------------------------------------------
  // The simple form: a timed map, and who runs
  // ---------------------------------------------------------------------------------------

  function TimedStep(m: Entries, e: Event): Entries {
    match e
    case Overridden(_) => m
    case Stored(key, entry) => m[key := entry]
    case Deleted(key) => m - {key}
    case Invalidated(ns, prefix) => map k | k in m && !Matches(k, ns, prefix) :: m[k]
    case Evicted(key) => m - {key}
    case Started(_) => m
    case Ended(_) => m
  }

  /** The last value stored under each key that was not deleted, invalidated or evicted since. */
  function Timed(h: seq<Event>): Entries {
    if h == [] then map[] else TimedStep(Timed(h[..|h| - 1]), h[|h| - 1])
  }

  /** Some producer of this key has started and not ended. */
  predicate Running(h: seq<Event>, key: Key) {
    h != [] &&
    (h[|h| - 1] == Started(key) || (h[|h| - 1] != Ended(key) && Running(h[..|h| - 1], key)))
  }

  /** A producer starts only while no other producer of its key runs. */
  predicate StartsAlone(h: seq<Event>) {
    h == [] ||
    (StartsAlone(h[..|h| - 1]) && (h[|h| - 1].Started? ==> !Running(h[..|h| - 1], h[|h| - 1].key)))
  }

  predicate Disturbs(e: Event, key: Key) {
    match e
    case Overridden(k) => k == key
    case Deleted(k) => k == key
    case Invalidated(ns, prefix) => Matches(key, ns, prefix)
    case Evicted(k) => k == key
    case Stored(_, _) => false
    case Started(_) => false
    case Ended(_) => false
  }

  /** Nothing disturbed the key since a producer of it last started. */
  predicate Undisturbed(h: seq<Event>, key: Key) {
    h == [] || h[|h| - 1] == Started(key) || (!Disturbs(h[|h| - 1], key) && Undisturbed(h[..|h| - 1], key))
  }

  lemma Appended(h: seq<Event>, e: Event)
    ensures Timed(h + [e]) == TimedStep(Timed(h), e)
    ensures StartsAlone(h + [e]) <==> StartsAlone(h) && (e.Started? ==> !Running(h, e.key))
    ensures forall k :: Running(h + [e], k) <==> e == Started(k) || (e != Ended(k) && Running(h, k))
    ensures forall k :: Undisturbed(h + [e], k) <==> e == Started(k) || (!Disturbs(e, k) && Undisturbed(h, k))
  {
    assert (h + [e])[..|h|] == h;
  }

  lemma TimedAppended(h: seq<Event>, e: Event)
    ensures Timed(h + [e]) == TimedStep(Timed(h), e)
  {
    assert (h + [e])[..|h|] == h;
  }

  /** Undisturbed means what it says: no disturbing event after the last start. */
  lemma {:induction false} UndisturbedExactly(h: seq<Event>, key: Key, i: nat)
    requires i < |h| && h[i] == Started(key)
    requires forall k :: i < k < |h| ==> h[k] != Started(key)
    ensures Undisturbed(h, key) <==> forall k :: i < k < |h| ==> !Disturbs(h[k], key)
  {
    if i + 1 < |h| {
      UndisturbedExactly(h[..|h| - 1], key, i);
      assert forall k :: i < k < |h| - 1 ==> h[..|h| - 1][k] == h[k];
    }
  }

  /** Two producers of one key never overlap: the first has ended before the second starts. */
  lemma {:induction false} OneProducerPerKey(h: seq<Event>, key: Key, i: nat)
    requires i < |h| && h[i] == Started(key) && StartsAlone(h)
    ensures Running(h, key) || exists k :: i < k < |h| && h[k] == Ended(key)
    ensures forall j :: i < j < |h| && h[j] == Started(key) ==> exists k :: i < k < j && h[k] == Ended(key)
  {
    if i + 1 < |h| {
      var before := h[..|h| - 1];
      OneProducerPerKey(before, key, i);
      if !Running(before, key) {
        var k :| i < k < |before| && before[k] == Ended(key);
        assert h[k] == Ended(key);
      } else if h[|h| - 1] == Ended(key) {
        assert h[|h| - 1] == Ended(key);
      }
      forall j | i < j < |h| && h[j] == Started(key) ensures exists k :: i < k < j && h[k] == Ended(key) {
        if j < |h| - 1 {
          assert before[j] == Started(key);
          var k :| i < k < j && before[k] == Ended(key);
          assert h[k] == Ended(key);
        }
      }
    }
  }

  // ---------------------------------------------------------------------------------------
  // The cache
  // ---------------------------------------------------------------------------------------

  function Gen(generations: Generations, key: Key): nat {
    if key in generations then generations[key] else 0
  }

  /** Every in-flight producer runs, its generation says whether it was disturbed, and
      generations are kept for resident and in-flight keys only. */
  ghost predicate Tracked(entries: Entries, inflight: Generations, generations: Generations, h: seq<Event>) {
    && StartsAlone(h) && (forall k {:trigger Running(h, k)} :: k in inflight <==> Running(h, k))
    && (forall k :: k in inflight ==> inflight[k] <= Gen(generations, k))
    && (forall k {:trigger Undisturbed(h, k)} :: k in inflight ==>
          (inflight[k] == Gen(generations, k) <==> Undisturbed(h, k)))
    && (forall k :: k in generations ==> k in entries || k in inflight)
  }

  /** An event that neither starts nor ends a producer bumps exactly the producers it disturbs. */
  lemma TrackedStep(entries: Entries, inflight: Generations, generations: Generations, h: seq<Event>, e: Event,
                    entriesAfter: Entries, generationsAfter: Generations)
    requires Tracked(entries, inflight, generations, h) && !e.Started? && !e.Ended?
    requires forall k :: k in inflight ==>
               Gen(generationsAfter, k) == Gen(generations, k) + if Disturbs(e, k) then 1 else 0
    requires forall k :: k in generationsAfter ==> k in entriesAfter || k in inflight
    ensures Tracked(entriesAfter, inflight, generationsAfter, h + [e])
  {
    Appended(h, e);
  }

  /** Resident entries are those of the timed map; what is missing has expired. */
  ghost predicate Faithful(entries: Entries, timed: Entries, seen: int) {
    && (forall k :: k in entries ==> k in timed && timed[k] == entries[k])
    && (forall k :: k in timed && k !in entries ==> timed[k].expiresAt <= seen)
  }

  ghost predicate Consistent(entries: Entries, order: seq<Key>, inflight: Generations, generations: Generations,
                             h: seq<Event>, seen: int) {
    Lists(order, entries.Keys) && Faithful(entries, Timed(h), seen) && Tracked(entries, inflight, generations, h)
  }

  lemma ForgetKeeps(entries: Entries, order: seq<Key>, inflight: Generations, generations: Generations,
                    h: seq<Event>, seen: int, key: Key, e: Event)
    requires Consistent(entries, order, inflight, generations, h, seen) && (e == Evicted(key) || e == Deleted(key))
    ensures Consistent(entries - {key}, Without(order, key), inflight, Retired(generations, inflight, {key}), h + [e], seen)
    ensures |Without(order, key)| + (if key in entries then 1 else 0) == |order|
    ensures Timed(h + [e]) == Timed(h) - {key}
  {
    hide Tracked, Faithful;
    TimedAppended(h, e);
    WithoutLists(order, entries.Keys, key);
    assert (entries - {key}).Keys == entries.Keys - {key};
    FaithfulWithout(entries, Timed(h), seen, key);
    ForgetTracked(entries, inflight, generations, h, key, e);
  }

  lemma FaithfulWithout(entries: Entries, timed: Entries, seen: int, key: Key)
    requires Faithful(entries, timed, seen)
    ensures Faithful(entries - {key}, timed - {key}, seen)
  {
  }

  lemma ForgetTracked(entries: Entries, inflight: Generations, generations: Generations, h: seq<Event>, key: Key, e: Event)
    requires Tracked(entries, inflight, generations, h) && (e == Evicted(key) || e == Deleted(key))
    ensures Tracked(entries - {key}, inflight, Retired(generations, inflight, {key}), h + [e])
  {
    TrackedStep(entries, inflight, generations, h, e, entries - {key}, Retired(generations, inflight, {key}));
  }

  lemma InsertKeeps(entries: Entries, order: seq<Key>, inflight: Generations, generations: Generations,
                    h: seq<Event>, seen: int, later: int, key: Key, entry: Entry)
    requires Consistent(entries, order, inflight, generations, h, seen) && seen <= later
    ensures Consistent(entries[key := entry], if key in entries then order else order + [key], inflight, generations,
                       h + [Stored(key, entry)], later)
    ensures Timed(h + [Stored(key, entry)]) == Timed(h)[key := entry]
  {
    TimedAppended(h, Stored(key, entry));
    if key !in entries {
      AppendLists(order, entries.Keys, key);
    }
    TrackedStep(entries, inflight, generations, h, Stored(key, entry), entries[key := entry], generations);
  }

  lemma ExpiryKeeps(entries: Entries, order: seq<Key>, inflight: Generations, generations: Generations,
                    h: seq<Event>, seen: int, now: int, key: Key)
    requires Consistent(entries, order, inflight, generations, h, seen)
    requires seen <= now && key in entries && entries[key].expiresAt <= now
    ensures Consistent(entries - {key}, Without(order, key), inflight,
                       if key in inflight then generations else generations - {key}, h, now)
    ensures |Without(order, key)| == |order| - 1
  {
    WithoutLists(order, entries.Keys, key);
    assert (entries - {key}).Keys == entries.Keys - {key};
  }

  lemma StartKeeps(entries: Entries, order: seq<Key>, inflight: Generations, generations: Generations,
                   h: seq<Event>, seen: int, key: Key)
    requires Consistent(entries, order, inflight, generations, h, seen) && key !in inflight
    ensures Consistent(entries, order, inflight[key := Gen(generations, key)], generations, h + [Started(key)], seen)
  {
    Appended(h, Started(key));
  }

  lemma ReleaseKeeps(entries: Entries, order: seq<Key>, inflight: Generations, generations: Generations,
                     h: seq<Event>, seen: int, key: Key)
    requires Consistent(entries, order, inflight, generations, h, seen)
    ensures Consistent(entries, order, inflight - {key}, if key in entries then generations else generations - {key},
                       h + [Ended(key)], seen)
  {
    Appended(h, Ended(key));
  }

  lemma OverrideKeeps(entries: Entries, order: seq<Key>, inflight: Generations, generations: Generations,
                      h: seq<Event>, seen: int, key: Key)
    requires Consistent(entries, order, inflight, generations, h, seen)
    ensures Consistent(entries, order, inflight,
                       if key in inflight then generations[key := Gen(generations, key) + 1] else generations,
                       h + [Overridden(key)], seen)
  {
    TimedAppended(h, Overridden(key));
    TrackedStep(entries, inflight, generations, h, Overridden(key), entries,
                if key in inflight then generations[key := Gen(generations, key) + 1] else generations);
  }

  lemma InvalidationKeeps(entries: Entries, order: seq<Key>, orderAfter: seq<Key>, inflight: Generations,
                          generations: Generations, h: seq<Event>, seen: int, ns: string, prefix: Option<string>)
    requires Consistent(entries, order, inflight, generations, h, seen)
    requires Lists(orderAfter, (entries - Targets(entries.Keys, ns, prefix)).Keys)
    ensures Consistent(entries - Targets(entries.Keys, ns, prefix), orderAfter, inflight,
                       Retired(generations, inflight, Targets(entries.Keys, ns, prefix) + Targets(inflight.Keys, ns, prefix)),
                       h + [Invalidated(ns, prefix)], seen)
    ensures Timed(h + [Invalidated(ns, prefix)]) == Timed(h) - Targets(Timed(h).Keys, ns, prefix)
  {
    TimedAppended(h, Invalidated(ns, prefix));
    TrackedStep(entries, inflight, generations, h, Invalidated(ns, prefix), entries - Targets(entries.Keys, ns, prefix),
                Retired(generations, inflight, Targets(entries.Keys, ns, prefix) + Targets(inflight.Keys, ns, prefix)));
  }

  function Targets(keys: set<Key>, ns: string, prefix: Option<string>): set<Key> {
    set k | k in keys && Matches(k, ns, prefix)
  }

  class NamespacedTTLCache {
    const maximum: nat
    var entries: Entries
    var order: seq<Key>
    var inflight: Generations
    var generations: Generations
    var hits: nat
    var misses: nat
    var writes: nat
    var evictions: nat

    ghost var history: seq<Event>
    ghost var overwrites: nat
    /** The last reading of the monotonic clock. */
    ghost var seen: int

    ghost predicate Valid()
      reads this
    {
      var sound := Consistent(entries, order, inflight, generations, history, seen);
      sound && maximum >= 1 && |order| <= maximum && writes == |order| + evictions + overwrites
    }

    constructor (maximum: nat, now: int)
      requires maximum >= 1
      ensures Valid() && this.maximum == maximum && history == [] && seen == now
    {
      this.maximum := maximum;
      entries, order, inflight, generations := map[], [], map[], map[];
      hits, misses, writes, evictions := 0, 0, 0, 0;
      history, overwrites, seen := [], 0, now;
    }

    /** Drop one expired entry; the timed map forgets nothing, it just no longer answers. */
    method DropExpired(key: Key, now: int)
      requires Valid() && seen <= now && key in entries && entries[key].expiresAt <= now
      modifies this`entries, this`order, this`generations, this`evictions, this`seen
      ensures Valid() && seen == now
      ensures entries == old(entries) - {key} && order == Without(old(order), key) && |order| == |old(order)| - 1
    {
      ExpiryKeeps(entries, order, inflight, generations, history, seen, now, key);
      entries := entries - {key};
      order := Without(order, key);
      if key !in inflight {
        generations := generations - {key};
      }
      evictions := evictions + 1;
      seen := now;
    }

    /** `_get_locked`: exactly the unexpired value of the timed map. */
    method GetLocked(key: Key, now: int) returns (value: Option<Value>)
      requires Valid() && seen <= now
      modifies this`entries, this`order, this`generations, this`evictions, this`seen
      ensures Valid() && seen == now
      ensures value == Answer(Timed(history), key, now)
      ensures value == None ==> key !in entries
    {
      if key !in entries {
        seen := now;
        return None;
      }
      if now >= entries[key].expiresAt {
        DropExpired(key, now);
        return None;
      }
      seen := now;
      return Some(entries[key].value);
    }

    method Get(key: Key, now: int) returns (value: Option<Value>)
      requires Valid() && seen <= now
      modifies this`entries, this`order, this`generations, this`evictions, this`seen, this`hits, this`misses
      ensures Valid() && seen == now
      ensures value == Answer(Timed(history), key, now)
      ensures hits + misses == old(hits) + old(misses) + 1 && (hits > old(hits) <==> value.Some?)
    {
      value := GetLocked(key, now);
      if value.None? {
        misses := misses + 1;
      } else {
        hits := hits + 1;
      }
    }

    method PurgeExpired(now: int)
      requires Valid() && seen <= now
      modifies this`entries, this`order, this`generations, this`evictions, this`seen
      ensures Valid() && seen == now && |order| <= |old(order)|
      ensures forall k :: k in entries ==> now < entries[k].expiresAt
      ensures forall k :: k in entries <==> k in old(entries) && now < old(entries)[k].expiresAt
      ensures forall k :: k in entries ==> entries[k] == old(entries)[k]
    {
      ghost var start := entries;
      seen := now;
      var expired := set k | k in entries && now >= entries[k].expiresAt;
      while expired != {}
        invariant Valid() && seen == now && |order| <= |old(order)|
        invariant forall k :: k in entries <==> k in start && (now < start[k].expiresAt || k in expired)
        invariant forall k :: k in entries ==> entries[k] == start[k]
        invariant forall k :: k in expired ==> k in entries && now >= entries[k].expiresAt
        decreases expired
      {
        var k :| k in expired;
        DropExpired(k, now);
        expired := expired - {k};
      }
    }

    /** Bump the generation of a running producer, forget that of any other key. */
    method RetireGeneration(key: Key)
      modifies this`generations
      ensures generations == Retired(old(generations), inflight, {key})
    {
      if key in inflight {
        generations := generations[key := Gen(generations, key) + 1];
      } else {
        generations := generations - {key};
      }
    }

    /** Take one key out of the cache and retire its generation, as eviction and deletion do. */
    method Forget(key: Key, ghost e: Event)
      requires Valid() && (e == Evicted(key) || e == Deleted(key))
      modifies this`entries, this`order, this`generations, this`evictions, this`history
      ensures Valid() && history == old(history) + [e] && Timed(history) == Timed(old(history)) - {key}
      ensures entries == old(entries) - {key} && order == Without(old(order), key)
    {
      hide Consistent;
      ForgetKeeps(entries, order, inflight, generations, history, seen, key, e);
      evictions := evictions + if key in entries then 1 else 0;
      entries, order := entries - {key}, Without(order, key);
      RetireGeneration(key);
      history := history + [e];
    }

    /** `_store_locked`. A resident key keeps its place in the order; only a cache full of live
        entries evicts, and then the oldest one. */
    method StoreLocked(key: Key, value: Value, ttl: int, now: int, later: int)
      requires Valid() && seen <= now <= later && ttl > 0
      modifies this`entries, this`order, this`generations, this`evictions, this`seen, this`history, this`writes, this`overwrites
      ensures Valid() && seen == later && key in entries && entries[key] == Entry(value, later + ttl)
      ensures Answer(Timed(history), key, later) == Some(value)
      ensures StoreHistory(old(history), history, Stored(key, Entry(value, later + ttl)), key, maximum, now)
    {
      ghost var before := history;
      PurgeExpired(now);
      if key !in entries && |order| >= maximum {
        var oldest := order[0];
        LiveCount(order, entries, Timed(history), now);
        WithoutLists(order, entries.Keys, oldest);
        Forget(oldest, Evicted(oldest));
        Insert(key, Entry(value, later + ttl), later);
        assert EvictedFirst(before, history, Stored(key, Entry(value, later + ttl)), key, oldest, maximum, now);
      } else {
        Insert(key, Entry(value, later + ttl), later);
      }
    }

    method Insert(key: Key, entry: Entry, later: int)
      requires Valid() && seen <= later && (key !in entries ==> |order| < maximum)
      modifies this`entries, this`order, this`writes, this`overwrites, this`history, this`seen
      ensures Valid() && seen == later && history == old(history) + [Stored(key, entry)]
      ensures entries == old(entries)[key := entry] && Timed(history) == Timed(old(history))[key := entry]
      ensures order == if key in old(entries) then old(order) else old(order) + [key]
    {
      hide Consistent;
      InsertKeeps(entries, order, inflight, generations, history, seen, later, key, entry);
      overwrites := overwrites + if key in entries then 1 else 0;
      order := if key in entries then order else order + [key];
      entries := entries[key := entry];
      writes := writes + 1;
      history := history + [Stored(key, entry)];
      seen := later;
    }

    /** A caller overrides the key: a running producer of it must not store any more. */
    method Override(key: Key)
      requires Valid()
      modifies this`generations, this`history
      ensures Valid() && history == old(history) + [Overridden(key)]
    {
      OverrideKeeps(entries, order, inflight, generations, history, seen, key);
      if key in inflight {
        generations := generations[key := Gen(generations, key) + 1];
      }
      history := history + [Overridden(key)];
    }

    method Set(key: Key, value: Value, ttl: int, now: int, later: int)
      requires Valid() && seen <= now <= later && ttl > 0
      modifies this
      ensures Valid() && seen == later && inflight == old(inflight)
      ensures Answer(Timed(history), key, later) == Some(value)
      ensures StoreHistory(old(history) + [Overridden(key)], history, Stored(key, Entry(value, later + ttl)), key, maximum, now)
    {
      Override(key);
      StoreLocked(key, value, ttl, now, later);
    }

    /** One turn of `get_or_set`: a cached value, the right to produce, or a wait for the producer
        already running. A key never has two producers. */
    method Start(key: Key, now: int) returns (turn: Turn)
      requires Valid() && seen <= now
      modifies this
      ensures Valid() && seen == now
      ensures match turn
              case Served(value) => Answer(Timed(old(history)), key, now) == Some(value)
              case Produce => Answer(Timed(old(history)), key, now) == None && !Running(old(history), key)
              case Wait => Answer(Timed(old(history)), key, now) == None && Running(old(history), key)
      ensures history == if turn == Produce then old(history) + [Started(key)] else old(history)
      ensures inflight.Keys == old(inflight).Keys + if turn == Produce then {key} else {}
      ensures hits == old(hits) + (if turn.Served? then 1 else 0)
      ensures misses == old(misses) + if turn == Produce then 1 else 0
    {
      var cached := GetLocked(key, now);
      if cached.Some? {
        hits := hits + 1;
        return Served(cached.value);
      }
      if key in inflight {
        return Wait;
      }
      BeginProducing(key);
      return Produce;
    }

    method BeginProducing(key: Key)
      requires Valid() && key !in inflight
      modifies this`inflight, this`misses, this`history
      ensures Valid() && history == old(history) + [Started(key)]
      ensures inflight == old(inflight)[key := Gen(generations, key)] && misses == old(misses) + 1
    {
      hide Consistent;
      StartKeeps(entries, order, inflight, generations, history, seen, key);
      inflight := inflight[key := Gen(generations, key)];
      misses := misses + 1;
      history := history + [Started(key)];
    }

    /** The producer has its value: it is stored exactly when nothing disturbed the key since the
        producer started. */
    method Finish(key: Key, value: Value, ttl: int, now: int, later: int) returns (stored: bool)
      requires Valid() && key in inflight && seen <= now <= later && ttl > 0
      modifies this
      ensures Valid() && inflight == old(inflight)
      ensures stored <==> Undisturbed(old(history), key)
      ensures stored ==> Answer(Timed(history), key, later) == Some(value)
      ensures if stored then
                StoreHistory(old(history), history, Stored(key, Entry(value, later + ttl)), key, maximum, now)
              else history == old(history)
    {
      stored := Gen(generations, key) == inflight[key];
      if stored {
        StoreLocked(key, value, ttl, now, later);
      }
    }

    /** The producer is gone, with or without a value. */
    method Release(key: Key)
      requires Valid() && key in inflight
      modifies this`inflight, this`generations, this`history
      ensures Valid() && inflight == old(inflight) - {key} && history == old(history) + [Ended(key)]
      ensures key !in entries ==> key !in generations
    {
      hide Consistent;
      ReleaseKeeps(entries, order, inflight, generations, history, seen, key);
      inflight := inflight - {key};
      if key !in entries {
        generations := generations - {key};
      }
      history := history + [Ended(key)];
    }

    method Delete(key: Key) returns (removed: bool)
      requires Valid()
      modifies this
      ensures Valid() && removed == (key in old(entries)) && key !in entries && key !in Timed(history)
      ensures history == old(history) + [Deleted(key)] && inflight == old(inflight)
    {
      removed := key in entries;
      Forget(key, Deleted(key));
    }

    /** `invalidate_namespace`: drop the matching entries, then retire the generations of the
        matching entries and producers. */
    method InvalidateNamespace(ns: string, prefix: Option<string>) returns (dropped: nat)
      requires Valid()
      modifies this
      ensures Valid() && history == old(history) + [Invalidated(ns, prefix)] && inflight == old(inflight)
      ensures entries == old(entries) - Targets(old(entries).Keys, ns, prefix)
      ensures Timed(history) == Timed(old(history)) - Targets(Timed(old(history)).Keys, ns, prefix)
      ensures dropped == |old(order)| - |order|
    {
      var entryTargets, inflightTargets := Targets(entries.Keys, ns, prefix), Targets(inflight.Keys, ns, prefix);
      ghost var was, wasOrder := entries, order;
      dropped := DropEntries(entryTargets);
      InvalidationKeeps(was, wasOrder, order, inflight, generations, history, seen, ns, prefix);
      RetireGenerations(entryTargets + inflightTargets);
      evictions := evictions + dropped;
      history := history + [Invalidated(ns, prefix)];
    }

    method DropEntries(targets: set<Key>) returns (dropped: nat)
      requires Lists(order, entries.Keys) && targets <= entries.Keys
      modifies this`entries, this`order
      ensures Lists(order, entries.Keys) && entries == old(entries) - targets
      ensures |order| + dropped == |old(order)|
    {
      var rest := targets;
      dropped := 0;
      while rest != {}
        invariant rest <= targets && Lists(order, entries.Keys) && |order| + dropped == |old(order)|
        invariant entries == old(entries) - (targets - rest)
        decreases rest
      {
        var k :| k in rest;
        WithoutLists(order, entries.Keys, k);
        assert old(entries) - (targets - rest) - {k} == old(entries) - (targets - (rest - {k}));
        entries := entries - {k};
        order := Without(order, k);
        rest := rest - {k};
        dropped := dropped + 1;
      }
      assert targets - rest == targets;
    }

    method RetireGenerations(targets: set<Key>)
      modifies this`generations
      ensures generations == Retired(old(generations), inflight, targets)
    {
      var rest := targets;
      assert generations == Retired(generations, inflight, {});
      while rest != {}
        invariant rest <= targets && generations == Retired(old(generations), inflight, targets - rest)
        decreases rest
      {
        var k :| k in rest;
        RetireMore(old(generations), inflight, targets - rest, k);
        assert targets - (rest - {k}) == targets - rest + {k};
        RetireGeneration(k);
        rest := rest - {k};
      }
      assert targets - rest == targets;
    }

    /** `stats` reports live entries only, and its counters always balance. */
    method Stats(now: int) returns (live: nat, written: nat, evicted: nat)
      requires Valid() && seen <= now
      modifies this`entries, this`order, this`generations, this`evictions, this`seen
      ensures Valid() && written == live + evicted + overwrites && live <= maximum
      ensures live == |Live(Timed(history), now)|
    {
      PurgeExpired(now);
      LiveCount(order, entries, Timed(history), now);
      return |order|, writes, evictions;
    }

    /** A whole `get_or_set` of a single caller that finds no producer running. */
    method GetOrSet(key: Key, produced: Option<Value>, ttl: int, start: int, now: int, later: int)
      returns (value: Option<Value>)
      requires Valid() && seen <= start <= now <= later && ttl > 0 && !Running(history, key)
      modifies this
      ensures Valid() && !Running(history, key)
      ensures var known := Answer(Timed(old(history)), key, start);
              && value == (if known.Some? then known else produced)
              && (known.None? && produced.Some? ==> Answer(Timed(history), key, later) == produced)
              && (known.None? && produced.None? ==> Timed(history) == Timed(old(history)))
    {
      var turn := Start(key, start);
      if turn.Served? {
        return Some(turn.value);
      }
      Appended(old(history), Started(key));
      if produced.Some? {
        var stored := Finish(key, produced.value, ttl, now, later);
      }
      Appended(history, Ended(key));
      Release(key);
      return produced;
    }
  }

  /** Retiring bumps the generation of a running producer and forgets any other. */
  function Retired(generations: Generations, inflight: Generations, targets: set<Key>): Generations {
    map k | k in generations.Keys + targets && (k in targets ==> k in inflight) ::
      if k in targets then Gen(generations, k) + 1 else generations[k]
  }

  lemma RetireMore(generations: Generations, inflight: Generations, done: set<Key>, k: Key)
    requires k !in done
    ensures Retired(generations, inflight, done + {k}) == Retired(Retired(generations, inflight, done), inflight, {k})
  {
  }

  /** After a purge the resident entries are exactly the live ones of the timed map. */
  lemma LiveCount(order: seq<Key>, entries: Entries, timed: Entries, now: int)
    requires Lists(order, entries.Keys) && Faithful(entries, timed, now)
    requires forall k :: k in entries ==> now < entries[k].expiresAt
    ensures |order| == |Live(timed, now)| && entries.Keys == Live(timed, now)
  {
    assert entries.Keys == Live(timed, now);
    ListsSize(order, entries.Keys);
  }

  function Live(timed: Entries, now: int): set<Key> {
    set k | k in timed && now < timed[k].expiresAt
  }

  /** A store makes room first: it evicts at most one other live key, and only when the live
      entries already fill the cache and the key is not among them. */
  ghost predicate StoreHistory(before: seq<Event>, after: seq<Event>, stored: Event, key: Key, maximum: nat, now: int) {
    || after == before + [stored]
    || exists k :: EvictedFirst(before, after, stored, key, k, maximum, now)
  }

  ghost predicate EvictedFirst(before: seq<Event>, after: seq<Event>, stored: Event, key: Key, k: Key, maximum: nat, now: int) {
    && after == before + [Evicted(k)] + [stored]
    && k in Live(Timed(before), now) && key !in Live(Timed(before), now) && |Live(Timed(before), now)| == maximum
  }

  /** What a lookup must answer at this time. */
  function Answer(timed: Entries, key: Key, now: int): Option<Value> {
    if key in timed && now < timed[key].expiresAt then Some(timed[key].value) else None
  }
}

/** The durable event outbox and its dispatcher (src/plaik_core/event_outbox.py). Rows live in one
    table; publishing, marking and quarantining are separate effects the process may stop at. */
module Outboxes {
  import opened Prelude

  type EventId = nat

  datatype RowState = Pending | Dispatched | Quarantined

  /** `payloadOk` and `envelopeOk` say whether the stored text still parses. */
  datatype Row = Row(
    createdAt: int, owner: string, contract: string, key: Option<string>, payloadOk: bool, envelopeOk: bool,
    state: RowState)

  type Rows = map<EventId, Row>

  predicate Deliverable(r: Row) {
    r.payloadOk && r.envelopeOk
  }

  predicate IsPending(rows: Rows, id: EventId) {
    id in rows && rows[id].state == Pending
  }

  function PendingIds(rows: Rows): set<EventId> {
    set id | id in rows && IsPending(rows, id)
  }

  /** ORDER BY created_at, id. */
  predicate Precedes(rows: Rows, a: EventId, b: EventId) {
    a in rows && b in rows &&
    (rows[a].createdAt < rows[b].createdAt || (rows[a].createdAt == rows[b].createdAt && a < b))
  }

  predicate InOrder(rows: Rows, ids: seq<EventId>, i: int, j: int) {
    0 <= i < j < |ids| ==> Precedes(rows, ids[i], ids[j])
  }

  ghost predicate Ordered(rows: Rows, ids: seq<EventId>) {
    forall i, j {:trigger InOrder(rows, ids, i, j)} :: InOrder(rows, ids, i, j)
  }

  predicate ComesBefore(rows: Rows, ids: seq<EventId>, i: int, other: EventId) {
    0 <= i < |ids| && IsPending(rows, other) && other !in ids ==> Precedes(rows, ids[i], other)
  }

  /** `ids` are pending, in order, and come before every other pending row. */
  ghost predicate FirstPending(rows: Rows, ids: seq<EventId>) {
    && Ordered(rows, ids) && (forall i :: 0 <= i < |ids| ==> IsPending(rows, ids[i]))
    && forall i, other {:trigger ComesBefore(rows, ids, i, other)} :: ComesBefore(rows, ids, i, other)
  }

  function Settle(rows: Rows, id: EventId): Rows
    requires id in rows
  {
    rows[id := rows[id].(state := if Deliverable(rows[id]) then Dispatched else Quarantined)]
  }

  predicate HandledFirst(start: Rows, rows: Rows, a: EventId, b: EventId) {
    IsPending(start, a) && !IsPending(rows, a) && IsPending(rows, b) ==> Precedes(start, a, b)
  }

  /** What a dispatch may have done: `delivered` are rows that were pending and deliverable, in
      order; other handled rows were malformed and are quarantined; handled rows come before the
      rows still pending; nothing else changed. */
  ghost predicate Handled(start: Rows, rows: Rows, delivered: seq<EventId>) {
    && rows.Keys == start.Keys && Ordered(start, delivered)
    && (forall id :: id in start ==> rows[id] == start[id] || (IsPending(start, id) && rows[id] == Settle(start, id)[id]))
    && (forall id :: id in delivered <==> IsPending(start, id) && Deliverable(start[id]) && !IsPending(rows, id))
    && (forall a, b {:trigger HandledFirst(start, rows, a, b)} :: HandledFirst(start, rows, a, b))
  }

  /** No pending row is missing from `ids`. */
  ghost predicate Complete(rows: Rows, ids: seq<EventId>) {
    forall id :: IsPending(rows, id) ==> id in ids
  }

  lemma FirstPrecedes(rows: Rows, ids: seq<EventId>, other: EventId)
    requires ids != [] && FirstPending(rows, ids) && IsPending(rows, other) && other != ids[0]
    ensures Precedes(rows, ids[0], other)
  {
    if other in ids {
      var i :| 0 <= i < |ids| && ids[i] == other;
      assert InOrder(rows, ids, 0, i);
    } else {
      assert ComesBefore(rows, ids, 0, other);
    }
  }

  lemma SettleKeepsFirst(rows: Rows, ids: seq<EventId>)
    requires ids != [] && FirstPending(rows, ids)
    ensures FirstPending(Settle(rows, ids[0]), ids[1..])
    ensures |PendingIds(Settle(rows, ids[0]))| + 1 == |PendingIds(rows)|
    ensures Complete(rows, ids) ==> Complete(Settle(rows, ids[0]), ids[1..])
  {
    var after, tail := Settle(rows, ids[0]), ids[1..];
    assert ids == [ids[0]] + tail;
    assert PendingIds(after) == PendingIds(rows) - {ids[0]};
    forall i, j ensures InOrder(after, tail, i, j) {
      assert InOrder(rows, ids, i + 1, j + 1);
    }
    forall id | Complete(rows, ids) && IsPending(after, id) ensures id in tail {
      assert IsPending(rows, id);
    }
    forall i | 0 <= i < |tail| ensures IsPending(after, tail[i]) {
      assert InOrder(rows, ids, 0, i + 1);
    }
    forall i, other ensures ComesBefore(after, tail, i, other) {
      assert ComesBefore(rows, ids, i + 1, other);
    }
  }

  lemma SettleKeepsHandled(start: Rows, rows: Rows, delivered: seq<EventId>, ids: seq<EventId>)
    requires Handled(start, rows, delivered) && ids != [] && FirstPending(rows, ids)
    ensures IsPending(start, ids[0]) && start[ids[0]] == rows[ids[0]]
    ensures Handled(start, Settle(rows, ids[0]),
                    if Deliverable(rows[ids[0]]) then delivered + [ids[0]] else delivered)
  {
    var id := ids[0];
    var after := Settle(rows, id);
    var longer := delivered + [id];
    forall a, b ensures HandledFirst(start, after, a, b) {
      assert HandledFirst(start, rows, a, b);
      if IsPending(after, b) {
        FirstPrecedes(rows, ids, b);
      }
    }
    forall i, j ensures InOrder(start, longer, i, j) {
      assert InOrder(start, delivered, i, j);
      if 0 <= i < j == |delivered| {
        assert delivered[i] in delivered;
        assert HandledFirst(start, rows, delivered[i], id);
      }
    }
  }

  /** The table after the first rows of a page, and which of them were delivered. */
  function SettleAll(rows: Rows, ids: seq<EventId>): Rows {
    if ids == [] then rows
    else
      var before := SettleAll(rows, ids[..|ids| - 1]);
      var id := ids[|ids| - 1];
      if id in before then Settle(before, id) else before
  }

  function DeliveredOf(rows: Rows, ids: seq<EventId>): seq<EventId> {
    if ids == [] then []
    else
      var id := ids[|ids| - 1];
      DeliveredOf(rows, ids[..|ids| - 1]) + if id in rows && Deliverable(rows[id]) then [id] else []
  }

  /** A page handled row by row from its front keeps the rest of the page first in line. */
  lemma {:induction false} PageStays(rows: Rows, batch: seq<EventId>, k: nat)
    requires FirstPending(rows, batch) && k <= |batch|
    ensures var after := SettleAll(rows, batch[..k]);
            && FirstPending(after, batch[k..]) && (Complete(rows, batch) ==> Complete(after, batch[k..]))
            && |PendingIds(after)| + k == |PendingIds(rows)|
            && forall j :: k <= j < |batch| ==> IsPending(after, batch[j]) && after[batch[j]] == rows[batch[j]]
  {
    if k > 0 {
      PageStays(rows, batch, k - 1);
      var before := SettleAll(rows, batch[..k - 1]);
      assert batch[..k][..k - 1] == batch[..k - 1] && batch[k - 1..][1..] == batch[k..];
      SettleKeepsFirst(before, batch[k - 1..]);
      forall j | k <= j < |batch| ensures batch[j] != batch[k - 1] {
        assert InOrder(rows, batch, k - 1, j);
      }
    } else {
      assert batch[0..] == batch;
    }
  }

  lemma PageBegins(rows: Rows, batch: seq<EventId>, done: seq<EventId>)
    ensures SettleAll(rows, batch[..0]) == rows && done + DeliveredOf(rows, batch[..0]) == done
  {
  }

  lemma PageUnfolds(rows: Rows, batch: seq<EventId>, done: seq<EventId>, k: nat)
    requires FirstPending(rows, batch) && 0 < k <= |batch|
    ensures var before := SettleAll(rows, batch[..k - 1]);
            batch[k - 1] in before && before[batch[k - 1]] == rows[batch[k - 1]]
            && FirstPending(before, batch[k - 1..]) && SettleAll(rows, batch[..k]) == Settle(before, batch[k - 1])
    ensures done + DeliveredOf(rows, batch[..k]) ==
            if Deliverable(rows[batch[k - 1]]) then done + DeliveredOf(rows, batch[..k - 1]) + [batch[k - 1]]
            else done + DeliveredOf(rows, batch[..k - 1])
  {
    PageStays(rows, batch, k - 1);
    assert batch[..k][..k - 1] == batch[..k - 1];
  }

  lemma {:induction false} PageHandled(start: Rows, rows: Rows, done: seq<EventId>, batch: seq<EventId>, k: nat)
    requires Handled(start, rows, done) && FirstPending(rows, batch) && k <= |batch|
    ensures Handled(start, SettleAll(rows, batch[..k]), done + DeliveredOf(rows, batch[..k]))
  {
    if k == 0 {
      assert done + [] == done;
    } else {
      PageHandled(start, rows, done, batch, k - 1);
      PageUnfolds(rows, batch, done, k);
      SettleKeepsHandled(start, SettleAll(rows, batch[..k - 1]), done + DeliveredOf(rows, batch[..k - 1]), batch[k - 1..]);
    }
  }

  lemma NextPending(rows: Rows, ids: seq<EventId>, first: EventId)
    requires FirstPending(rows, ids) && IsPending(rows, first) && first !in ids
    requires forall id :: IsPending(rows, id) && id !in ids && id != first ==> Precedes(rows, first, id)
    ensures FirstPending(rows, ids + [first])
  {
    var longer := ids + [first];
    forall i, j ensures InOrder(rows, longer, i, j) {
      assert InOrder(rows, ids, i, j) && ComesBefore(rows, ids, i, first);
    }
    forall i, other ensures ComesBefore(rows, longer, i, other) {
      assert ComesBefore(rows, ids, i, other);
    }
  }

  /** A row is marked dispatched only after it was published. */
  ghost predicate NewlyDispatchedWerePublished(before: Rows, after: Rows, published: seq<EventId>) {
    forall id :: IsPending(before, id) && id in after && after[id].state == Dispatched ==> id in published
  }

  /** Beyond the rows marked, at most the first pending row was published: it will be again. */
  ghost predicate PublishedAtMostFirst(rows: Rows, marked: seq<EventId>, published: seq<EventId>) {
    published == marked || exists id :: FirstPending(rows, [id]) && published == marked + [id]
  }

  lemma FirstAlone(rows: Rows, ids: seq<EventId>)
    requires ids != [] && FirstPending(rows, ids)
    ensures FirstPending(rows, [ids[0]])
  {
    var alone := [ids[0]];
    forall i, other ensures ComesBefore(rows, alone, i, other) {
      if IsPending(rows, other) && other != ids[0] {
        FirstPrecedes(rows, ids, other);
      }
    }
  }

  lemma PageEnds(rows: Rows, batch: seq<EventId>, k: nat)
    requires k <= |batch| && FirstPending(rows, batch[k..])
    ensures k < |batch| ==> FirstPending(rows, [batch[k]])
    ensures k == |batch| ==> batch[k..] == []
  {
    if k < |batch| {
      FirstAlone(rows, batch[k..]);
    }
  }

  /** The bus; every publication reaches its handlers in this order. */
  class EventBus {
    var published: seq<EventId>

    constructor ()
      ensures published == []
    {
      published := [];
    }
  }

  class SQLiteEventOutbox {
    var rows: Rows

    constructor ()
      ensures rows == map[]
    {
      rows := map[];
    }

    /** One row per owner, contract and idempotency key. */
    ghost predicate KeysUnique()
      reads this
    {
      forall a, b :: a in rows && b in rows && SameKey(rows[a], rows[b]) ==> a == b
    }

    /** Insert a row, or return the row that already holds the idempotency key. */
    method Enqueue(id: EventId, owner: string, contract: string, key: Option<string>, createdAt: int)
      returns (stored: EventId)
      requires KeysUnique() && id !in rows
      modifies this
      ensures KeysUnique() && stored in rows
      ensures var row := Row(createdAt, owner, contract, key, true, true, Pending);
              if exists known :: known in old(rows) && SameKey(old(rows)[known], row) then
                stored in old(rows) && SameKey(old(rows)[stored], row) && rows == old(rows)
              else
                stored == id && rows == old(rows)[id := row]
    {
      var row := Row(createdAt, owner, contract, key, true, true, Pending);
      if known :| known in rows && SameKey(rows[known], row) {
        return known;
      }
      rows := rows[id := row];
      return id;
    }

    /** The first pending rows, at most `limit`. */
    method PendingRows(limit: nat) returns (ids: seq<EventId>)
      ensures FirstPending(rows, ids) && |ids| <= limit
      ensures |ids| < limit ==> Complete(rows, ids)
    {
      ids := [];
      var rest := PendingIds(rows);
      while |ids| < limit && rest != {}
        invariant |ids| <= limit && FirstPending(rows, ids)
        invariant forall id :: id in rest <==> IsPending(rows, id) && id !in ids
        decreases rest
      {
        var first := First(rest);
        NextPending(rows, ids, first);
        ids := ids + [first];
        rest := rest - {first};
      }
    }

    method First(candidates: set<EventId>) returns (first: EventId)
      requires candidates != {} && candidates <= rows.Keys
      ensures first in candidates && forall id :: id in candidates && id != first ==> Precedes(rows, first, id)
    {
      first :| first in candidates;
      var rest := candidates - {first};
      while rest != {}
        invariant rest <= candidates && first in candidates && first !in rest
        invariant forall id :: id in candidates && id !in rest && id != first ==> Precedes(rows, first, id)
        decreases rest
      {
        var id :| id in rest;
        if Precedes(rows, id, first) {
          first := id;
        }
        rest := rest - {id};
      }
    }

    /** `mark_dispatched` and `quarantine` refuse a row that is not pending. */
    method Mark(id: EventId, state: RowState) returns (ok: bool)
      modifies this
      ensures ok <==> IsPending(old(rows), id)
      ensures rows == if ok then old(rows)[id := old(rows)[id].(state := state)] else old(rows)
    {
      ok := id in rows && rows[id].state == Pending;
      if ok {
        rows := rows[id := rows[id].(state := state)];
      }
    }
  }

  predicate SameKey(a: Row, b: Row) {
    a.key.Some? && a.key == b.key && a.owner == b.owner && a.contract == b.contract
  }

  const MAXIMUM_LIMIT := 1000

  predicate LimitAccepted(limit: int) {
    1 <= limit <= MAXIMUM_LIMIT
  }

  class EventOutboxDispatcher {
    const outbox: SQLiteEventOutbox
    const bus: EventBus
    var tick: nat

    constructor (outbox: SQLiteEventOutbox, bus: EventBus)
      ensures this.outbox == outbox && this.bus == bus
    {
      this.outbox, this.bus, tick := outbox, bus, 0;
    }

    /** Ask the host about one effect. */
    method Effect(host: Host) returns (o: Outcome)
      modifies this
      ensures tick == old(tick) + 1
      ensures o == match host.fault(old(tick))
                   case NoFault => Done
                   case Raise => Raised
                   case Crash => Crashed
    {
      var f := host.fault(tick);
      tick := tick + 1;
      return match f
             case NoFault => Done
             case Raise => Raised
             case Crash => Crashed;
    }

    /** Deliver or quarantine the first pending row. A row is marked only after its publication
        returned; if marking fails the row stays pending and will be published again. */
    method HandleRow(host: Host, id: EventId) returns (o: Outcome)
      requires IsPending(outbox.rows, id)
      modifies this, outbox, bus
      ensures o == Done ==>
                && outbox.rows == Settle(old(outbox.rows), id)
                && bus.published == old(bus.published) + (if Deliverable(old(outbox.rows)[id]) then [id] else [])
      ensures o != Done ==> outbox.rows == old(outbox.rows)
      ensures o != Done ==>
                bus.published == old(bus.published) ||
                (bus.published == old(bus.published) + [id] && Deliverable(old(outbox.rows)[id]))
      ensures old(tick) <= tick && (o == Done <==> Calm(host, old(tick), tick))
    {
      var row := outbox.rows[id];
      if Deliverable(row) {
        o := Effect(host);  // publish, and whatever its handlers raise
        if o != Done {
          return;
        }
        bus.published := bus.published + [id];
      }
      o := Effect(host);
      if o == Done {
        var ok := outbox.Mark(id, if Deliverable(row) then Dispatched else Quarantined);
      }
    }

    /** `dispatch`. Undisturbed it delivers the first deliverable rows in order and ends with the
        limit reached or nothing pending, whatever malformed rows stand in the way. A limit outside
        1 to 1000 is refused. */
    method Dispatch(host: Host, limit: int) returns (o: Outcome, delivered: nat, ghost ids: seq<EventId>)
      modifies this, outbox, bus
      ensures !LimitAccepted(limit) ==>
                o == Raised && ids == [] && outbox.rows == old(outbox.rows) && bus.published == old(bus.published)
      ensures Handled(old(outbox.rows), outbox.rows, ids) && delivered == |ids|
      ensures LimitAccepted(limit) ==> delivered <= limit
      ensures o == Done ==> bus.published == old(bus.published) + ids
      ensures o == Done ==> delivered == limit || PendingIds(outbox.rows) == {}
      ensures o != Done ==>
                PublishedAtMostFirst(outbox.rows, old(bus.published) + ids, bus.published)
      ensures old(tick) <= tick && (o == Done <==> LimitAccepted(limit) && Calm(host, old(tick), tick))
    {
      o, delivered, ids := Done, 0, [];
      if !LimitAccepted(limit) {
        return Raised, 0, [];
      }
      var more := true;
      while more && delivered < limit
        invariant o == Done && old(tick) <= tick && Calm(host, old(tick), tick)
        invariant Handled(old(outbox.rows), outbox.rows, ids) && delivered == |ids| <= limit
        invariant bus.published == old(bus.published) + ids
        invariant !more && delivered < limit ==> Complete(outbox.rows, [])
        decreases |PendingIds(outbox.rows)|, more
      {
        ghost var was := PendingIds(outbox.rows);
        var batch := outbox.PendingRows(limit);
        if batch == [] {
          more := false;
        } else {
          var quarantined;
          o, delivered, quarantined, ids := DispatchBatch(host, limit, delivered, batch, old(outbox.rows), old(bus.published), ids);
          if o != Done {
            return;
          }
          more := quarantined > 0;
        }
      }
    }

    /** One page of rows, handled from its front until the limit is reached. */
    method DispatchBatch(host: Host, limit: nat, before: nat, batch: seq<EventId>,
                         ghost start: Rows, ghost sent: seq<EventId>, ghost done: seq<EventId>)
      returns (o: Outcome, delivered: nat, quarantined: nat, ghost ids: seq<EventId>)
      requires Handled(start, outbox.rows, done) && before == |done| < limit && bus.published == sent + done
      requires batch != [] && FirstPending(outbox.rows, batch) && |batch| <= limit
      requires |batch| < limit ==> Complete(outbox.rows, batch)
      modifies this, outbox, bus
      ensures Handled(start, outbox.rows, ids) && delivered == |ids| <= limit
      ensures o == Done ==> bus.published == sent + ids
      ensures o == Done ==> |PendingIds(outbox.rows)| < |PendingIds(old(outbox.rows))|
      ensures o == Done && quarantined == 0 && delivered < limit ==> Complete(outbox.rows, [])
      ensures o != Done ==> PublishedAtMostFirst(outbox.rows, sent + ids, bus.published)
      ensures old(tick) <= tick && (o == Done <==> Calm(host, old(tick), tick))
    {
      hide SettleAll, DeliveredOf, Handled, FirstPending, Complete;
      ghost var rows := outbox.rows;
      o, delivered, quarantined, ids := Done, before, 0, done;
      var k := 0;
      PageBegins(rows, batch, done);
      while k < |batch| && delivered < limit && o == Done
        invariant 0 <= k <= |batch| && (o == Done <==> Calm(host, old(tick), tick)) && old(tick) <= tick
        invariant outbox.rows == SettleAll(rows, batch[..k]) && ids == done + DeliveredOf(rows, batch[..k])
        invariant delivered == |ids| <= limit && delivered + quarantined == before + k
        invariant o == Done ==> bus.published == sent + ids && (k > 0 || delivered < limit)
        invariant o != Done ==>
                    bus.published == sent + ids || (k < |batch| && bus.published == sent + ids + [batch[k]])
        decreases |batch| - k, o == Done
      {
        PageStays(rows, batch, k);
        PageUnfolds(rows, batch, done, k + 1);
        var deliverable := Deliverable(outbox.rows[batch[k]]);
        o := HandleRow(host, batch[k]);
        if o == Done {
          if deliverable {
            delivered := delivered + 1;
            ids := ids + [batch[k]];
          } else {
            quarantined := quarantined + 1;
          }
          k := k + 1;
        }
      }
      PageStays(rows, batch, k);
      PageHandled(start, rows, done, batch, k);
      PageEnds(outbox.rows, batch, k);
    }

    /** `_drain_claimed`: dispatch until the limit is reached or nothing more is delivered. A limit
        below 1 delivers nothing; one above 1000 is refused by the first dispatch. */
    method Drain(host: Host, limit: int) returns (o: Outcome, delivered: nat)
      modifies this, outbox, bus
      ensures limit < 1 || limit > MAXIMUM_LIMIT ==>
                delivered == 0 && outbox.rows == old(outbox.rows) && bus.published == old(bus.published)
      ensures o == Done && limit >= 1 ==> delivered <= limit && (delivered == limit || PendingIds(outbox.rows) == {})
      ensures o == Done ==> |bus.published| == |old(bus.published)| + delivered && old(bus.published) <= bus.published
      ensures outbox.rows.Keys == old(outbox.rows).Keys
      ensures forall id :: id in old(outbox.rows) && !IsPending(old(outbox.rows), id) ==> outbox.rows[id] == old(outbox.rows)[id]
      ensures NewlyDispatchedWerePublished(old(outbox.rows), outbox.rows, bus.published)
      ensures old(tick) <= tick && (o == Done <==> limit <= MAXIMUM_LIMIT && Calm(host, old(tick), tick))
    {
      o, delivered := Done, 0;
      var remaining := limit;
      while remaining > 0
        invariant o == Done && old(tick) <= tick && Calm(host, old(tick), tick) && delivered + remaining == limit
        invariant limit > MAXIMUM_LIMIT || limit < 1 ==>
                    delivered == 0 && outbox.rows == old(outbox.rows) && bus.published == old(bus.published)
        invariant limit < 1 || remaining >= 0
        invariant |bus.published| == |old(bus.published)| + delivered && old(bus.published) <= bus.published
        invariant outbox.rows.Keys == old(outbox.rows).Keys
        invariant forall id :: id in old(outbox.rows) && !IsPending(old(outbox.rows), id) ==>
                    outbox.rows[id] == old(outbox.rows)[id]
        invariant NewlyDispatchedWerePublished(old(outbox.rows), outbox.rows, bus.published)
      {
        var batch;
        ghost var ids;
        o, batch, ids := Dispatch(host, remaining);
        if o != Done {
          return;
        }
        if batch == 0 {
          return;
        }
        delivered := delivered + batch;
        remaining := remaining - batch;
      }
    }
  }
}

/** The order in which a dictionary lists its keys. */
module InsertionOrder {

  predicate Differ<K(==)>(order: seq<K>, i: int, j: int) {
    0 <= i < j < |order| ==> order[i] != order[j]
  }

  ghost predicate Distinct<K>(order: seq<K>) {
    forall i, j {:trigger Differ(order, i, j)} :: Differ(order, i, j)
  }

  /** Every key is listed once. */
  ghost predicate Lists<K(!new)>(order: seq<K>, keys: set<K>) {
    Distinct(order) && forall k :: k in order <==> k in keys
  }

  /** The order once a key is deleted. */
  function Without<K(==,!new)>(order: seq<K>, key: K): (r: seq<K>)
    ensures forall k :: k in r <==> k in order && k != key
  {
    if order == [] then []
    else if order[0] == key then Without(order[1..], key)
    else [order[0]] + Without(order[1..], key)
  }

  lemma TailDistinct<K>(order: seq<K>)
    requires order != [] && Distinct(order)
    ensures Distinct(order[1..]) && order[0] !in order[1..]
  {
    var tail := order[1..];
    forall i, j ensures Differ(tail, i, j) {
      assert Differ(order, i + 1, j + 1);
    }
    forall j | 0 <= j < |tail| ensures tail[j] != order[0] {
      assert Differ(order, 0, j + 1);
    }
  }

  lemma ConsDistinct<K>(key: K, tail: seq<K>)
    requires Distinct(tail) && key !in tail
    ensures Distinct([key] + tail)
  {
    var order := [key] + tail;
    forall i, j ensures Differ(order, i, j) {
      assert Differ(tail, i - 1, j - 1);
    }
  }

  lemma AppendLists<K(!new)>(order: seq<K>, keys: set<K>, key: K)
    requires Lists(order, keys) && key !in keys
    ensures Lists(order + [key], keys + {key})
  {
    var longer := order + [key];
    forall i, j ensures Differ(longer, i, j) {
      assert Differ(order, i, j);
    }
  }

  lemma {:induction false} WithoutDistinct<K(!new)>(order: seq<K>, key: K)
    requires Distinct(order)
    ensures var r := Without(order, key);
            && Distinct(r) && |r| == |order| - (if key in order then 1 else 0)
            && (key !in order ==> r == order) && (order != [] && order[0] == key ==> r == order[1..])
  {
    if order != [] {
      TailDistinct(order);
      WithoutDistinct(order[1..], key);
      if order[0] != key {
        ConsDistinct(order[0], Without(order[1..], key));
      }
    }
  }

  lemma WithoutLists<K(!new)>(order: seq<K>, keys: set<K>, key: K)
    requires Lists(order, keys)
    ensures var r := Without(order, key);
            && Lists(r, keys - {key}) && |r| == |order| - (if key in keys then 1 else 0)
            && (key !in keys ==> r == order) && (order != [] && order[0] == key ==> r == order[1..])
  {
    WithoutDistinct(order, key);
  }

  lemma {:induction false} ListsSize<K(!new)>(order: seq<K>, keys: set<K>)
    requires Lists(order, keys)
    ensures |order| == |keys|
  {
    if order == [] {
      assert keys == {};
    } else {
      TailDistinct(order);
      assert forall k :: k in order[1..] <==> k in keys - {order[0]};
      ListsSize(order[1..], keys - {order[0]});
    }
  }
}

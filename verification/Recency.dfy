/**
 The bounded least-recently-used map that the rate limiter and the idempotency cache
 are built on, as its library documents it: reads and writes make a key the most
 recent, and adding a key to a full map evicts the least recent one.
 */
module Recency {
  import opened Collections

  function Without<K(==)>(s: seq<K>, k: K): (r: seq<K>)
    ensures k !in r
    ensures forall x :: x in s && x != k ==> x in r
    ensures forall x :: x in r ==> x in s
    ensures Distinct(s) ==> Distinct(r)
    ensures Distinct(s) ==> |r| == |s| - (if k in s then 1 else 0)
  {
    if s == [] then []
    else if s[0] == k then Without(s[1..], k)
    else
      assert s == [s[0]] + s[1..];
      assert Distinct(s) ==> Distinct(s[1..]) && s[0] !in s[1..];
      [s[0]] + Without(s[1..], k)
  }

  /** `order` lists the keys, least recent first. */
  datatype Lru<K(==, !new), V> = Lru(order: seq<K>, vals: map<K, V>) {

    /** `order` lists the keys of the map, each once. */
    ghost predicate Listed() {
      && Distinct(order)
      && (forall k :: k in order <==> k in vals)
    }

    ghost predicate Valid(capacity: nat) {
      Listed() && |order| <= capacity
    }

    /** The library's Get, on a key that is present. */
    function Touch(k: K): (r: Lru<K, V>)
      requires k in vals
      ensures r.vals == vals
      ensures Listed() ==> r.Listed() && |r.order| <= |order|
    {
      Lru(Without(order, k) + [k], vals)
    }

    /** The key that adding `k` pushes out, as a set of at most one. */
    function Victim(k: K, capacity: nat): set<K> {
      if k !in vals && |order| >= capacity && order != [] then {order[0]} else {}
    }

    /** The library's Add. */
    function Put(k: K, v: V, capacity: nat): (r: Lru<K, V>)
      ensures r.vals == (vals - Victim(k, capacity))[k := v]
    {
      if k in vals then Lru(Without(order, k) + [k], vals[k := v])
      else if |order| >= capacity && order != [] then Lru(order[1..] + [k], (vals - {order[0]})[k := v])
      else Lru(order + [k], vals[k := v])
    }

    lemma PutKeepsValid(k: K, v: V, capacity: nat)
      requires Valid(capacity) && capacity > 0
      ensures Put(k, v, capacity).Valid(capacity)
    {
      if k !in vals && |order| >= capacity {
        var rest := order[1..];
        assert order == [order[0]] + rest;
        assert Distinct(rest) && order[0] !in rest;
      }
    }

    /** The library's Remove. */
    function Drop(k: K): (r: Lru<K, V>)
      ensures r.vals == vals - {k}
      ensures Listed() ==> r.Listed() && |r.order| <= |order|
    {
      Lru(Without(order, k), vals - {k})
    }
  }
}

/**
 What "least recently used" means without an order being kept: a key of the bounded map is
 pushed out by the others that were used after it.
 */
module RecencyLaw {
  import opened Collections
  import opened Recency

  /** The distinct other keys used since the last use of k. */
  function Since<K(==)>(uses: seq<K>, k: K): set<K> {
    if uses == [] || uses[|uses| - 1] == k then {}
    else Since(uses[..|uses| - 1], k) + {uses[|uses| - 1]}
  }

  lemma SinceNext<K>(uses: seq<K>, x: K, k: K)
    ensures Since(uses + [x], k) == if x == k then {} else Since(uses, k) + {x}
  {
    assert (uses + [x])[..|uses|] == uses;
  }

  /** The keys behind k in a list. */
  function After<K(==)>(order: seq<K>, k: K): set<K> {
    if order == [] then {} else if order[0] == k then Elems(order[1..]) else After(order[1..], k)
  }

  lemma ElemsSnoc<K>(order: seq<K>, x: K)
    ensures Elems(order + [x]) == Elems(order) + {x}
  {
  }

  lemma ElemsTail<K>(order: seq<K>)
    requires order != []
    ensures Elems(order) == {order[0]} + Elems(order[1..])
  {
    assert order == [order[0]] + order[1..];
  }

  lemma {:induction false} AfterSnoc<K>(order: seq<K>, x: K, k: K)
    requires k in order
    ensures After(order + [x], k) == After(order, k) + {x}
  {
    assert (order + [x])[1..] == order[1..] + [x];
    ElemsSnoc(order[1..], x);
    if order[0] != k { AfterSnoc(order[1..], x, k); }
  }

  lemma {:induction false} AfterLast<K>(order: seq<K>, x: K)
    requires x !in order
    ensures After(order + [x], x) == {}
  {
    if order == [] {
      assert (order + [x])[1..] == [];
    } else {
      assert (order + [x])[1..] == order[1..] + [x];
      AfterLast(order[1..], x);
    }
  }

  lemma {:induction false} AfterWithout<K>(order: seq<K>, x: K, k: K)
    requires Distinct(order) && k in order && k != x
    ensures After(Without(order, x), k) == After(order, k) - {x}
  {
    var rest := order[1..];
    assert order == [order[0]] + rest && Distinct(rest) && order[0] !in rest;
    if order[0] == x {
      assert After(order, k) == After(Without(order, x), k) by { NothingWithout(rest, x); }
      AfterIsBehind(rest, k);
    } else if order[0] == k {
      assert Without(order, x) == [k] + Without(rest, x);
      assert Elems(Without(rest, x)) == Elems(rest) - {x};
    } else {
      assert Without(order, x) == [order[0]] + Without(rest, x);
      AfterWithout(rest, x, k);
    }
  }

  lemma {:induction false} NothingWithout<K>(order: seq<K>, x: K)
    requires x !in order
    ensures Without(order, x) == order
  {
    if order != [] {
      NothingWithout(order[1..], x);
      assert order == [order[0]] + order[1..];
    }
  }

  lemma {:induction false} AfterIsBehind<K>(order: seq<K>, k: K)
    ensures After(order, k) <= Elems(order)
    ensures Distinct(order) ==> k !in After(order, k)
  {
    if order != [] {
      ElemsTail(order);
      AfterIsBehind(order[1..], k);
      assert Distinct(order) ==> Distinct(order[1..]) && order[0] !in order[1..];
    }
  }

  // ---- an order that tells the history --------------------------------------

  /** The map holds, in order of use, the keys used last. */
  ghost predicate HoldsLatest<K(!new), V>(s: Lru<K, V>, uses: seq<K>, capacity: nat) {
    && s.Valid(capacity)
    && (forall k :: k in s.order ==> k in uses && Since(uses, k) == After(s.order, k))
    && (forall k :: k in uses && k !in s.order ==> |Since(uses, k)| >= capacity)
  }

  /** The order after a use of x in a map that takes every key. */
  function Used<K(!new), V>(s: Lru<K, V>, x: K, capacity: nat): seq<K> {
    if x in s.vals then Without(s.order, x) + [x]
    else if |s.order| >= capacity && s.order != [] then s.order[1..] + [x]
    else s.order + [x]
  }

  lemma UsedOrder<K(!new), V>(s: Lru<K, V>, x: K, v: V, capacity: nat)
    ensures x in s.vals ==> s.Touch(x).order == Used(s, x, capacity)
    ensures s.Put(x, v, capacity).order == Used(s, x, capacity)
  {
  }

  lemma OthersMove<K(!new), V>(s: Lru<K, V>, x: K, capacity: nat, k: K)
    requires s.Valid(capacity) && capacity > 0 && k in Used(s, x, capacity) && k != x
    ensures k in s.order && After(Used(s, x, capacity), k) == After(s.order, k) + {x}
  {
    var order := s.order;
    if x in s.vals {
      AfterWithout(order, x, k);
      AfterSnoc(Without(order, x), x, k);
    } else if |order| >= capacity && order != [] {
      assert order == [order[0]] + order[1..] && order[0] !in order[1..];
      AfterSnoc(order[1..], x, k);
    } else {
      AfterSnoc(order, x, k);
    }
  }

  lemma NewestIsLast<K(!new), V>(s: Lru<K, V>, x: K, capacity: nat)
    requires s.Valid(capacity)
    ensures x in Used(s, x, capacity) && After(Used(s, x, capacity), x) == {}
  {
    if x in s.vals {
      AfterLast(Without(s.order, x), x);
    } else if |s.order| >= capacity && s.order != [] {
      AfterLast(s.order[1..], x);
    } else {
      AfterLast(s.order, x);
    }
  }

  /** Whoever is pushed out has been followed by as many others as the map holds. */
  lemma PushedOut<K(!new), V>(s: Lru<K, V>, x: K, capacity: nat, k: K)
    requires s.Valid(capacity) && capacity > 0 && k in s.order && k !in Used(s, x, capacity)
    ensures |After(s.order, k) + {x}| >= capacity
  {
    var order := s.order;
    if x !in s.vals && |order| >= capacity {
      assert order == [order[0]] + order[1..];
      assert k == order[0];
      assert Distinct(order[1..]) && x !in order;
      DistinctSize(order[1..]);
      assert |Elems(order[1..]) + {x}| == |Elems(order[1..])| + 1;
    }
  }

  lemma UseKeepsLatest<K(!new), V>(s: Lru<K, V>, t: Lru<K, V>, uses: seq<K>, capacity: nat, x: K)
    requires HoldsLatest(s, uses, capacity) && capacity > 0 && t.Valid(capacity) && t.order == Used(s, x, capacity)
    ensures HoldsLatest(t, uses + [x], capacity)
  {
    hide Since, After, Used;
    forall k | k in t.order ensures k in uses + [x] && Since(uses + [x], k) == After(t.order, k) {
      SinceNext(uses, x, k);
      if k == x { NewestIsLast(s, x, capacity); } else { OthersMove(s, x, capacity, k); }
    }
    forall k | k in uses + [x] && k !in t.order ensures |Since(uses + [x], k)| >= capacity {
      NewestIsLast(s, x, capacity);
      SinceNext(uses, x, k);
      if k in s.order {
        PushedOut(s, x, capacity, k);
      } else {
        SubsetSize(Since(uses, k), Since(uses, k) + {x});
      }
    }
  }

  /** So a key is in the map exactly if it has been used, and fewer others have been used
      since than the map holds. */
  lemma LatestAreHeld<K(!new), V>(s: Lru<K, V>, uses: seq<K>, capacity: nat, k: K)
    requires HoldsLatest(s, uses, capacity)
    ensures k in s.vals <==> k in uses && |Since(uses, k)| < capacity
  {
    if k in s.vals {
      AfterIsBehind(s.order, k);
      DistinctSize(s.order);
      SubsetSize(After(s.order, k), Elems(s.order) - {k});
      assert |Elems(s.order) - {k}| == |s.order| - 1;
    }
  }
}

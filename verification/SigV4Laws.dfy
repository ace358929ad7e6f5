/**
 What the encoded text and the canonical query string look like, byte by byte and in
 which order.
 */
module SigV4Laws {
  import opened Basics
  import opened SigV4

  // ---- the encoding, byte by byte -------------------------------------------

  /** Text is encoded piece by piece. */
  lemma {:induction false} EncodeConcat(a: Bytes, b: Bytes, keepSlash: bool)
    ensures Encode(a + b, keepSlash) == Encode(a, keepSlash) + Encode(b, keepSlash)
  {
    if a == [] {
      assert a + b == b;
    } else {
      hide EncodeByte;
      EncodeConcat(a[1..], b, keepSlash);
      assert (a + b)[0] == a[0] && (a + b)[1..] == a[1..] + b;
      var head := EncodeByte(a[0], keepSlash);
      assert head + (Encode(a[1..], keepSlash) + Encode(b, keepSlash)) == head + Encode(a[1..], keepSlash) + Encode(b, keepSlash);
    }
  }

  /** Letters, digits and four marks stand for themselves, a slash does in paths, and any
      other byte is a percent sign and two upper-case hex digits. */
  lemma ByteStands(c: Byte, keepSlash: bool)
    ensures Encode([c], keepSlash)
            == if || 'A' <= c <= 'Z' || 'a' <= c <= 'z' || '0' <= c <= '9' || c in "-_.~" || (c == '/' && keepSlash)
               then [c]
               else ['%', "0123456789ABCDEF"[c as int / 16], "0123456789ABCDEF"[c as int % 16]]
  {
    hide HexDigit;
    EncodeNothing(keepSlash);
    assert [c][1..] == [] && EncodeByte(c, keepSlash) + [] == EncodeByte(c, keepSlash);
  }

  // ---- the order ------------------------------------------------------------

  /** a comes before b: at the first place where they differ it has the smaller byte, or
      it ends there. */
  ghost predicate Before(a: Bytes, b: Bytes) {
    exists k: nat :: k <= |a| && k < |b| && a[..k] == b[..k] && (k == |a| || a[k] < b[k])
  }

  lemma {:induction false} LeIffBefore(a: Bytes, b: Bytes)
    ensures Le(a, b) <==> a == b || Before(a, b)
  {
    if a == [] {
      assert b != [] ==> a[..0] == b[..0];
    } else if b != [] {
      LeIffBefore(a[1..], b[1..]);
      assert a == [a[0]] + a[1..] && b == [b[0]] + b[1..];
      if a[0] < b[0] {
        assert a[..0] == b[..0];
      } else if a[0] == b[0] {
        BeforeBehindHead(a, b);
      } else if Before(a, b) {
        var k: nat :| k <= |a| && k < |b| && a[..k] == b[..k] && (k == |a| || a[k] < b[k]);
        if k > 0 { SameFirst(a, b, k); }
      }
    }
  }

  lemma SameFirst(a: Bytes, b: Bytes, k: nat)
    requires 0 < k <= |a| && k <= |b| && a[..k] == b[..k]
    ensures a[0] == b[0]
  {
    assert a[..k][0] == b[..k][0];
  }

  lemma BeforeBehindHead(a: Bytes, b: Bytes)
    requires a != [] && b != [] && a[0] == b[0]
    ensures Before(a, b) <==> Before(a[1..], b[1..])
  {
    if Before(a, b) {
      var k: nat :| k <= |a| && k < |b| && a[..k] == b[..k] && (k == |a| || a[k] < b[k]);
      assert k > 0;
      assert a[1..][..k - 1] == a[..k][1..] == b[..k][1..] == b[1..][..k - 1];
    }
    if Before(a[1..], b[1..]) {
      var k: nat :| k <= |a[1..]| && k < |b[1..]| && a[1..][..k] == b[1..][..k] && (k == |a[1..]| || a[1..][k] < b[1..][k]);
      assert a[..k + 1] == [a[0]] + a[1..][..k] == b[..k + 1];
    }
  }

  // ---- the canonical string -------------------------------------------------

  ghost predicate InOrder(a: Pair, b: Pair) {
    Before(a.key, b.key) || (a.key == b.key && (a.value == b.value || Before(a.value, b.value)))
  }

  ghost predicate Ordered(pairs: seq<Pair>) {
    forall i, j :: 0 <= i < j < |pairs| ==> InOrder(pairs[i], pairs[j])
  }

  /** How often a key has a value. */
  function Times(q: Query, p: Pair): nat {
    if p.key in q then multiset(q[p.key])[p.value] else 0
  }

  lemma OneKeyIsOrdered(key: Bytes, values: seq<Bytes>)
    requires Sorted(values)
    ensures Ordered(PairsFor(key, values))
  {
    hide Le, Before;
    forall i, j | 0 <= i < j < |values| ensures InOrder(PairsFor(key, values)[i], PairsFor(key, values)[j]) {
      LeIffBefore(values[i], values[j]);
    }
  }

  lemma OrderedConcat(a: seq<Pair>, b: seq<Pair>)
    requires Ordered(a) && Ordered(b) && forall i, j :: 0 <= i < |a| && 0 <= j < |b| ==> Before(a[i].key, b[j].key)
    ensures Ordered(a + b)
  {
    hide Before;
  }

  ghost predicate KeysAmong(pairs: seq<Pair>, keys: seq<Bytes>) {
    forall i :: 0 <= i < |pairs| ==> pairs[i].key in keys
  }

  lemma {:induction false} PairsAreOrdered(q: Query, keys: seq<Bytes>)
    requires Sorted(keys) && forall i, j :: 0 <= i < j < |keys| ==> keys[i] != keys[j]
    ensures Ordered(Pairs(q, keys)) && KeysAmong(Pairs(q, keys), keys)
  {
    hide Le, Before, Sort, InOrder;
    if keys != [] {
      var first, rest := keys[0], keys[1..];
      var values := Sort(Values(q, first));
      SortSorts(Values(q, first));
      OneKeyIsOrdered(first, values);
      PairsAreOrdered(q, rest);
      forall k | k in rest ensures Before(first, k) {
        var j :| 0 <= j < |rest| && rest[j] == k;
        assert keys[j + 1] == k;
        LeIffBefore(first, k);
      }
      OrderedConcat(PairsFor(first, values), Pairs(q, rest));
    }
  }

  lemma {:induction false} CountOne(key: Bytes, values: seq<Bytes>, p: Pair)
    ensures multiset(PairsFor(key, values))[p] == if p.key == key then multiset(values)[p.value] else 0
  {
    if values != [] {
      var n := |values| - 1;
      CountOne(key, values[..n], p);
      assert values == values[..n] + [values[n]];
      assert PairsFor(key, values) == PairsFor(key, values[..n]) + [Pair(key, values[n])];
    }
  }

  lemma {:induction false} CountPairs(q: Query, keys: seq<Bytes>, p: Pair)
    requires forall i, j :: 0 <= i < j < |keys| ==> keys[i] != keys[j]
    ensures multiset(Pairs(q, keys))[p] == if p.key in keys then multiset(Values(q, p.key))[p.value] else 0
  {
    hide Sort, PairsFor, Values;
    if keys != [] {
      var first, rest := keys[0], keys[1..];
      assert forall i :: 0 <= i < |rest| ==> rest[i] == keys[i + 1];
      assert first !in rest && (p.key in keys <==> p.key == first || p.key in rest);
      CountPairs(q, rest, p);
      CountOne(first, Sort(Values(q, first)), p);
    }
  }

  /** The canonical query string lists each value of each key as often as the query has it,
      by key and then by value in the order of bytes, whatever order the map is iterated in. */
  lemma CanonicalQueryIsOrdered(q: Query, order: seq<Bytes>)
    requires Enumerates(order, q)
    ensures var pairs := Read(Join(Pairs(q, Sort(order))));
            && pairs.Some? && Ordered(pairs.value)
            && forall p :: multiset(pairs.value)[p] == Times(q, p)
  {
    hide Sort, Pairs, Join, Read, Sorted, Ordered;
    ReadInvertsJoin(Pairs(q, Sort(order)));
    EnumeratedKeys(q, order);
    SortSorts(order);
    PairsAreOrdered(q, Sort(order));
    forall p ensures multiset(Pairs(q, Sort(order)))[p] == Times(q, p) {
      CountPairs(q, Sort(order), p);
    }
  }
}

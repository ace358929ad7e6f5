/**
 The URI encoding and the canonical query string of AWS Signature Version 4. Two query
 multimaps are signed alike exactly when they are equal.
 */
module SigV4 {
  import opened Basics

  // ---- percent encoding -----------------------------------------------------

  /** The unreserved characters of section 2.3 of RFC 3986. */
  predicate Unreserved(c: char) {
    || 'A' <= c <= 'Z' || 'a' <= c <= 'z' || '0' <= c <= '9'
    || c == '-' || c == '_' || c == '.' || c == '~'
  }

  const HEX_DIGITS := "0123456789ABCDEF"

  function HexDigit(n: int): (d: Byte)
    requires 0 <= n < 16
    ensures d == HEX_DIGITS[n] && HexValue(d) == Some(n) && Unreserved(d)
  {
    if n < 10 then (n + 48) as char else (n + 55) as char
  }

  function HexValue(c: char): Option<int> {
    if '0' <= c <= '9' then Some(c as int - 48) else if 'A' <= c <= 'F' then Some(c as int - 55) else None
  }

  function EncodeByte(c: Byte, keepSlash: bool): Bytes {
    if Unreserved(c) || (c == '/' && keepSlash) then [c]
    else ['%', HexDigit(c as int / 16), HexDigit(c as int % 16)]
  }

  function Encode(s: Bytes, keepSlash: bool): Bytes {
    if s == [] then [] else EncodeByte(s[0], keepSlash) + Encode(s[1..], keepSlash)
  }

  method AwsURIEncode(s: Bytes, keepSlash: bool) returns (b: Bytes)
    ensures b == Encode(s, keepSlash)
  {
    hide HexDigit, Unreserved, Encode;
    b := [];
    var i := 0;
    assert s[0..] == s;
    while i < |s|
      invariant 0 <= i <= |s|
      invariant Encode(s, keepSlash) == b + Encode(s[i..], keepSlash)
    {
      var c, piece := s[i], [];
      if Unreserved(c) {
        piece := [c];
      } else if c == '/' && keepSlash {
        piece := [c];
      } else {
        piece := ['%', HexDigit(c as int / 16), HexDigit(c as int % 16)];
      }
      assert piece == EncodeByte(c, keepSlash);
      EncodeNext(s, i, keepSlash, b);
      b := b + piece;
      i := i + 1;
    }
    EncodeNothing(keepSlash);
    assert s[i..] == [] && b + [] == b;
  }

  lemma EncodeNext(s: Bytes, i: nat, keepSlash: bool, b: Bytes)
    requires i < |s|
    ensures b + Encode(s[i..], keepSlash) == (b + EncodeByte(s[i], keepSlash)) + Encode(s[i + 1..], keepSlash)
  {
    hide EncodeByte;
    assert s[i..][1..] == s[i + 1..];
  }

  lemma EncodeNothing(keepSlash: bool)
    ensures Encode([], keepSlash) == []
  {
  }

  /** The reference decoder: a percent sign takes two hex digits, anything else stands
      for itself. */
  function Decode(t: Bytes): Option<Bytes> {
    if t == [] then Some([])
    else if t[0] == '%' then
      if |t| < 3 || HexValue(t[1]).None? || HexValue(t[2]).None? then None
      else
        match Decode(t[3..])
        case None => None
        case Some(rest) => Some([(HexValue(t[1]).value * 16 + HexValue(t[2]).value) as char] + rest)
    else
      match Decode(t[1..])
      case None => None
      case Some(rest) => Some([t[0]] + rest)
  }

  /** Decoding inverts encoding on every byte string, in paths and in queries. */
  lemma {:induction false} DecodeInvertsEncode(s: Bytes, keepSlash: bool)
    ensures Decode(Encode(s, keepSlash)) == Some(s)
  {
    if s != [] {
      DecodeInvertsEncode(s[1..], keepSlash);
      var head, tail := EncodeByte(s[0], keepSlash), Encode(s[1..], keepSlash);
      assert (head + tail)[|head|..] == tail;
      assert s == [s[0]] + s[1..];
    }
  }

  /** Encoded text has no separator of the query string in it. */
  lemma {:induction false} EncodedHasNoSeparators(s: Bytes, keepSlash: bool)
    ensures '&' !in Encode(s, keepSlash) && '=' !in Encode(s, keepSlash)
  {
    if s != [] {
      EncodedHasNoSeparators(s[1..], keepSlash);
    }
  }

  // ---- the query string -----------------------------------------------------

  datatype Pair = Pair(key: Bytes, value: Bytes)

  function Part(p: Pair): Bytes {
    Encode(p.key, false) + ['='] + Encode(p.value, false)
  }

  /** strings.Join of the parts. */
  function Join(pairs: seq<Pair>): Bytes {
    if pairs == [] then []
    else if |pairs| == 1 then Part(pairs[0])
    else Part(pairs[0]) + ['&'] + Join(pairs[1..])
  }

  /** Where a byte first occurs, or the length. */
  function Find(t: Bytes, c: Byte): (i: nat)
    ensures i <= |t|
  {
    if t == [] || t[0] == c then 0 else 1 + Find(t[1..], c)
  }

  lemma {:induction false} FindAfter(a: Bytes, c: Byte, b: Bytes)
    requires c !in a
    ensures Find(a + [c] + b, c) == |a|
    ensures Find(a, c) == |a|
  {
    if a != [] {
      assert (a + [c] + b)[1..] == a[1..] + [c] + b;
      FindAfter(a[1..], c, b);
    }
  }

  /** The reference reading of a query string. */
  function ReadPart(t: Bytes): Option<Pair> {
    var i := Find(t, '=');
    if i == |t| then None
    else
      match (Decode(t[..i]), Decode(t[i + 1..]))
      case (Some(k), Some(v)) => Some(Pair(k, v))
      case _ => None
  }

  function Read(t: Bytes): Option<seq<Pair>>
    decreases |t|
  {
    if t == [] then Some([])
    else
      var i := Find(t, '&');
      match ReadPart(t[..i])
      case None => None
      case Some(p) =>
        if i == |t| then Some([p])
        else
          match Read(t[i + 1..])
          case None => None
          case Some(rest) => Some([p] + rest)
  }

  lemma ReadPartInvertsPart(p: Pair)
    ensures ReadPart(Part(p)) == Some(p)
    ensures '&' !in Part(p) && Part(p) != []
  {
    var k, v := Encode(p.key, false), Encode(p.value, false);
    EncodedHasNoSeparators(p.key, false);
    EncodedHasNoSeparators(p.value, false);
    FindAfter(k, '=', v);
    assert Part(p)[..|k|] == k && Part(p)[|k| + 1..] == v;
    DecodeInvertsEncode(p.key, false);
    DecodeInvertsEncode(p.value, false);
  }

  lemma JoinIsNotEmpty(pairs: seq<Pair>)
    requires pairs != []
    ensures Join(pairs) != []
  {
    ReadPartInvertsPart(pairs[0]);
  }

  /** No query string is ambiguous: what was joined can be read back. */
  lemma {:induction false} ReadInvertsJoin(pairs: seq<Pair>)
    ensures Read(Join(pairs)) == Some(pairs)
  {
    if pairs != [] {
      hide Part, ReadPart, Find;
      var p, rest := pairs[0], pairs[1..];
      ReadPartInvertsPart(p);
      assert pairs == [p] + rest;
      if rest == [] {
        FindAfter(Part(p), '&', []);
        assert Part(p)[..|Part(p)|] == Part(p);
        assert pairs == [p];
      } else {
        ReadInvertsJoin(rest);
        JoinIsNotEmpty(rest);
        FindAfter(Part(p), '&', Join(rest));
        var t := Join(pairs);
        assert t[..|Part(p)|] == Part(p) && t[|Part(p)| + 1..] == Join(rest);
      }
    }
  }

  // ---- sorting --------------------------------------------------------------

  /** Go's order on strings: byte by byte, a prefix first. */
  predicate Le(a: Bytes, b: Bytes) {
    a == [] || (b != [] && (a[0] < b[0] || (a[0] == b[0] && Le(a[1..], b[1..]))))
  }

  lemma {:induction false} LeTotal(a: Bytes, b: Bytes)
    ensures Le(a, b) || Le(b, a)
  {
    if a != [] && b != [] { LeTotal(a[1..], b[1..]); }
  }

  lemma {:induction false} LeAntisymmetric(a: Bytes, b: Bytes)
    requires Le(a, b) && Le(b, a)
    ensures a == b
  {
    if a != [] {
      LeAntisymmetric(a[1..], b[1..]);
      assert a == [a[0]] + a[1..] && b == [b[0]] + b[1..];
    }
  }

  lemma {:induction false} LeTransitive(a: Bytes, b: Bytes, c: Bytes)
    requires Le(a, b) && Le(b, c)
    ensures Le(a, c)
  {
    if a != [] && a[0] == b[0] == c[0] { LeTransitive(a[1..], b[1..], c[1..]); }
  }

  ghost predicate Sorted(s: seq<Bytes>) {
    forall i, j :: 0 <= i < j < |s| ==> Le(s[i], s[j])
  }

  function Insert(x: Bytes, s: seq<Bytes>): (r: seq<Bytes>)
    ensures multiset(r) == multiset{x} + multiset(s)
  {
    if s == [] then [x]
    else
      assert s == [s[0]] + s[1..];
      if Le(x, s[0]) then [x] + s else [s[0]] + Insert(x, s[1..])
  }

  /** sort.Strings, as its contract has it: a sorted rearrangement. */
  function Sort(s: seq<Bytes>): (r: seq<Bytes>)
    ensures multiset(r) == multiset(s)
  {
    if s == [] then []
    else
      assert s == [s[0]] + s[1..];
      Insert(s[0], Sort(s[1..]))
  }

  lemma {:induction false} InsertSorts(x: Bytes, s: seq<Bytes>)
    requires Sorted(s)
    ensures Sorted(Insert(x, s))
  {
    if s != [] {
      LeTotal(x, s[0]);
      if Le(x, s[0]) {
        forall j | 0 <= j < |s| ensures Le(x, s[j]) {
          if j > 0 { LeTransitive(x, s[0], s[j]); }
        }
      } else {
        var r := Insert(x, s[1..]);
        InsertSorts(x, s[1..]);
        forall j | 0 <= j < |r| ensures Le(s[0], r[j]) {
          assert r[j] in multiset(r);
          if r[j] != x {
            assert r[j] in multiset(s[1..]);
            var i :| 0 <= i < |s[1..]| && s[1..][i] == r[j];
            assert s[i + 1] == r[j];
          }
        }
      }
    }
  }

  lemma {:induction false} SortSorts(s: seq<Bytes>)
    ensures Sorted(Sort(s))
  {
    if s != [] {
      SortSorts(s[1..]);
      InsertSorts(s[0], Sort(s[1..]));
    }
  }

  lemma LeastFirst(a: seq<Bytes>, b: seq<Bytes>)
    requires a != [] && Sorted(a) && Sorted(b) && multiset(a) == multiset(b)
    ensures b != [] && Le(b[0], a[0])
  {
    assert a[0] in multiset(b);
    var i :| 0 <= i < |b| && b[i] == a[0];
    LeTotal(b[0], b[0]);
  }

  lemma FirstAndRest(a: seq<Bytes>)
    requires a != []
    ensures multiset(a) == multiset{a[0]} + multiset(a[1..])
  {
    assert a == [a[0]] + a[1..];
  }

  lemma CancelOne(a: multiset<Bytes>, b: multiset<Bytes>, x: Bytes)
    requires multiset{x} + a == multiset{x} + b
    ensures a == b
  {
    assert a == multiset{x} + a - multiset{x};
    assert b == multiset{x} + b - multiset{x};
  }

  /** There is only one sorted rearrangement. */
  lemma {:induction false} SortedIsUnique(a: seq<Bytes>, b: seq<Bytes>)
    requires Sorted(a) && Sorted(b) && multiset(a) == multiset(b)
    ensures a == b
  {
    if a != [] {
      hide Le;
      LeastFirst(a, b);
      LeastFirst(b, a);
      LeAntisymmetric(a[0], b[0]);
      FirstAndRest(a);
      FirstAndRest(b);
      CancelOne(multiset(a[1..]), multiset(b[1..]), a[0]);
      SortedIsUnique(a[1..], b[1..]);
      assert a == [a[0]] + a[1..] && b == [b[0]] + b[1..];
    } else {
      assert |multiset(b)| == |b|;
    }
  }

  lemma SortIsCanonical(a: seq<Bytes>, b: seq<Bytes>)
    ensures Sort(a) == Sort(b) <==> multiset(a) == multiset(b)
  {
    if multiset(a) == multiset(b) {
      SortSorts(a);
      SortSorts(b);
      SortedIsUnique(Sort(a), Sort(b));
    }
  }

  // ---- the canonical query --------------------------------------------------

  /** A parsed query: every key present has at least one value. */
  type Query = map<Bytes, seq<Bytes>>

  ghost predicate Parsed(q: Query) {
    forall k :: k in q ==> q[k] != []
  }

  function PairsFor(key: Bytes, values: seq<Bytes>): seq<Pair> {
    seq(|values|, i requires 0 <= i < |values| => Pair(key, values[i]))
  }

  /** Reading an absent key gives no values. */
  function Values(q: Query, k: Bytes): seq<Bytes> {
    if k in q then q[k] else []
  }

  /** The pairs of a query, keys in the given order and each key's values sorted. */
  function Pairs(q: Query, keys: seq<Bytes>): seq<Pair> {
    if keys == [] then [] else PairsFor(keys[0], Sort(Values(q, keys[0]))) + Pairs(q, keys[1..])
  }

  /** The keys of a map in the arbitrary order of its iteration. */
  ghost predicate Enumerates(keys: seq<Bytes>, q: Query) {
    multiset(keys) == multiset(q.Keys)
  }

  /** `order` is the order in which the map happens to be iterated. */
  method CanonicalQuery(q: Query, order: seq<Bytes>) returns (canon: Bytes)
    requires Enumerates(order, q)
    ensures canon == Join(Pairs(q, Sort(order)))
  {
    hide Sort, Join, Pairs, Enumerates, PairsFor;
    var keys := Sort(order);
    var parts: seq<Pair> := [];
    var i := 0;
    assert keys[0..] == keys;
    while i < |keys|
      invariant 0 <= i <= |keys|
      invariant Pairs(q, keys) == parts + Pairs(q, keys[i..])
    {
      PairsNext(q, keys, i);
      var values := Sort(Values(q, keys[i]));
      Reassociate(parts, PairsFor(keys[i], values), Pairs(q, keys[i + 1..]));
      parts := AppendParts(parts, keys[i], values);
      i := i + 1;
    }
    PairsEnd(q, keys);
    assert parts + [] == parts;
    canon := Join(parts);
  }

  lemma Reassociate(a: seq<Pair>, b: seq<Pair>, c: seq<Pair>)
    ensures a + (b + c) == (a + b) + c
  {
  }

  lemma PairsNext(q: Query, keys: seq<Bytes>, i: nat)
    requires i < |keys|
    ensures Pairs(q, keys[i..]) == PairsFor(keys[i], Sort(Values(q, keys[i]))) + Pairs(q, keys[i + 1..])
  {
    hide Sort, PairsFor;
    assert keys[i..][1..] == keys[i + 1..] && keys[i..][0] == keys[i];
  }

  lemma PairsEnd(q: Query, keys: seq<Bytes>)
    ensures Pairs(q, keys[|keys|..]) == []
  {
  }

  method AppendParts(parts: seq<Pair>, key: Bytes, values: seq<Bytes>) returns (all: seq<Pair>)
    ensures all == parts + PairsFor(key, values)
  {
    all := parts;
    for j := 0 to |values|
      invariant all == parts + PairsFor(key, values[..j])
    {
      assert PairsFor(key, values[..j + 1]) == PairsFor(key, values[..j]) + [Pair(key, values[j])];
      all := all + [Pair(key, values[j])];
    }
    assert values[..|values|] == values;
  }

  lemma SeenTwice(s: seq<Bytes>, i: nat, j: nat)
    requires i < j < |s| && s[i] == s[j]
    ensures multiset(s)[s[i]] >= 2
  {
    var front, back := s[..j], s[j..];
    assert s == front + back;
    assert front[i] in multiset(front) && back[0] in multiset(back);
  }

  lemma EnumeratedKeys(q: Query, order: seq<Bytes>)
    requires Enumerates(order, q)
    ensures forall k :: k in Sort(order) <==> k in q
    ensures forall i, j :: 0 <= i < j < |Sort(order)| ==> Sort(order)[i] != Sort(order)[j]
  {
    hide Sort;
    var keys := Sort(order);
    assert multiset(keys) == multiset(q.Keys);
    forall k ensures k in keys <==> k in q {
      assert k in keys <==> k in multiset(keys);
    }
    forall i, j | 0 <= i < j < |keys| ensures keys[i] != keys[j] {
      if keys[i] == keys[j] {
        SeenTwice(keys, i, j);
        assert false;
      }
    }
  }

  /** The values a list of pairs gives a key, in order. */
  function ValuesOf(pairs: seq<Pair>, k: Bytes): seq<Bytes> {
    if pairs == [] then [] else (if pairs[0].key == k then [pairs[0].value] else []) + ValuesOf(pairs[1..], k)
  }

  lemma {:induction false} ValuesOfConcat(a: seq<Pair>, b: seq<Pair>, k: Bytes)
    ensures ValuesOf(a + b, k) == ValuesOf(a, k) + ValuesOf(b, k)
  {
    if a == [] {
      assert a + b == b;
    } else {
      assert (a + b)[1..] == a[1..] + b;
      ValuesOfConcat(a[1..], b, k);
    }
  }

  lemma {:induction false} ValuesOfOneKey(key: Bytes, values: seq<Bytes>, k: Bytes)
    ensures ValuesOf(PairsFor(key, values), k) == if k == key then values else []
  {
    if values != [] {
      assert PairsFor(key, values)[1..] == PairsFor(key, values[1..]);
      ValuesOfOneKey(key, values[1..], k);
    }
  }

  lemma NoValues(k: Bytes)
    ensures ValuesOf([], k) == []
  {
  }

  lemma EmptyEnds(s: seq<Bytes>)
    ensures s + [] == s && [] + s == s
  {
  }

  /** The pairs give each listed key exactly its sorted values. */
  lemma {:induction false} ValuesOfPairs(q: Query, keys: seq<Bytes>, k: Bytes)
    requires forall i, j :: 0 <= i < j < |keys| ==> keys[i] != keys[j]
    ensures ValuesOf(Pairs(q, keys), k) == if k in keys then Sort(Values(q, k)) else []
  {
    hide Sort, PairsFor, ValuesOf, Values;
    if keys == [] {
      NoValues(k);
    } else {
      var first, rest := keys[0], keys[1..];
      assert forall i :: 0 <= i < |rest| ==> rest[i] == keys[i + 1];
      assert first !in rest;
      assert k in keys <==> k == first || k in rest;
      ValuesOfPairs(q, rest, k);
      ValuesOfOneKey(first, Sort(Values(q, first)), k);
      ValuesOfConcat(PairsFor(first, Sort(Values(q, first))), Pairs(q, rest), k);
      EmptyEnds(Sort(Values(q, k)));
    }
  }

  /** The same keys, each with the same values up to order. */
  ghost predicate SameQuery(p: Query, q: Query) {
    p.Keys == q.Keys && forall k :: k in p ==> multiset(p[k]) == multiset(q[k])
  }

  lemma SameStringSameQuery(p: Query, q: Query, pOrder: seq<Bytes>, qOrder: seq<Bytes>)
    requires Parsed(p) && Parsed(q) && Enumerates(pOrder, p) && Enumerates(qOrder, q)
    requires Join(Pairs(p, Sort(pOrder))) == Join(Pairs(q, Sort(qOrder)))
    ensures SameQuery(p, q)
  {
    hide Sort, Pairs, Join, Read, ValuesOf;
    ReadInvertsJoin(Pairs(p, Sort(pOrder)));
    ReadInvertsJoin(Pairs(q, Sort(qOrder)));
    forall k ensures k in p <==> k in q ensures k in p ==> multiset(p[k]) == multiset(q[k]) {
      PairsGiveValues(p, pOrder, k);
      PairsGiveValues(q, qOrder, k);
    }
  }

  /** The multiset of values the canonical pairs give a key is the query's own. */
  lemma PairsGiveValues(q: Query, order: seq<Bytes>, k: Bytes)
    requires Parsed(q) && Enumerates(order, q)
    ensures k in q <==> ValuesOf(Pairs(q, Sort(order)), k) != []
    ensures k in q ==> multiset(ValuesOf(Pairs(q, Sort(order)), k)) == multiset(q[k])
  {
    hide Sort, Pairs, ValuesOf;
    EnumeratedKeys(q, order);
    ValuesOfPairs(q, Sort(order), k);
    if k in q {
      assert |multiset(q[k])| == |q[k]| && |multiset(Sort(q[k]))| == |Sort(q[k])|;
    }
  }

  lemma {:induction false} SameQuerySamePairs(p: Query, q: Query, keys: seq<Bytes>)
    requires SameQuery(p, q)
    ensures Pairs(p, keys) == Pairs(q, keys)
  {
    if keys != [] {
      hide Sort;
      SortIsCanonical(Values(p, keys[0]), Values(q, keys[0]));
      SameQuerySamePairs(p, q, keys[1..]);
    }
  }

  /** The canonical query string is lossless and order-free: whatever orders the two maps
      are iterated in, the strings are equal exactly when the queries are. */
  lemma CanonicalQueryIsFaithful(p: Query, q: Query, pOrder: seq<Bytes>, qOrder: seq<Bytes>)
    requires Parsed(p) && Parsed(q) && Enumerates(pOrder, p) && Enumerates(qOrder, q)
    ensures Join(Pairs(p, Sort(pOrder))) == Join(Pairs(q, Sort(qOrder))) <==> SameQuery(p, q)
  {
    hide Sort, Pairs, Join;
    if SameQuery(p, q) {
      assert multiset(p.Keys) == multiset(q.Keys);
      SortIsCanonical(pOrder, qOrder);
      SameQuerySamePairs(p, q, Sort(pOrder));
    }
    if Join(Pairs(p, Sort(pOrder))) == Join(Pairs(q, Sort(qOrder))) {
      SameStringSameQuery(p, q, pOrder, qOrder);
    }
  }
}

/**
 Go strings as the UTF-8 they may or may not be: decoding one code point, encoding one,
 and strings.ToLower, which does both and so can change the length of a string. The case
 table beyond ASCII is a parameter.
 */
module Utf8 {
  import opened Basics

  const REPLACEMENT := 0xFFFD

  predicate IsAscii(s: Bytes) {
    forall i :: 0 <= i < |s| ==> s[i] as int < 128
  }

  /** The encoding of a code point; what is none is encoded as the replacement character. */
  function EncodeRune(r: nat): (s: Bytes)
    ensures 1 <= |s| <= 4
    ensures r < 128 ==> s == [r as char]
  {
    if r < 0x80 then [r as char]
    else if r < 0x800 then [(0xC0 + r / 64) as char, (0x80 + r % 64) as char]
    else if r > 0x10FFFF || 0xD800 <= r < 0xE000 then ['\U{EF}', '\U{BF}', '\U{BD}']
    else if r < 0x1_0000 then [(0xE0 + r / 4096) as char, (0x80 + r / 64 % 64) as char, (0x80 + r % 64) as char]
    else
      [(0xF0 + r / 262144) as char, (0x80 + r / 4096 % 64) as char, (0x80 + r / 64 % 64) as char, (0x80 + r % 64) as char]
  }

  datatype Rune = Rune(code: nat, width: nat)

  predicate ByteIn(s: Bytes, i: nat, lo: int, hi: int) {
    i < |s| && lo <= s[i] as int <= hi
  }

  /** utf8.DecodeRuneInString: one code point, or one byte that begins none. */
  function RuneAt(s: Bytes): (r: Rune)
    requires s != []
    ensures 1 <= r.width <= |s|
  {
    var c := s[0] as int;
    if c < 0x80 then Rune(c, 1)
    else if 0xC2 <= c <= 0xDF && ByteIn(s, 1, 0x80, 0xBF) then
      Rune((c - 0xC0) * 64 + (s[1] as int - 0x80), 2)
    else if 0xE0 <= c <= 0xEF && ByteIn(s, 1, if c == 0xE0 then 0xA0 else 0x80, if c == 0xED then 0x9F else 0xBF)
            && ByteIn(s, 2, 0x80, 0xBF) then
      Rune((c - 0xE0) * 4096 + (s[1] as int - 0x80) * 64 + (s[2] as int - 0x80), 3)
    else if 0xF0 <= c <= 0xF4 && ByteIn(s, 1, if c == 0xF0 then 0x90 else 0x80, if c == 0xF4 then 0x8F else 0xBF)
            && ByteIn(s, 2, 0x80, 0xBF) && ByteIn(s, 3, 0x80, 0xBF) then
      Rune((c - 0xF0) * 262144 + (s[1] as int - 0x80) * 4096 + (s[2] as int - 0x80) * 64 + (s[3] as int - 0x80), 4)
    else Rune(REPLACEMENT, 1)
  }

  /** A Unicode scalar value: no surrogate, and not beyond the last plane. */
  predicate IsScalar(r: nat) {
    r <= 0x10FFFF && !(0xD800 <= r < 0xE000)
  }

  lemma Digits(r: nat)
    ensures r == r / 4096 * 4096 + r / 64 % 64 * 64 + r % 64
    ensures r / 4096 == r / 262144 * 64 + r / 4096 % 64
  {
    assert r / 64 == r / 4096 * 64 + r / 64 % 64;
  }

  lemma Undigits(a: nat, b: nat, c: nat)
    requires b < 64 && c < 64
    ensures var r := a * 4096 + b * 64 + c; r / 4096 == a && r / 64 % 64 == b && r % 64 == c
  {
    assert (a * 4096 + b * 64 + c) / 64 == a * 64 + b;
  }

  /** Decoding reads back what was encoded, whatever follows. */
  lemma DecodesEncoded(r: nat, rest: Bytes)
    requires IsScalar(r)
    ensures RuneAt(EncodeRune(r) + rest) == Rune(r, |EncodeRune(r)|)
  {
    if r < 0x800 {
      DecodesShort(r, rest);
    } else if r < 0x1_0000 {
      DecodesThree(r, rest);
    } else {
      DecodesFour(r, rest);
    }
    hide RuneAt, EncodeRune;
  }

  lemma DecodesShort(r: nat, rest: Bytes)
    requires r < 0x800
    ensures RuneAt(EncodeRune(r) + rest) == Rune(r, |EncodeRune(r)|)
  {
    var s := EncodeRune(r) + rest;
    assert s[0] == EncodeRune(r)[0] && (r >= 0x80 ==> s[1] == EncodeRune(r)[1]);
  }

  lemma DecodesThree(r: nat, rest: Bytes)
    requires 0x800 <= r < 0x1_0000 && IsScalar(r)
    ensures RuneAt(EncodeRune(r) + rest) == Rune(r, |EncodeRune(r)|)
  {
    Digits(r);
    var s, e := EncodeRune(r) + rest, EncodeRune(r);
    var a, b, c := r / 4096, r / 64 % 64, r % 64;
    assert s[0] == e[0] && s[1] == e[1] && s[2] == e[2];
    ReadsThree(s, a, b, c, r);
    hide RuneAt;
  }

  lemma ReadsThree(s: Bytes, a: nat, b: nat, c: nat, r: nat)
    requires |s| >= 3 && s[0] as int == 0xE0 + a && s[1] as int == 0x80 + b && s[2] as int == 0x80 + c
    requires a < 16 && b < 64 && c < 64 && r == a * 4096 + b * 64 + c && r >= 0x800 && IsScalar(r)
    ensures RuneAt(s) == Rune(r, 3)
  {
  }

  lemma DecodesFour(r: nat, rest: Bytes)
    requires 0x1_0000 <= r && IsScalar(r)
    ensures RuneAt(EncodeRune(r) + rest) == Rune(r, |EncodeRune(r)|)
  {
    Digits(r);
    var s, e := EncodeRune(r) + rest, EncodeRune(r);
    var a, b, c, d := r / 262144, r / 4096 % 64, r / 64 % 64, r % 64;
    assert s[0] == e[0] && s[1] == e[1] && s[2] == e[2] && s[3] == e[3];
    ReadsFour(s, a, b, c, d, r);
    hide RuneAt;
  }

  lemma ReadsFour(s: Bytes, a: nat, b: nat, c: nat, d: nat, r: nat)
    requires |s| >= 4 && s[0] as int == 0xF0 + a && s[1] as int == 0x80 + b && s[2] as int == 0x80 + c && s[3] as int == 0x80 + d
    requires b < 64 && c < 64 && d < 64 && r == a * 262144 + b * 4096 + c * 64 + d && 0x1_0000 <= r <= 0x10FFFF
    ensures RuneAt(s) == Rune(r, 4)
  {
  }

  /** And encoding gives back what was decoded: one scalar value in its only form, or a byte
      that begins none, which counts as the replacement character. */
  lemma EncodesDecoded(s: Bytes)
    requires s != []
    ensures var r := RuneAt(s);
            || (IsScalar(r.code) && EncodeRune(r.code) == s[..r.width])
            || (s[0] as int >= 0x80 && r == Rune(REPLACEMENT, 1))
  {
    var r := RuneAt(s);
    if r.width == 2 {
      assert r.code / 64 == s[0] as int - 0xC0 && r.code % 64 == s[1] as int - 0x80;
    } else if r.width == 3 {
      ThreeBytes(s);
    } else if r.width == 4 {
      FourBytes(s);
    }
  }

  lemma ThreeBytes(s: Bytes)
    requires s != [] && RuneAt(s).width == 3
    ensures IsScalar(RuneAt(s).code) && EncodeRune(RuneAt(s).code) == s[..3]
  {
    var a, b, c, r := s[0] as int - 0xE0, s[1] as int - 0x80, s[2] as int - 0x80, RuneAt(s).code;
    assert r == a * 4096 + b * 64 + c && 0 <= b < 64 && 0 <= c < 64;
    assert r / 4096 == a && r / 64 % 64 == b && r % 64 == c;
  }

  lemma FourBytes(s: Bytes)
    requires s != [] && RuneAt(s).width == 4
    ensures IsScalar(RuneAt(s).code) && EncodeRune(RuneAt(s).code) == s[..4]
  {
    var a, b, c, d, r := s[0] as int - 0xF0, s[1] as int - 0x80, s[2] as int - 0x80, s[3] as int - 0x80, RuneAt(s).code;
    assert r == (a * 64 + b) * 4096 + c * 64 + d && 0 <= b < 64 && 0 <= c < 64 && 0 <= d < 64;
    assert 0x1_0000 <= r <= 0x10FFFF;
    hide RuneAt;
    Undigits(a * 64 + b, c, d);
    assert (a * 64 + b) / 64 == a;
    Digits(r);
  }

  /** unicode.ToLower, with the table beyond ASCII given. */
  function LowerRune(r: nat, table: nat -> nat): nat {
    if 'A' as int <= r <= 'Z' as int then r + 32 else if r < 128 then r else table(r)
  }

  /** strings.ToLower. */
  function ToLower(s: Bytes, table: nat -> nat): (r: Bytes)
    ensures s != [] ==> r != []
    decreases |s|
  {
    if s == [] then []
    else
      var rune := RuneAt(s);
      EncodeRune(LowerRune(rune.code, table)) + ToLower(s[rune.width..], table)
  }

  /** A code point ends where ASCII begins: what follows does not change how it is read. */
  lemma RuneStopsAtAscii(a: Bytes, b: Bytes)
    requires a != [] && (b == [] || b[0] as int < 128)
    ensures RuneAt(a + b) == RuneAt(a)
  {
    var s := a + b;
    assert forall i :: 0 <= i < |a| ==> s[i] == a[i];
    assert |a| < |s| ==> s[|a|] == b[0];
  }

  /** So lower-casing splits in front of every ASCII byte. */
  lemma {:induction false} ToLowerConcat(a: Bytes, b: Bytes, table: nat -> nat)
    requires b == [] || b[0] as int < 128
    ensures ToLower(a + b, table) == ToLower(a, table) + ToLower(b, table)
    decreases |a|
  {
    if a == [] {
      assert a + b == b;
    } else {
      hide RuneAt, EncodeRune, LowerRune;
      RuneStopsAtAscii(a, b);
      var w := RuneAt(a).width;
      assert (a + b)[w..] == a[w..] + b;
      ToLowerConcat(a[w..], b, table);
      var head := EncodeRune(LowerRune(RuneAt(a).code, table));
      assert head + (ToLower(a[w..], table) + ToLower(b, table)) == head + ToLower(a[w..], table) + ToLower(b, table);
    }
  }

  function LowerByte(c: Byte): Byte {
    if 'A' <= c <= 'Z' then (c as int + 32) as char else c
  }

  /** Letter by letter, as far as ASCII goes. */
  function Lower(s: Bytes): Bytes {
    seq(|s|, i requires 0 <= i < |s| => LowerByte(s[i]))
  }

  /** An ASCII byte is lower-cased by itself. */
  lemma ToLowerFirst(s: Bytes, table: nat -> nat)
    requires s != [] && s[0] as int < 128
    ensures ToLower(s, table) == [LowerByte(s[0])] + ToLower(s[1..], table)
  {
    assert RuneAt(s) == Rune(s[0] as int, 1);
    assert EncodeRune(LowerRune(s[0] as int, table)) == [LowerByte(s[0])];
    hide RuneAt, EncodeRune, LowerRune;
  }

  lemma LowerFirst(s: Bytes)
    requires s != []
    ensures Lower(s) == [LowerByte(s[0])] + Lower(s[1..])
  {
  }

  lemma {:induction false} ToLowerAfterAscii(a: Bytes, b: Bytes, table: nat -> nat)
    requires IsAscii(a)
    ensures ToLower(a + b, table) == Lower(a) + ToLower(b, table)
    decreases |a|
  {
    hide ToLower, LowerByte;
    if a == [] {
      assert a + b == b && Lower(a) == [];
    } else {
      ToLowerAfterAscii(a[1..], b, table);
      Prepend(a, b, table);
    }
  }

  lemma Prepend(a: Bytes, b: Bytes, table: nat -> nat)
    requires a != [] && a[0] as int < 128 && ToLower(a[1..] + b, table) == Lower(a[1..]) + ToLower(b, table)
    ensures ToLower(a + b, table) == Lower(a) + ToLower(b, table)
  {
    hide ToLower, Lower, LowerByte;
    LowerFirst(a);
    assert (a + b)[0] == a[0] && (a + b)[1..] == a[1..] + b;
    ToLowerFirst(a + b, table);
    var head, middle, rest := [LowerByte(a[0])], Lower(a[1..]), ToLower(b, table);
    assert head + (middle + rest) == head + middle + rest;
  }

  lemma ToLowerOfAscii(s: Bytes, table: nat -> nat)
    requires IsAscii(s)
    ensures ToLower(s, table) == Lower(s)
  {
    assert s + [] == s;
    ToLowerAfterAscii(s, [], table);
  }

  /** A byte that begins no code point becomes the replacement character, three bytes. */
  lemma StrayByteGrows(c: Byte, rest: Bytes, table: nat -> nat)
    requires 0x80 <= c as int && (rest == [] || rest[0] as int < 128) && table(REPLACEMENT) == REPLACEMENT
    ensures ToLower([c] + rest, table) == ['\U{EF}', '\U{BF}', '\U{BD}'] + ToLower(rest, table)
  {
    assert RuneAt([c] + rest) == Rune(REPLACEMENT, 1);
    assert ([c] + rest)[1..] == rest;
    assert EncodeRune(REPLACEMENT) == ['\U{EF}', '\U{BF}', '\U{BD}'];
    hide RuneAt, EncodeRune;
  }

  /** The dotted capital I, two bytes, becomes the ASCII letter. */
  lemma DottedCapitalShrinks(rest: Bytes, table: nat -> nat)
    requires table(0x130) == 'i' as int
    ensures ToLower(['\U{C4}', '\U{B0}'] + rest, table) == "i" + ToLower(rest, table)
  {
    assert RuneAt(['\U{C4}', '\U{B0}'] + rest) == Rune(0x130, 2);
    assert (['\U{C4}', '\U{B0}'] + rest)[2..] == rest;
    hide RuneAt;
  }
}

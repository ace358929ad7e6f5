/**
 Passthrough headers: which names a listener may carry, what it copies off an inbound
 message, and what every transport checks again before it sends. A queued message is
 checked anew at every retry.
 */
module Headers {
  import opened Basics
  import opened Mail
  import opened Text

  const MAX_HEADER_LINE := 998

  const ALLOWLIST: seq<string> := ["List-Unsubscribe", "List-Unsubscribe-Post", "List-Id"]

  /** The token characters of a header field name. */
  predicate TokenChar(c: char) {
    || 'a' <= c <= 'z' || 'A' <= c <= 'Z' || '0' <= c <= '9'
    || c in "!#$%&'*+-.^_`|~"
  }

  function CanonChars(s: string, upper: bool): (r: string)
    ensures |r| == |s|
  {
    if s == [] then []
    else [if upper then UpperChar(s[0]) else LowerChar(s[0])] + CanonChars(s[1..], s[0] == '-')
  }

  predicate IsToken(name: string) {
    forall i :: 0 <= i < |name| ==> TokenChar(name[i])
  }

  /** textproto.CanonicalMIMEHeaderKey: a name that is not a token is left as it is. */
  function Canonical(name: string): string {
    if IsToken(name) then CanonChars(name, true) else name
  }

  /** The canonical name, if it is one that may be carried. */
  function PassthroughHeader(name: string): (r: Option<string>)
    ensures r.Some? ==> r.value in ALLOWLIST
  {
    var canon := Canonical(TrimSpace(name));
    if canon in ALLOWLIST then Some(canon) else None
  }

  lemma {:induction false} CanonCharsIdempotent(s: string, upper: bool)
    ensures CanonChars(CanonChars(s, upper), upper) == CanonChars(s, upper)
  {
    if s != [] {
      var r := CanonChars(s, upper);
      assert r[1..] == CanonChars(s[1..], s[0] == '-');
      CanonCharsIdempotent(s[1..], s[0] == '-');
    }
  }

  lemma {:induction false} CanonCharsAreTokens(s: string, upper: bool)
    requires IsToken(s)
    ensures IsToken(CanonChars(s, upper))
  {
    if s != [] {
      assert CanonChars(s, upper)[1..] == CanonChars(s[1..], s[0] == '-');
      CanonCharsAreTokens(s[1..], s[0] == '-');
    }
  }

  lemma CanonicalIdempotent(name: string)
    ensures Canonical(Canonical(name)) == Canonical(name)
  {
    CanonCharsIdempotent(name, true);
    if IsToken(name) {
      CanonCharsAreTokens(name, true);
    }
  }

  lemma {:induction false} CanonCharsConcat(a: string, b: string, upper: bool)
    requires a != []
    ensures CanonChars(a + b, upper) == CanonChars(a, upper) + CanonChars(b, a[|a| - 1] == '-')
  {
    assert (a + b)[1..] == a[1..] + b;
    if |a| > 1 {
      CanonCharsConcat(a[1..], b, a[0] == '-');
    }
  }

  /** A piece of a name that is already spelled canonically. */
  predicate Spelled(s: string, upper: bool) {
    s != [] && CanonChars(s, upper) == s && IsToken(s)
  }

  lemma SpelledConcat(a: string, b: string, upper: bool)
    requires Spelled(a, upper) && Spelled(b, a[|a| - 1] == '-')
    ensures Spelled(a + b, upper)
  {
    CanonCharsConcat(a, b, upper);
  }

  lemma SpelledList() ensures Spelled("List-", true) {}
  lemma SpelledUnsub() ensures Spelled("Unsub", true) {}
  lemma SpelledScribe() ensures Spelled("scribe", false) {}
  lemma SpelledDash() ensures Spelled("-", false) {}
  lemma SpelledPost() ensures Spelled("Post", true) {}
  lemma SpelledId() ensures Spelled("Id", true) {}

  /** Each allowed name is its own canonical form. */
  lemma AllowlistIsCanonical(name: string)
    requires name in ALLOWLIST
    ensures PassthroughHeader(name) == Some(name)
  {
    hide CanonChars, IsToken, Spelled;
    assert Spelled(name, true) by {
      SpelledList();
      SpelledUnsub();
      SpelledScribe();
      SpelledDash();
      SpelledPost();
      SpelledId();
      SpelledConcat("List-", "Id", true);
      SpelledConcat("Unsub", "scribe", true);
      SpelledConcat("List-", "Unsub" + "scribe", true);
      SpelledConcat("List-" + ("Unsub" + "scribe"), "-", true);
      SpelledConcat("List-" + ("Unsub" + "scribe") + "-", "Post", true);
      assert "List-Id" == "List-" + "Id";
      assert "List-Unsubscribe" == "List-" + ("Unsub" + "scribe");
      assert "List-Unsubscribe-Post" == "List-" + ("Unsub" + "scribe") + "-" + "Post";
    }
    SpelledMeansCanonical(name);
    TrimIsIdentity(name);
  }

  lemma SpelledMeansCanonical(s: string)
    requires Spelled(s, true)
    ensures Canonical(s) == s
  {
  }

  predicate Printable(c: char) {
    '\U{20}' <= c <= '\U{7E}'
  }

  /** A value that can be carried: printable ASCII, not empty, and short enough that the
      line fits the limit of section 2.1.1 of RFC 5322. */
  predicate ValueFits(name: string, value: string) {
    && value != []
    && (forall i :: 0 <= i < |value| ==> Printable(value[i]))
    && |name| + 2 + |value| <= MAX_HEADER_LINE
  }

  method CheckHeaderValue(name: string, value: string) returns (ok: bool)
    ensures ok <==> ValueFits(name, value)
    ensures ok <==> value != "" && (forall i :: 0 <= i < |value| ==> ' ' <= value[i] <= '~') && |name| + |": "| + |value| <= 998
  {
    if value == [] {
      return false;
    }
    var i := 0;
    while i < |value|
      invariant 0 <= i <= |value| && forall j :: 0 <= j < i ==> Printable(value[j])
    {
      var c := value[i];
      if c == '\r' || c == '\n' {
        return false;
      }
      if c < '\U{20}' || c > '\U{7E}' {
        return false;
      }
      i := i + 1;
    }
    return |name| + |": "| + |value| <= MAX_HEADER_LINE;
  }

  ghost predicate DistinctNames(names: seq<string>) {
    forall i, j :: 0 <= i < j < |names| ==> names[i] != names[j]
  }

  /** The listener's configured names, canonical; or nothing if one is off the allowlist
      or listed twice. */
  method PassthroughNames(names: seq<string>) returns (result: Option<seq<string>>)
    ensures result.Some? ==>
              && |result.value| == |names| && DistinctNames(result.value)
              && forall i :: 0 <= i < |names| ==> PassthroughHeader(names[i]) == Some(result.value[i])
    ensures result.None? ==>
              || (exists i :: 0 <= i < |names| && PassthroughHeader(names[i]).None?)
              || (exists i, j :: 0 <= i < j < |names| && PassthroughHeader(names[i]) == PassthroughHeader(names[j]))
  {
    hide PassthroughHeader;
    var seen := {};
    var out := [];
    var i := 0;
    while i < |names|
      invariant 0 <= i == |out| <= |names|
      invariant forall j :: 0 <= j < i ==> PassthroughHeader(names[j]) == Some(out[j]) && out[j] in seen
      invariant forall n :: n in seen ==> n in out
      invariant DistinctNames(out)
    {
      var canon := PassthroughHeader(names[i]);
      if canon.None? {
        return None;
      }
      if canon.value in seen {
        return None;
      }
      seen := seen + {canon.value};
      out := out + [canon.value];
      i := i + 1;
    }
    return Some(out);
  }

  /** The first value of a header, if there is one and it is not empty. */
  function Carried(header: map<string, seq<string>>, name: string): Option<string> {
    if name in header && header[name] != [] && header[name][0] != [] then Some(header[name][0]) else None
  }

  /** What `names` selects off a message, in configuration order. */
  function Selected(header: map<string, seq<string>>, names: seq<string>): seq<Header> {
    if names == [] then []
    else
      var last := names[|names| - 1];
      Selected(header, names[..|names| - 1])
      + (match Carried(header, last) case Some(v) => [Header(last, v)] case None => [])
  }

  /** Every configured header present on the message has a value that can be carried. */
  predicate AllFit(header: map<string, seq<string>>, names: seq<string>) {
    forall i :: 0 <= i < |names| && Carried(header, names[i]).Some? ==> ValueFits(names[i], Carried(header, names[i]).value)
  }

  /** Copies the configured headers; one value that cannot be carried refuses the message. */
  method CopyHeaders(header: map<string, seq<string>>, names: seq<string>) returns (result: Option<seq<Header>>)
    ensures result.Some? <==> AllFit(header, names)
    ensures result.Some? ==> result.value == Selected(header, names)
  {
    var out := [];
    for i := 0 to |names|
      invariant out == Selected(header, names[..i])
      invariant forall j :: 0 <= j < i && Carried(header, names[j]).Some? ==> ValueFits(names[j], Carried(header, names[j]).value)
    {
      var name := names[i];
      assert names[..i + 1][..i] == names[..i];
      if Carried(header, name).Some? {
        var value := Carried(header, name).value;
        var ok := CheckHeaderValue(name, value);
        if !ok {
          return None;
        }
        out := out + [Header(name, value)];
      }
    }
    assert names[..|names|] == names;
    return Some(out);
  }

  /** What every transport relies on: allowed names, no repeats, values that fit. */
  ghost predicate HeadersOk(headers: seq<Header>) {
    && (forall i :: 0 <= i < |headers| ==> headers[i].name in ALLOWLIST && ValueFits(headers[i].name, headers[i].value))
    && (forall i, j :: 0 <= i < j < |headers| ==> headers[i].name != headers[j].name)
  }

  method ValidateHeaders(headers: seq<Header>) returns (ok: bool)
    ensures ok <==> HeadersOk(headers)
  {
    hide PassthroughHeader, ValueFits;
    var seen := {};
    var i := 0;
    while i < |headers|
      invariant 0 <= i <= |headers| && HeadersOk(headers[..i])
      invariant forall j :: 0 <= j < i ==> headers[j].name in seen
      invariant forall n :: n in seen ==> exists j :: 0 <= j < i && headers[j].name == n
    {
      var h := headers[i];
      var canon := PassthroughHeader(h.name);
      if h.name in ALLOWLIST { AllowlistIsCanonical(h.name); }
      if canon != Some(h.name) {
        return false;
      }
      if h.name in seen {
        return false;
      }
      seen := seen + {h.name};
      var fits := CheckHeaderValue(h.name, h.value);
      if !fits {
        return false;
      }
      assert headers[..i + 1] == headers[..i] + [h];
      i := i + 1;
    }
    assert headers[..i] == headers;
    return true;
  }

  /** Headers copied under an accepted configuration pass every transport's check, at the
      first send and at every retry, whatever the message contained. */
  lemma {:induction false} AcceptedHeadersStayValid(header: map<string, seq<string>>, names: seq<string>)
    requires DistinctNames(names) && forall i :: 0 <= i < |names| ==> names[i] in ALLOWLIST
    requires AllFit(header, names)
    ensures HeadersOk(Selected(header, names))
    ensures forall h :: h in Selected(header, names) ==> h.name in names
  {
    if names != [] {
      var front := names[..|names| - 1];
      AcceptedHeadersStayValid(header, front);
      assert names[|names| - 1] !in front;
    }
  }
}

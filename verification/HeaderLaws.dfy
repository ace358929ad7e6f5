/**
 Which headers pass through: the names an operator may configure, and what is copied.
 */
module HeaderLaws {
  import opened Basics
  import opened Mail
  import opened Text
  import opened Headers

  lemma SameTextNext(a: string, b: string)
    requires a != [] && SameText(a, b)
    ensures SameText(a[1..], b[1..]) && SameLetter(a[0], b[0])
    ensures UpperChar(a[0]) == UpperChar(b[0]) && LowerChar(a[0]) == LowerChar(b[0]) && (a[0] == '-' <==> b[0] == '-')
  {
  }

  /** Letter case makes no difference to the canonical form. */
  lemma {:induction false} CanonIgnoresCase(a: string, b: string, upper: bool)
    requires SameText(a, b)
    ensures CanonChars(a, upper) == CanonChars(b, upper)
  {
    if a != [] {
      SameTextNext(a, b);
      hide SameText, SameLetter;
      CanonIgnoresCase(a[1..], b[1..], a[0] == '-');
    }
  }

  lemma {:induction false} CanonChangesCaseOnly(a: string, upper: bool)
    ensures SameText(a, CanonChars(a, upper))
  {
    if a != [] {
      CanonChangesCaseOnly(a[1..], a[0] == '-');
      SameTextPrepend(a, CanonChars(a, upper));
    }
  }

  lemma SameTextPrepend(a: string, b: string)
    requires a != [] && b != [] && SameLetter(a[0], b[0]) && SameText(a[1..], b[1..])
    ensures SameText(a, b)
  {
    hide SameLetter;
    forall i | 0 <= i < |a| ensures SameLetter(a[i], b[i]) {
      if i > 0 { assert SameLetter(a[1..][i - 1], b[1..][i - 1]); }
    }
  }

  lemma TokenIgnoresCase(a: char, b: char)
    requires SameLetter(a, b)
    ensures TokenChar(a) <==> TokenChar(b)
  {
  }

  /** A configured name is accepted exactly if it is one of the three in any letter case,
      blanks around it aside, and it stands for that one. */
  lemma AcceptedNames(name: string, canon: string)
    ensures PassthroughHeader(name) == Some(canon)
            <==> canon in ["List-Unsubscribe", "List-Unsubscribe-Post", "List-Id"] && SameText(TrimSpace(name), canon)
  {
    hide TrimSpace, CanonChars, SameText, PassthroughHeader, IsToken;
    NameIsLookedUp(name);
    if canon in ALLOWLIST { AllowedName(TrimSpace(name), canon); }
  }

  lemma SameTextRelates(a: string, b: string, c: string)
    requires SameText(a, b)
    ensures SameText(b, a) && (SameText(b, c) ==> SameText(a, c)) && (SameText(a, c) ==> SameText(b, c))
  {
  }

  /** Two configured names stand for the same header exactly if they differ at most in case
      and in blanks around them. */
  lemma SameHeaderIff(a: string, b: string)
    requires PassthroughHeader(a).Some? && PassthroughHeader(b).Some?
    ensures PassthroughHeader(a) == PassthroughHeader(b) <==> SameText(TrimSpace(a), TrimSpace(b))
  {
    hide TrimSpace, SameText, PassthroughHeader;
    var canon := PassthroughHeader(a).value;
    AcceptedNames(a, canon);
    AcceptedNames(b, PassthroughHeader(b).value);
    AcceptedNames(b, canon);
    SameTextRelates(TrimSpace(a), canon, TrimSpace(b));
    if PassthroughHeader(a) == PassthroughHeader(b) { SameTextRelates(TrimSpace(b), canon, TrimSpace(a)); }
    if SameText(TrimSpace(a), TrimSpace(b)) { SameTextRelates(TrimSpace(a), TrimSpace(b), canon); }
  }

  lemma NameIsLookedUp(name: string)
    ensures PassthroughHeader(name)
            == if Canonical(TrimSpace(name)) in ["List-Unsubscribe", "List-Unsubscribe-Post", "List-Id"]
               then Some(Canonical(TrimSpace(name))) else None
  {
    hide Canonical, TrimSpace;
  }

  lemma AllowedName(t: string, canon: string)
    requires canon in ALLOWLIST
    ensures Canonical(t) == canon <==> SameText(t, canon)
  {
    AllowlistIsCanonical(canon);
    AllowedIsToken(canon);
    hide CanonChars, TokenChar, TrimSpace;
    if IsToken(t) { CanonChangesCaseOnly(t, true); }
    if SameText(t, canon) {
      forall i | 0 <= i < |t| ensures TokenChar(t[i]) {
        assert TokenChar(canon[i]) && SameLetter(t[i], canon[i]);
        TokenIgnoresCase(t[i], canon[i]);
      }
      CanonIgnoresCase(t, canon, true);
    }
  }

  lemma AllowedIsToken(canon: string)
    requires canon in ALLOWLIST
    ensures IsToken(canon) && CanonChars(canon, true) == canon && SameText(canon, canon)
  {
    hide CanonChars;
    AllowlistIsCanonical(canon);
    AllowlistIsToken(canon);
    CanonOfAllowed(canon);
  }

  lemma AllowlistIsToken(canon: string)
    requires canon in ALLOWLIST
    ensures IsToken(canon)
  {
  }

  lemma CanonOfAllowed(canon: string)
    requires canon in ALLOWLIST && IsToken(canon)
    ensures CanonChars(canon, true) == canon
  {
    hide CanonChars, IsToken;
    AllowlistIsCanonical(canon);
    TrimIsIdentity(canon);
    assert PassthroughHeader(canon) == Some(Canonical(canon));
  }

  /** What is copied is the first value of each configured header that has one and whose
      first value is not empty, in the order of the configuration. */
  lemma {:induction false} CopiesFirstValues(header: map<string, seq<string>>, names: seq<string>, more: seq<string>, name: string)
    ensures Selected(header, names + more) == Selected(header, names) + Selected(header, more)
    ensures Selected(header, [name])
            == if name in header && header[name] != [] && header[name][0] != "" then [Header(name, header[name][0])] else []
  {
    assert [name][..0] == [] && Selected(header, []) == [];
    hide Carried;
    if more == [] {
      assert names + more == names;
    } else {
      var n := |more| - 1;
      CopiesFirstValues(header, names, more[..n], name);
      assert (names + more)[..|names| + n] == names + more[..n] && (names + more)[|names| + n] == more[n];
    }
  }

  /** The check of every transport, spelled out. */
  lemma TransportsAccept(headers: seq<Header>)
    ensures HeadersOk(headers) <==>
            && (forall i, j :: 0 <= i < j < |headers| ==> headers[i].name != headers[j].name)
            && (forall i :: 0 <= i < |headers| ==>
                  && headers[i].name in ["List-Unsubscribe", "List-Unsubscribe-Post", "List-Id"]
                  && headers[i].value != "" && |headers[i].name| + |": "| + |headers[i].value| <= 998
                  && (forall k :: 0 <= k < |headers[i].value| ==> ' ' <= headers[i].value[k] <= '~'))
  {
    forall i | 0 <= i < |headers| ensures ValueFits(headers[i].name, headers[i].value) <==>
        && headers[i].value != "" && |headers[i].name| + |": "| + |headers[i].value| <= 998
        && (forall k :: 0 <= k < |headers[i].value| ==> ' ' <= headers[i].value[k] <= '~')
    {
      FitsIff(headers[i].name, headers[i].value);
    }
    hide ValueFits;
  }

  lemma FitsIff(name: string, value: string)
    ensures ValueFits(name, value) <==>
            && value != "" && |name| + |": "| + |value| <= 998
            && (forall k :: 0 <= k < |value| ==> ' ' <= value[k] <= '~')
  {
    forall k | 0 <= k < |value| ensures Printable(value[k]) <==> ' ' <= value[k] <= '~' {}
  }
}

/**
 Links through the HTML scanner: however the target is quoted and whatever other
 attributes stand around it, it is read back as long as lower-casing keeps the length of
 the text before it, and the link is rendered as its text with the target behind it.
 */
module HtmlLinks {
  import opened Basics
  import opened Utf8
  import opened HtmlText

  // ---- what an author writes ------------------------------------------------

  datatype Quoting = Double | Single | Bare

  /** An anchor's opening tag: its target, and the attribute text around it. */
  datatype Anchor = Anchor(before: Bytes, target: Bytes, quoting: Quoting, after: Bytes)

  function Quoted(target: Bytes, quoting: Quoting): Bytes {
    match quoting
    case Double => "\"" + target + "\""
    case Single => "'" + target + "'"
    case Bare => target
  }

  function Attrs(a: Anchor): Bytes {
    a.before + "href=" + Quoted(a.target, a.quoting) + a.after
  }

  function OpenTag(a: Anchor): Bytes {
    "<a" + Attrs(a) + ">"
  }

  /** The quote still open after this text of a tag; none at all if a '>' outside quotes
      ends the tag. */
  function QuoteAfter(s: Bytes, quote: Option<Byte>): Option<Option<Byte>>
    decreases |s|
  {
    if s == [] then Some(quote)
    else if quote.Some? then QuoteAfter(s[1..], if s[0] == quote.value then None else quote)
    else if s[0] == '"' || s[0] == '\'' then QuoteAfter(s[1..], Some(s[0]))
    else if s[0] == '>' then None
    else QuoteAfter(s[1..], None)
  }

  predicate Balanced(s: Bytes) {
    QuoteAfter(s, None) == Some(None)
  }

  /** A target that its quoting can carry. */
  predicate Quotable(target: Bytes, quoting: Quoting) {
    match quoting
    case Double => '"' !in target
    case Single => '\'' !in target
    case Bare =>
      && target != [] && !AttrBlank(target[0])
      && forall i :: 0 <= i < |target| ==> target[i] != ' ' && target[i] != '\t' && target[i] != '"' && target[i] != '\'' && target[i] != '>'
  }

  predicate WordStops(c: Byte) {
    !IsAlnum(c) && c != '!'
  }

  /** An opening tag: the attribute text does not continue the tag name, and its quotes are
      closed before and after the target. */
  predicate Written(a: Anchor) {
    && a.before != [] && WordStops(a.before[0])
    && Balanced(a.before) && Balanced(a.after)
    && Quotable(a.target, a.quoting)
    && (a.quoting.Bare? ==> a.after == [] || a.after[0] == ' ' || a.after[0] == '\t')
  }

  function LowerBefore(a: Anchor, lib: Library): (lower: Bytes)
    ensures a.before != [] ==> lower != []
  {
    ToLower(a.before, lib.lowerTable)
  }

  predicate LetterOrDigit(c: char) {
    'a' <= c <= 'z' || 'A' <= c <= 'Z' || '0' <= c <= '9'
  }

  /** Behind some blanks there is no equals sign. */
  ghost predicate NoEqualsBehind(attrs: Bytes, i: nat) {
    exists e: nat :: i <= e && IsBlankRun(attrs, i, e) && (e >= |attrs| || !(attrs[e] in " \t\n\r="))
  }

  predicate IsBlankRun(s: Bytes, i: nat, end: nat) {
    forall k :: i <= k < end && k < |s| ==> s[k] in " \t\n\r"
  }

  /** A mention of "href" that names no attribute: it continues a word or has no equals
      sign behind it. */
  ghost predicate NamesNothing(attrs: Bytes, lower: Bytes, j: nat) {
    || (0 < j <= |lower| && LetterOrDigit(lower[j - 1]))
    || NoEqualsBehind(attrs, j + 4)
  }

  /** The link's mention of "href" begins a word, and those before it name nothing. */
  ghost predicate IsTheHref(a: Anchor, lib: Library) {
    var lower := LowerBefore(a, lib);
    && (lower != [] ==> !LetterOrDigit(lower[|lower| - 1]))
    && forall j :: 0 <= j < |lower| && OccursAt(lower + "href", "href", j) ==> NamesNothing(Attrs(a), lower, j)
  }

  /** Lower-casing keeps the length of the text before the target. */
  predicate KeepsLength(a: Anchor, lib: Library) {
    |LowerBefore(a, lib)| == |a.before|
  }

  /** From the position where a target is looked for there is no equals sign but the
      link's own, and no second mention of "href". */
  predicate StandsAlone(a: Anchor, lib: Library) {
    && '=' !in Quoted(a.target, a.quoting) && '=' !in a.after
    && (forall k :: |LowerBefore(a, lib)| + 4 <= k < |a.before| ==> a.before[k] != '=')
    && IndexFrom(ToLower(Tail(a), lib.lowerTable), "href", 0).None?
  }

  /** What follows the attribute's name. */
  function Tail(a: Anchor): Bytes {
    "=" + Quoted(a.target, a.quoting) + a.after
  }

  lemma AttrsSplit(a: Anchor)
    ensures Attrs(a) == a.before + "href" + Tail(a)
  {
  }

  lemma NotThere(s: Bytes, sub: Bytes, j: nat, k: nat)
    requires k < |sub| && j + k < |s| && s[j + k] != sub[k]
    ensures !OccursAt(s, sub, j)
  {
    if j + |sub| <= |s| { assert s[j..j + |sub|][k] == s[j + k]; }
  }

  lemma FirstIs(s: Bytes, sub: Bytes, at: nat)
    requires sub != [] && OccursAt(s, sub, at) && forall j :: 0 <= j < at ==> !OccursAt(s, sub, j)
    ensures IndexFrom(s, sub, 0) == Some(at)
  {
    assert at < |s|;
    hide OccursAt;
  }

  lemma NowhereIsNone(s: Bytes, sub: Bytes, i: nat)
    requires i <= |s| && sub != [] && forall j :: i <= j < |s| ==> !OccursAt(s, sub, j)
    ensures IndexFrom(s, sub, i).None?
  {
    hide OccursAt;
    if IndexFrom(s, sub, i).Some? { FoundFits(s, sub, i); }
  }

  /** Text before the target without an 'h' cannot mention "href". */
  lemma NoEarlierHref(lower: Bytes)
    requires 'h' !in lower
    ensures IndexFrom(lower + "href", "href", 0) == Some(|lower|)
  {
    hide OccursAt, IndexFrom;
    NameBehind(lower, "href");
    forall j | 0 <= j < |lower| ensures !OccursAt(lower + "href", "href", j) {
      NotAt(lower, "href", j);
    }
    FirstIs(lower + "href", "href", |lower|);
  }

  lemma NameBehind(lower: Bytes, name: Bytes)
    ensures OccursAt(lower + name, name, |lower|)
  {
    assert (lower + name)[|lower|..|lower| + |name|] == name;
  }

  lemma NotAt(lower: Bytes, name: Bytes, j: nat)
    requires j < |lower| && name != [] && name[0] !in lower
    ensures !OccursAt(lower + name, name, j)
  {
    assert (lower + name)[j] == lower[j] && lower[j] in lower;
    NotThere(lower + name, name, j, 0);
  }

  /** ASCII text before the target keeps its length. */
  lemma AsciiKeepsLength(a: Anchor, lib: Library)
    requires IsAscii(a.before)
    ensures KeepsLength(a, lib) && LowerBefore(a, lib) == Lower(a.before)
  {
    ToLowerOfAscii(a.before, lib.lowerTable);
  }

  /** The usual tag, `<a href="...">`, has all of this. */
  lemma UsualAnchor(target: Bytes, lib: Library)
    requires '"' !in target
    ensures var a := Anchor(" ", target, Double, []); Written(a) && IsTheHref(a, lib) && KeepsLength(a, lib)
  {
    var a := Anchor(" ", target, Double, []);
    AsciiKeepsLength(a, lib);
    assert Lower(" ") == " ";
    NoEarlierHref(" ");
    FirstIsTheHref(a, lib);
    hide IndexFrom, LowerBefore, Written;
  }

  // ---- the target reads back ------------------------------------------------

  /** The first occurrence is where it was before more text was appended. */
  lemma FirstStaysFirst(s: Bytes, more: Bytes, sub: Bytes, at: nat)
    requires IndexFrom(s, sub, 0) == Some(at) && at + |sub| == |s| && sub != []
    ensures IndexFrom(s + more, sub, 0) == Some(at)
  {
    hide OccursAt;
    OccursInPrefix(s, more, sub, at);
    forall j | 0 <= j < at ensures !OccursAt(s + more, sub, j) {
      OccursInPrefix(s, more, sub, j);
    }
  }

  lemma OccursInPrefix(s: Bytes, more: Bytes, sub: Bytes, j: nat)
    requires j + |sub| <= |s|
    ensures OccursAt(s + more, sub, j) <==> OccursAt(s, sub, j)
  {
    assert (s + more)[j..j + |sub|] == s[j..j + |sub|];
  }

  /** Lower-cased, the attribute text has the name right behind the lower-cased text before it. */
  lemma LowerAttrs(a: Anchor, lib: Library)
    ensures ToLower(Attrs(a), lib.lowerTable) == LowerBefore(a, lib) + "href" + ToLower(Tail(a), lib.lowerTable)
  {
    hide ToLower;
    var t := lib.lowerTable;
    AttrsSplit(a);
    TailIsAscii(a);
    hide Attrs, Tail;
    LowerHref(t);
    ToLowerConcat(a.before + "href", Tail(a), t);
    ToLowerConcat(a.before, "href", t);
  }

  lemma TailIsAscii(a: Anchor)
    ensures Tail(a) != [] && Tail(a)[0] == '='
  {
  }

  lemma LowerHref(table: nat -> nat)
    ensures ToLower("href", table) == "href"
  {
    ToLowerOfAscii("href", table);
    assert Lower("href") == "href";
    hide ToLower;
  }

  /** A mention with none before it. */
  lemma FirstIsTheHref(a: Anchor, lib: Library)
    requires var lower := LowerBefore(a, lib);
             && IndexFrom(lower + "href", "href", 0) == Some(|lower|)
             && (lower != [] ==> !LetterOrDigit(lower[|lower| - 1]))
    ensures IsTheHref(a, lib)
  {
    hide OccursAt, LowerBefore, Attrs, NamesNothing;
  }

  lemma QuotedValueReadsBack(lead: Bytes, quote: Byte, target: Bytes, after: Bytes)
    requires quote !in target && (quote == '"' || quote == '\'')
    ensures ValueAt(lead + ([quote] + target + [quote]) + after, |lead|) == target
  {
    var attrs, end := lead + ([quote] + target + [quote]) + after, |lead| + 1 + |target|;
    assert attrs[|lead|] == quote && attrs[|lead| + 1..end] == target;
    assert attrs[end] == quote && OccursAt(attrs, [quote], end);
    forall j | |lead| < j < end ensures !OccursAt(attrs, [quote], j) {
      assert attrs[j] == target[j - |lead| - 1];
      assert attrs[j..j + 1][0] == attrs[j];
    }
  }

  lemma {:induction false} BareEndsThere(s: Bytes, i: nat, end: nat)
    requires i <= end <= |s| && (end == |s| || s[end] == ' ' || s[end] == '\t')
    requires forall j :: i <= j < end ==> s[j] != ' ' && s[j] != '\t'
    ensures BareEnd(s, i) == end
    decreases end - i
  {
    if i < end {
      BareEndsThere(s, i + 1, end);
    }
  }

  lemma ValueReadsBack(a: Anchor)
    requires Written(a)
    ensures ValueAt(Attrs(a), |a.before| + 5) == a.target
  {
    hide IndexFrom, Balanced, OccursAt;
    var lead := a.before + "href=";
    match a.quoting
    case Double => QuotedValueReadsBack(lead, '"', a.target, a.after);
    case Single => QuotedValueReadsBack(lead, '\'', a.target, a.after);
    case Bare =>
      var attrs, end := Attrs(a), |lead| + |a.target|;
      assert attrs[|lead|..end] == a.target;
      forall j | |lead| <= j < end ensures attrs[j] == a.target[j - |lead|] {
      }
      BareEndsThere(attrs, |lead|, end);
  }

  lemma OwnValue(a: Anchor)
    requires Written(a)
    ensures ValueAfter(Attrs(a), |a.before| + 4) == Some(a.target)
  {
    ValueReadsBack(a);
    ValueStarts(a);
    hide Attrs, Written, SkipBlanks, ValueAt;
  }

  lemma ValueStarts(a: Anchor)
    requires Written(a)
    ensures var attrs, at := Attrs(a), |a.before| + 4;
            && at + 1 < |attrs| && attrs[at] == '=' && SkipBlanks(attrs, at) == at && SkipBlanks(attrs, at + 1) == at + 1
  {
    hide IndexFrom, Balanced;
    var attrs := Attrs(a);
    assert attrs[|a.before| + 4] == '=' && !AttrBlank(attrs[|a.before| + 5]);
  }

  lemma {:induction false} BlanksAreSkipped(s: Bytes, i: nat, e: nat)
    requires i <= e <= |s| && IsBlankRun(s, i, e) && (e == |s| || s[e] !in " \t\n\r")
    ensures SkipBlanks(s, i) == e
    decreases e - i
  {
    if i < e {
      assert s[i] in " \t\n\r";
      BlanksAreSkipped(s, i + 1, e);
    }
  }

  lemma NoValueBehind(attrs: Bytes, i: nat)
    requires NoEqualsBehind(attrs, i)
    ensures ValueAfter(attrs, i).None?
  {
    hide ValueAt;
    var e: nat :| i <= e && IsBlankRun(attrs, i, e) && (e >= |attrs| || !(attrs[e] in " \t\n\r="));
    if i < |attrs| {
      BlanksAreSkipped(attrs, i, if e < |attrs| then e else |attrs|);
    }
  }

  /** The search goes past mentions that name nothing. */
  lemma {:induction false} SearchPasses(attrs: Bytes, lower: Bytes, i: nat, pos: nat)
    requires i <= pos && OccursAt(lower, "href", pos)
    requires forall j :: i <= j < pos && OccursAt(lower, "href", j) ==> NamesNothing(attrs, lower, j)
    ensures pos <= |lower| && AttrFrom(attrs, lower, "href", i) == AttrFrom(attrs, lower, "href", pos)
    decreases pos - i
  {
    hide OccursAt, ValueAfter, NamesNothing;
    NameFits(lower, pos);
    FoundFits(lower, "href", i);
    var j := IndexFrom(lower, "href", i).value;
    assert IndexFrom(lower, "href", pos) == Some(pos);
    if j < pos {
      HrefsStandApart(lower, j, pos);
      hide IndexFrom;
      MentionIsPassed(attrs, lower, i, j);
      SearchPasses(attrs, lower, j + 4, pos);
    }
  }

  lemma NameFits(s: Bytes, j: nat)
    requires OccursAt(s, "href", j)
    ensures j + 4 <= |s|
  {
  }

  lemma MentionIsPassed(attrs: Bytes, lower: Bytes, i: nat, j: nat)
    requires i <= |lower| && IndexFrom(lower, "href", i) == Some(j) && NamesNothing(attrs, lower, j)
    ensures j + 4 <= |lower| && AttrFrom(attrs, lower, "href", i) == AttrFrom(attrs, lower, "href", j + 4)
  {
    FoundFits(lower, "href", i);
    hide IndexFrom, OccursAt, ValueAfter, NoEqualsBehind;
    if !(j > 0 && LetterOrDigit(lower[j - 1])) { NoValueBehind(attrs, j + 4); }
  }

  lemma HrefsStandApart(s: Bytes, j: nat, k: nat)
    requires OccursAt(s, "href", j) && OccursAt(s, "href", k) && j < k
    ensures j + 4 <= k
  {
    assert s[k] == s[k..k + 4][0] == "href"[0] == 'h';
    assert s[j + 1] == s[j..j + 4][1] == "href"[1] == 'r';
    assert s[j + 2] == s[j..j + 4][2] == "href"[2] == 'e';
    assert s[j + 3] == s[j..j + 4][3] == "href"[3] == 'f';
  }

  /** One step of the search, at a mention that begins a word. */
  lemma AttrAt(attrs: Bytes, lower: Bytes, name: Bytes, pos: nat)
    requires name != [] && pos + |name| <= |lower| && IndexFrom(lower, name, pos) == Some(pos)
    requires pos > 0 ==> !LetterOrDigit(lower[pos - 1])
    ensures AttrFrom(attrs, lower, name, pos) == match ValueAfter(attrs, pos + |name|)
                                                 case Some(value) => value
                                                 case None => AttrFrom(attrs, lower, name, pos + |name|)
  {
    hide IndexFrom, OccursAt, ValueAfter;
  }

  /** The search comes to the link's own mention. */
  lemma AttrAtFirst(a: Anchor, lib: Library)
    requires IsTheHref(a, lib)
    ensures var attrs, lower, after := Attrs(a), ToLower(Attrs(a), lib.lowerTable), |LowerBefore(a, lib)| + 4;
            && after <= |lower|
            && Attr(attrs, "href", lib) == match ValueAfter(attrs, after)
                                           case Some(value) => value
                                           case None => AttrFrom(attrs, lower, "href", after)
  {
    hide IndexFrom, ValueAfter, Attrs, ToLower, LowerBefore, AttrFrom, Tail, OccursAt, NamesNothing;
    LowerAttrs(a, lib);
    var before, tail, lower := LowerBefore(a, lib), ToLower(Tail(a), lib.lowerTable), ToLower(Attrs(a), lib.lowerTable);
    BeforeTheName(before, tail);
    forall j | 0 <= j < |before| && OccursAt(lower, "href", j) ensures NamesNothing(Attrs(a), lower, j) {
      OccursInPrefix(before + "href", tail, "href", j);
      StillNamesNothing(Attrs(a), before, "href" + tail, j);
      assert before + "href" + tail == before + ("href" + tail);
    }
    SearchPasses(Attrs(a), lower, 0, |before|);
    FoundAtOnce(lower, "href", |before|);
    AttrAt(Attrs(a), lower, "href", |before|);
  }

  lemma FoundAtOnce(s: Bytes, sub: Bytes, i: nat)
    requires i <= |s| && OccursAt(s, sub, i)
    ensures IndexFrom(s, sub, i) == Some(i)
  {
  }

  lemma StillNamesNothing(attrs: Bytes, before: Bytes, more: Bytes, j: nat)
    requires j <= |before| && NamesNothing(attrs, before, j)
    ensures NamesNothing(attrs, before + more, j)
  {
    hide NoEqualsBehind;
  }

  lemma BeforeTheName(before: Bytes, tail: Bytes)
    ensures var lower := before + "href" + tail;
            && |before| + 4 <= |lower| && (before != [] ==> lower[|before| - 1] == before[|before| - 1])
            && OccursAt(lower, "href", |before|)
  {
    assert (before + "href" + tail)[|before|..|before| + 4] == "href";
  }

  /** The target of a link is read back from its attributes. */
  lemma HrefReadsBack(a: Anchor, lib: Library)
    requires Written(a) && IsTheHref(a, lib) && KeepsLength(a, lib)
    ensures Attr(Attrs(a), "href", lib) == a.target
  {
    hide IndexFrom, ValueAfter, Attrs, Written, IsTheHref, ToLower, LowerBefore, Attr, AttrFrom;
    AttrAtFirst(a, lib);
    OwnValue(a);
  }

  lemma {:induction false} OnlyBlanksSkipped(s: Bytes, i: nat)
    requires i <= |s|
    ensures forall k :: i <= k < SkipBlanks(s, i) ==> AttrBlank(s[k])
    decreases |s| - i
  {
    if i < |s| && AttrBlank(s[i]) {
      OnlyBlanksSkipped(s, i + 1);
    }
  }

  /** Looked for in the wrong place, the link's equals sign is not seen. */
  lemma EqualsIsMissed(a: Anchor, lib: Library)
    requires StandsAlone(a, lib) && !KeepsLength(a, lib)
    ensures ValueAfter(Attrs(a), |LowerBefore(a, lib)| + 4).None?
  {
    hide IndexFrom, LowerBefore;
    var attrs, own, after := Attrs(a), |a.before| + 4, |LowerBefore(a, lib)| + 4;
    if after < |attrs| {
      OnlyBlanksSkipped(attrs, after);
      OnlyOneEquals(a, after);
      assert attrs[own - 1] == 'f' by { AttrsSplit(a); }
    }
  }

  lemma OnlyOneEquals(a: Anchor, from: nat)
    requires '=' !in Quoted(a.target, a.quoting) && '=' !in a.after
    requires forall k :: from <= k < |a.before| ==> a.before[k] != '='
    ensures forall k :: from <= k < |Attrs(a)| && Attrs(a)[k] == '=' ==> k == |a.before| + 4
  {
    var attrs, value := Attrs(a), Quoted(a.target, a.quoting);
    forall k | from <= k < |attrs| && k != |a.before| + 4 ensures attrs[k] != '=' {
      if k < |a.before| {
        assert attrs[k] == a.before[k];
      } else if k < |a.before| + 4 {
        assert attrs[k] == "href"[k - |a.before|];
      } else if k < |a.before| + 5 + |value| {
        assert attrs[k] == value[k - |a.before| - 5];
      } else {
        assert attrs[k] == a.after[k - |a.before| - 5 - |value|];
      }
    }
  }

  lemma NothingBehind(head: Bytes, tail: Bytes, sub: Bytes)
    requires IndexFrom(tail, sub, 0).None? && sub != []
    ensures IndexFrom(head + tail, sub, |head|).None?
  {
    hide OccursAt, IndexFrom;
    forall j | |head| <= j < |head + tail| ensures !OccursAt(head + tail, sub, j) {
      OccursInSuffix(head, tail, sub, j - |head|);
      assert !OccursAt(tail, sub, j - |head|);
    }
    NowhereIsNone(head + tail, sub, |head|);
  }

  lemma OccursInSuffix(head: Bytes, tail: Bytes, sub: Bytes, j: nat)
    ensures OccursAt(head + tail, sub, |head| + j) <==> OccursAt(tail, sub, j)
  {
    if j + |sub| <= |tail| {
      assert (head + tail)[|head| + j..|head| + j + |sub|] == tail[j..j + |sub|];
    }
  }

  lemma AttrIsLost(a: Anchor, lib: Library)
    requires IsTheHref(a, lib) && StandsAlone(a, lib) && !KeepsLength(a, lib)
    ensures Attr(Attrs(a), "href", lib) == []
  {
    hide IndexFrom, ValueAfter, Attrs, Quoted, IsTheHref, KeepsLength, ToLower, Attr, AttrFrom, LowerBefore, Tail;
    AttrAtFirst(a, lib);
    EqualsIsMissed(a, lib);
    LowerAttrs(a, lib);
    var head := LowerBefore(a, lib) + "href";
    NothingBehind(head, ToLower(Tail(a), lib.lowerTable), "href");
    AttrAtNone(Attrs(a), ToLower(Attrs(a), lib.lowerTable), "href", |head|);
  }

  lemma AttrAtNone(attrs: Bytes, lower: Bytes, name: Bytes, i: nat)
    requires i <= |lower| && name != [] && IndexFrom(lower, name, i).None?
    ensures AttrFrom(attrs, lower, name, i) == []
  {
    hide IndexFrom;
  }

  /** With nothing else to be taken for it, the target is read back exactly when
      lower-casing keeps the length of the text before it, and is lost otherwise. */
  lemma HrefReadsBackIff(a: Anchor, lib: Library)
    requires Written(a) && IsTheHref(a, lib) && StandsAlone(a, lib) && a.target != []
    ensures Attr(Attrs(a), "href", lib) == (if KeepsLength(a, lib) then a.target else [])
    ensures Attr(Attrs(a), "href", lib) == a.target <==> KeepsLength(a, lib)
  {
    hide Written, IsTheHref, StandsAlone, KeepsLength, Attr, Attrs;
    if KeepsLength(a, lib) {
      HrefReadsBack(a, lib);
    } else {
      AttrIsLost(a, lib);
    }
  }

  // ---- the tag ends where it was closed -------------------------------------

  lemma {:induction false} QuoteConcat(a: Bytes, b: Bytes, quote: Option<Byte>)
    requires QuoteAfter(a, quote).Some?
    ensures QuoteAfter(a + b, quote) == QuoteAfter(b, QuoteAfter(a, quote).value)
    decreases |a|
  {
    if a == [] {
      assert a + b == b;
    } else {
      assert (a + b)[1..] == a[1..] + b;
      var q := if quote.Some? then (if a[0] == quote.value then None else quote)
               else if a[0] == '"' || a[0] == '\'' then Some(a[0]) else None;
      QuoteConcat(a[1..], b, q);
    }
  }

  /** Inside quotes nothing ends the tag, and without quotes and brackets nothing else does. */
  lemma {:induction false} QuoteStays(s: Bytes, quote: Option<Byte>)
    requires if quote.Some? then quote.value !in s else '"' !in s && '\'' !in s && '>' !in s
    ensures QuoteAfter(s, quote) == Some(quote)
    decreases |s|
  {
    if s != [] {
      QuoteStays(s[1..], quote);
    }
  }

  lemma WrappedIsBalanced(quote: Byte, target: Bytes)
    requires quote !in target && (quote == '"' || quote == '\'')
    ensures Balanced([quote] + target + [quote])
  {
    QuoteStays(target, Some(quote));
    QuoteConcat(target, [quote], Some(quote));
    assert QuoteAfter([quote], Some(quote)) == Some(None) by {
      assert [quote][1..] == [];
    }
    assert ([quote] + target + [quote])[1..] == target + [quote];
  }

  lemma AttrsAreBalanced(a: Anchor)
    requires Written(a)
    ensures Balanced(Attrs(a))
  {
    var value := Quoted(a.target, a.quoting);
    assert Balanced(value) by {
      match a.quoting
      case Double => WrappedIsBalanced('"', a.target);
      case Single => WrappedIsBalanced('\'', a.target);
      case Bare => QuoteStays(a.target, None);
    }
    QuoteStays("href=", None);
    hide QuoteAfter;
    QuoteConcat(a.before, "href=", None);
    QuoteConcat(a.before + "href=", value, None);
    QuoteConcat(a.before + "href=" + value, a.after, None);
  }

  lemma {:induction false} TagEndPast(src: Bytes, j: nat, s: Bytes, quote: Option<Byte>)
    requires OccursAt(src, s, j) && QuoteAfter(s, quote).Some?
    ensures TagEnd(src, j, quote) == TagEnd(src, j + |s|, QuoteAfter(s, quote).value)
    decreases |s|
  {
    if s != [] {
      var q := if quote.Some? then (if s[0] == quote.value then None else quote)
               else if s[0] == '"' || s[0] == '\'' then Some(s[0]) else None;
      assert src[j] == src[j..j + |s|][0] == s[0];
      assert src[j + 1..j + |s|] == src[j..j + |s|][1..] == s[1..];
      TagEndPast(src, j + 1, s[1..], q);
    }
  }

  lemma TagLayout(src: Bytes, i: nat, attrs: Bytes)
    requires attrs != [] && OccursAt(src, "<a" + attrs + ">", i)
    ensures i + 2 + |attrs| < |src| && src[i] == '<' && src[i + 1] == 'a' && src[i + 2] == attrs[0] && src[i + 2 + |attrs|] == '>'
    ensures OccursAt(src, attrs, i + 2)
  {
    var tag := "<a" + attrs + ">";
    assert tag[0] == '<' && tag[1] == 'a' && tag[2] == attrs[0] && tag[|attrs| + 2] == '>';
    assert src[i] == src[i..i + |tag|][0] && src[i + 1] == src[i..i + |tag|][1] && src[i + 2] == src[i..i + |tag|][2];
    assert src[i + 2 + |attrs|] == src[i..i + |tag|][|attrs| + 2];
    assert tag[2..|attrs| + 2] == attrs;
    forall k | 0 <= k < |attrs| ensures src[i + 2 + k] == attrs[k] {
      assert tag[k + 2] == attrs[k] && src[i..i + |tag|][k + 2] == src[i + 2 + k];
    }
  }

  /** The opening tag of a link is parsed whole, brackets inside quotes included. */
  lemma LinkReadsBack(src: Bytes, i: nat, a: Anchor)
    requires Written(a) && OccursAt(src, OpenTag(a), i)
    ensures TagAt(src, i) == Some(Tag("a", Attrs(a), false, i + |OpenTag(a)|))
  {
    AttrsAreBalanced(a);
    var attrs := Attrs(a);
    assert attrs[0] == a.before[0];
    TagLayout(src, i, attrs);
    TagParses(src, i, attrs);
    hide Written, TagAt, OccursAt, Balanced, Attrs;
  }

  lemma TagParses(src: Bytes, i: nat, attrs: Bytes)
    requires attrs != [] && WordStops(attrs[0]) && Balanced(attrs)
    requires i + 2 + |attrs| < |src| && src[i] == '<' && src[i + 1] == 'a' && src[i + 2] == attrs[0] && src[i + 2 + |attrs|] == '>'
    requires OccursAt(src, attrs, i + 2)
    ensures TagAt(src, i) == Some(Tag("a", attrs, false, i + |attrs| + 3))
  {
    assert NameEnd(src, i + 1) == i + 2;
    assert Lower(src[i + 1..i + 2]) == "a";
    TagEndPast(src, i + 2, attrs, None);
    assert TagEnd(src, i + 2 + |attrs|, None) == Some(i + 2 + |attrs|);
    hide NameEnd, TagEnd, Lower, QuoteAfter;
  }

  lemma ClosingReadsBack(src: Bytes, i: nat)
    requires OccursAt(src, "</a>", i)
    ensures TagAt(src, i) == Some(Tag("a", [], true, i + 4))
  {
    forall k | 0 <= k < 4 ensures src[i + k] == "</a>"[k] {
      assert src[i..i + 4][k] == "</a>"[k];
    }
    assert src[i] == '<' && src[i + 1] == '/' && src[i + 2] == 'a' && src[i + 3] == '>';
    assert NameEnd(src, i + 2) == i + 3 && TagEnd(src, i + 3, None) == Some(i + 3);
    assert Lower(src[i + 2..i + 3]) == "a" && src[i + 3..i + 3] == [];
    hide NameEnd, TagEnd, Lower;
  }

  // ---- the whole link -------------------------------------------------------

  /** ASCII text without markup. */
  predicate PlainText(text: Bytes) {
    '<' !in text && IsAscii(text)
  }

  lemma PlainTail(text: Bytes)
    requires PlainText(text) && text != []
    ensures PlainText(text[1..]) && text[0] != '<' && text[0] as int < 128
  {
  }

  /** Plain ASCII text is emitted as it is. */
  lemma {:induction false} TextIsEmitted(src: Bytes, i: nat, text: Bytes, st: Scan, lib: Library)
    requires OccursAt(src, text, i) && PlainText(text) && st.skip == []
    ensures ScanFrom(src, i, st, lib) == ScanFrom(src, i + |text|, Emit(st, text), lib)
    decreases |text|
  {
    EmitNothing(st);
    hide PlainText, Emit, ScanFrom;
    if text != [] {
      OccursNext(src, text, i);
      PlainTail(text);
      OneByte(src, i, st, lib);
      TextIsEmitted(src, i + 1, text[1..], Emit(st, [text[0]]), lib);
      EmitTwice(st, text);
      assert i + 1 + |text[1..]| == i + |text|;
    }
  }

  lemma EmitNothing(st: Scan)
    ensures Emit(st, []) == st
  {
    assert st.anchor + [] == st.anchor && st.out + [] == st.out;
  }

  lemma OccursNext(s: Bytes, sub: Bytes, i: nat)
    requires OccursAt(s, sub, i) && sub != []
    ensures i < |s| && s[i] == sub[0] && OccursAt(s, sub[1..], i + 1)
  {
    assert s[i] == s[i..i + |sub|][0];
    assert s[i + 1..i + |sub|] == s[i..i + |sub|][1..];
  }

  lemma OneByte(src: Bytes, i: nat, st: Scan, lib: Library)
    requires i < |src| && src[i] != '<' && src[i] as int < 128 && st.skip == []
    ensures ScanFrom(src, i, st, lib) == ScanFrom(src, i + 1, Emit(st, [src[i]]), lib)
    ensures Emit(st, [src[i]]).skip == []
  {
    ScanStep(src, i, st, lib);
    AsciiIsItself(src[i]);
    hide ScanFrom, AsText, TagAt, OnTag, OpensComment;
  }

  lemma AsciiIsItself(c: Byte)
    requires c as int < 128
    ensures AsText(c) == [c]
  {
  }

  lemma EmitTwice(st: Scan, text: Bytes)
    requires text != []
    ensures Emit(Emit(st, [text[0]]), text[1..]) == Emit(st, text)
  {
    assert st.anchor + [text[0]] + text[1..] == st.anchor + text && st.out + [text[0]] + text[1..] == st.out + text;
  }

  lemma NotAComment(src: Bytes, i: nat)
    requires i + 1 < |src| && src[i + 1] != '!'
    ensures !OpensComment(src, i)
  {
    if i + 4 <= |src| { assert src[i..i + 4][1] == src[i + 1]; }
  }

  lemma ScanEnds(src: Bytes, out: Bytes, lib: Library)
    ensures ScanFrom(src, |src|, START.(out := out), lib) == out
  {
  }

  /** The target behind the text, if there is one and the text is not the target already. */
  function Suffix(text: Bytes, target: Bytes, lib: Library): Bytes {
    if target != [] && lib.trimSpace(lib.unescape(text)) != lib.unescape(target) then " (" + target + ")" else []
  }

  /** The target the scanner goes by: a web or mail address. */
  function Shown(a: Anchor, lib: Library): Bytes {
    var href := Attr(Attrs(a), "href", lib);
    if Linkable(href) then href else []
  }

  lemma OpeningIsScanned(src: Bytes, i: nat, a: Anchor, out: Bytes, lib: Library)
    requires Written(a) && OccursAt(src, OpenTag(a), i)
    ensures ScanFrom(src, i, START.(out := out), lib)
            == ScanFrom(src, i + |OpenTag(a)|, Scan(out, [], true, Shown(a, lib), []), lib)
  {
    hide Written, Attrs, TagAt, Attr, Linkable, ScanFrom, OpensComment, CloseAnchor, OnTag, Shown;
    assert src[i] == src[i..i + |OpenTag(a)|][0] == '<';
    assert src[i + 1] == src[i..i + |OpenTag(a)|][1] == 'a';
    NotAComment(src, i);
    LinkReadsBack(src, i, a);
    OpeningOpens(a, out, i + |OpenTag(a)|, lib);
    ScanStep(src, i, START.(out := out), lib);
  }

  lemma OpeningOpens(a: Anchor, out: Bytes, next: nat, lib: Library)
    ensures OnTag(START.(out := out), Tag("a", Attrs(a), false, next), lib) == Scan(out, [], true, Shown(a, lib), [])
  {
    hide Attrs, Attr, Linkable, CloseAnchor;
  }

  lemma ClosingCloses(out: Bytes, text: Bytes, target: Bytes, next: nat, lib: Library)
    ensures OnTag(Scan(out, text, true, target, []), Tag("a", [], true, next), lib)
            == START.(out := out + text + Suffix(text, target, lib))
  {
  }

  lemma ClosingIsScanned(src: Bytes, i: nat, out: Bytes, text: Bytes, target: Bytes, lib: Library)
    requires OccursAt(src, "</a>", i)
    ensures ScanFrom(src, i, Scan(out, text, true, target, []), lib)
            == ScanFrom(src, i + 4, START.(out := out + text + Suffix(text, target, lib)), lib)
  {
    hide TagAt, ScanFrom, OpensComment, OnTag, Suffix;
    assert src[i] == src[i..i + 4][0] == '<' && src[i + 1] == src[i..i + 4][1] == '/';
    NotAComment(src, i);
    ClosingReadsBack(src, i);
    ClosingCloses(out, text, target, i + 4, lib);
    ScanStep(src, i, Scan(out, text, true, target, []), lib);
  }

  /** The order of a page around one link. */
  function Page(lead: Bytes, a: Anchor, text: Bytes, trail: Bytes): Bytes {
    lead + OpenTag(a) + text + "</a>" + trail
  }

  lemma PagePieces(lead: Bytes, a: Anchor, text: Bytes, trail: Bytes)
    ensures var src, open := Page(lead, a, text, trail), |OpenTag(a)|;
            && OccursAt(src, lead, 0) && OccursAt(src, OpenTag(a), |lead|) && OccursAt(src, text, |lead| + open)
            && OccursAt(src, "</a>", |lead| + open + |text|) && OccursAt(src, trail, |lead| + open + |text| + 4)
            && |src| == |lead| + open + |text| + 4 + |trail|
  {
    hide OpenTag;
    var src, tag := Page(lead, a, text, trail), OpenTag(a);
    assert src[..|lead|] == lead;
    assert src[|lead|..|lead| + |tag|] == tag;
    assert src[|lead| + |tag|..|lead| + |tag| + |text|] == text;
    assert src[|lead| + |tag| + |text|..|lead| + |tag| + |text| + 4] == "</a>";
    assert src[|lead| + |tag| + |text| + 4..] == trail;
  }

  /** Whatever target the scanner goes by, it stands behind the link's text. */
  lemma LinkScans(lead: Bytes, a: Anchor, text: Bytes, trail: Bytes, lib: Library)
    requires Written(a) && PlainText(lead) && PlainText(text) && PlainText(trail)
    ensures ScanFrom(Page(lead, a, text, trail), 0, START, lib) == lead + text + Suffix(text, Shown(a, lib), lib) + trail
  {
    PagePieces(lead, a, text, trail);
    hide Page, OpenTag, OccursAt, Written, Shown, PlainText, Suffix, ScanFrom;
    PiecesScan(Page(lead, a, text, trail), lead, a, text, trail, |lead| + |OpenTag(a)|, |lead| + |OpenTag(a)| + |text|, lib);
  }

  lemma PiecesScan(src: Bytes, lead: Bytes, a: Anchor, text: Bytes, trail: Bytes, inside: nat, close: nat, lib: Library)
    requires Written(a) && PlainText(lead) && PlainText(text) && PlainText(trail)
    requires OccursAt(src, lead, 0) && OccursAt(src, OpenTag(a), |lead|) && OccursAt(src, text, inside)
    requires OccursAt(src, "</a>", close) && OccursAt(src, trail, close + 4)
    requires inside == |lead| + |OpenTag(a)| && close == inside + |text| && |src| == close + 4 + |trail|
    ensures ScanFrom(src, 0, START, lib) == lead + text + Suffix(text, Shown(a, lib), lib) + trail
  {
    hide OpenTag, OccursAt, Written, Shown, PlainText, Suffix, ScanFrom;
    UpToClosing(src, lead, a, text, inside, lib);
    FromClosing(src, lead, text, Shown(a, lib), trail, close, lib);
  }

  lemma UpToClosing(src: Bytes, lead: Bytes, a: Anchor, text: Bytes, inside: nat, lib: Library)
    requires Written(a) && PlainText(lead) && PlainText(text)
    requires OccursAt(src, lead, 0) && OccursAt(src, OpenTag(a), |lead|) && OccursAt(src, text, inside) && inside == |lead| + |OpenTag(a)|
    ensures inside + |text| <= |src|
    ensures ScanFrom(src, 0, START, lib) == ScanFrom(src, inside + |text|, Scan(lead, text, true, Shown(a, lib), []), lib)
  {
    hide Written, PlainText, Shown, Suffix, ScanFrom, Emit, OpenTag;
    var target := Shown(a, lib);
    EmitPlain([], lead);
    TextIsEmitted(src, 0, lead, START, lib);
    OpeningIsScanned(src, |lead|, a, lead, lib);
    EmitInAnchor(lead, target, text);
    TextIsEmitted(src, inside, text, Scan(lead, [], true, target, []), lib);
  }

  lemma FromClosing(src: Bytes, lead: Bytes, text: Bytes, target: Bytes, trail: Bytes, close: nat, lib: Library)
    requires PlainText(trail)
    requires OccursAt(src, "</a>", close) && OccursAt(src, trail, close + 4) && |src| == close + 4 + |trail|
    ensures ScanFrom(src, close, Scan(lead, text, true, target, []), lib) == lead + text + Suffix(text, target, lib) + trail
  {
    hide OccursAt, PlainText, Suffix, ScanFrom, Emit;
    var done := lead + text + Suffix(text, target, lib);
    ClosingIsScanned(src, close, lead, text, target, lib);
    EmitPlain(done, trail);
    TextIsEmitted(src, close + 4, trail, START.(out := done), lib);
    ScanEnds(src, done + trail, lib);
  }

  lemma EmitPlain(out: Bytes, text: Bytes)
    ensures Emit(START.(out := out), text) == START.(out := out + text)
    ensures out == [] ==> START.(out := out) == START && out + text == text
  {
  }

  lemma EmitInAnchor(out: Bytes, target: Bytes, text: Bytes)
    ensures Emit(Scan(out, [], true, target, []), text) == Scan(out, text, true, target, [])
  {
    assert [] + text == text;
  }

  /** A link in the middle of ASCII text, with a web or mail target however quoted: the
      scanner yields the text around it, its own text, and the target in parentheses
      unless the text already shows it. */
  lemma LinkRenders(lead: Bytes, a: Anchor, text: Bytes, trail: Bytes, lib: Library)
    requires Written(a) && IsTheHref(a, lib) && KeepsLength(a, lib)
    requires "http://" <= a.target || "https://" <= a.target || "mailto:" <= a.target
    requires PlainText(lead) && PlainText(text) && PlainText(trail)
    ensures ToText(Page(lead, a, text, trail), lib)
            == Normalize(lib.unescape(
                           lead + text
                           + (if lib.trimSpace(lib.unescape(text)) == lib.unescape(a.target) then [] else " (" + a.target + ")")
                           + trail))
  {
    HrefReadsBack(a, lib);
    LinkScans(lead, a, text, trail, lib);
    hide Page, Written, IsTheHref, KeepsLength, PlainText, Normalize, ScanFrom, Attr, Attrs;
  }

  /** Where lower-casing changes the length of the text before the target, a link that
      stands alone loses it: only its text is left. */
  lemma ShiftedLinkLosesTarget(lead: Bytes, a: Anchor, text: Bytes, trail: Bytes, lib: Library)
    requires Written(a) && IsTheHref(a, lib) && StandsAlone(a, lib) && !KeepsLength(a, lib) && Linkable(a.target)
    requires PlainText(lead) && PlainText(text) && PlainText(trail)
    ensures ToText(Page(lead, a, text, trail), lib) == Normalize(lib.unescape(lead + text + trail))
  {
    assert a.target != [] && !Linkable([]);
    HrefReadsBackIff(a, lib);
    LinkScans(lead, a, text, trail, lib);
    assert Suffix(text, [], lib) == [] && lead + text + [] == lead + text;
    hide Page, Written, IsTheHref, KeepsLength, StandsAlone, Linkable, PlainText, Suffix, Normalize, ScanFrom, Attr, Attrs;
  }

  /** The attribute text ` title='caf\xE9' `, a Latin-1 title. */
  const LATIN_TITLE: Bytes := " title=" + ("'" + ("caf" + ['\U{E9}']) + "'") + " "

  lemma LatinTitleGrows(lib: Library)
    requires lib.lowerTable(REPLACEMENT) == REPLACEMENT
    ensures ToLower(LATIN_TITLE, lib.lowerTable) == " title='caf" + (['\U{EF}', '\U{BF}', '\U{BD}'] + "' ")
  {
    hide ToLower;
    var t := lib.lowerTable;
    var stray: Bytes := ['\U{E9}'] + "' ";
    assert LATIN_TITLE == " title='caf" + stray;
    StrayByteGrows(stray[0], "' ", t);
    ToLowerAfterAscii(" title='caf", stray, t);
    assert Lower(" title='caf") == " title='caf";
    ToLowerOfAscii("' ", t);
    assert Lower("' ") == "' ";
  }

  lemma LatinTitleIsWritten(target: Bytes)
    requires '"' !in target
    ensures Written(Anchor(LATIN_TITLE, target, Double, []))
  {
    QuoteStays(" title=", None);
    WrappedIsBalanced('\'', "caf" + ['\U{E9}']);
    QuoteStays(" ", None);
    QuoteConcat(" title=", "'" + ("caf" + ['\U{E9}']) + "'", None);
    QuoteConcat(" title=" + ("'" + ("caf" + ['\U{E9}']) + "'"), " ", None);
    assert LATIN_TITLE[0] == ' ';
    hide QuoteAfter;
  }

  lemma TailHasNoHref(a: Anchor, lib: Library)
    requires a.target == "http://x" && a.quoting == Double && a.after == []
    ensures IndexFrom(ToLower(Tail(a), lib.lowerTable), "href", 0).None?
  {
    hide ToLower, Tail, IndexFrom, Lower, IsAscii;
    var value: Bytes := "http://x\"";
    TailOfWitness(a);
    LowerOfWitness();
    ToLowerOfAscii("=\"" + value, lib.lowerTable);
    MissingLetter("=\"" + value, "href", 1);
  }

  lemma TailOfWitness(a: Anchor)
    requires a.target == "http://x" && a.quoting == Double && a.after == []
    ensures Tail(a) == "=\"" + "http://x\""
  {
  }

  lemma LowerOfWitness()
    ensures var tail: Bytes := "=\"" + "http://x\""; IsAscii(tail) && Lower(tail) == tail && 'r' !in tail
    ensures "href"[1] == 'r'
  {
  }

  lemma MissingLetter(s: Bytes, sub: Bytes, k: nat)
    requires k < |sub| && sub[k] !in s
    ensures IndexFrom(s, sub, 0).None?
  {
    hide OccursAt, IndexFrom;
    forall j | 0 <= j < |s| ensures !OccursAt(s, sub, j) {
      LetterOccurs(s, sub, j, k);
    }
    NowhereIsNone(s, sub, 0);
  }

  lemma LetterOccurs(s: Bytes, sub: Bytes, j: nat, k: nat)
    requires k < |sub|
    ensures OccursAt(s, sub, j) ==> sub[k] in s
  {
    if j + |sub| <= |s| { assert s[j..j + |sub|][k] == s[j + k]; }
  }

  /** A page that loses its link: the title's stray byte becomes three, and the target is
      looked for two bytes too late. */
  lemma LatinTitleLosesTarget(lib: Library)
    requires lib.lowerTable(REPLACEMENT) == REPLACEMENT
    ensures var a := Anchor(LATIN_TITLE, "http://x", Double, []);
            && Written(a) && IsTheHref(a, lib) && Linkable(a.target) && |LowerBefore(a, lib)| == |a.before| + 2
            && ToText(Page([], a, "y", []), lib) == Normalize(lib.unescape("y"))
  {
    var a := Anchor(LATIN_TITLE, "http://x", Double, []);
    LatinTitleIsWritten(a.target);
    LatinTitleShifts(a, lib);
    TailHasNoHref(a, lib);
    assert StandsAlone(a, lib) by { LatinTitleStandsAlone(a, lib); }
    assert [] + "y" + [] == "y";
    assert PlainText([]) && PlainText("y") && Linkable(a.target);
    hide ToText, Normalize, Page, Written, IsTheHref, StandsAlone, PlainText, Linkable, LowerBefore;
    ShiftedLinkLosesTarget([], a, "y", [], lib);
  }

  lemma LatinTitleShifts(a: Anchor, lib: Library)
    requires lib.lowerTable(REPLACEMENT) == REPLACEMENT && a.before == LATIN_TITLE
    ensures IsTheHref(a, lib) && |LowerBefore(a, lib)| == |a.before| + 2
  {
    hide ToLower, IndexFrom;
    LatinTitleGrows(lib);
    var lower := LowerBefore(a, lib);
    assert lower == " title='caf" + (['\U{EF}', '\U{BF}', '\U{BD}'] + "' ");
    NoEarlierHref(lower);
  }

  lemma LatinTitleStandsAlone(a: Anchor, lib: Library)
    requires |LowerBefore(a, lib)| == |a.before| + 2 && IndexFrom(ToLower(Tail(a), lib.lowerTable), "href", 0).None?
    requires a.target == "http://x" && a.quoting == Double && a.after == []
    ensures StandsAlone(a, lib)
  {
    hide ToLower, IndexFrom, LowerBefore, Tail;
  }
}

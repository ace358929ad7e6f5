/**
 The scanner that turns HTML into the plain-text part of a message, and the whitespace
 normalization it ends with. Text is bytes. The blanks that normalization knows are those
 of ASCII.
 */
module HtmlText {
  import opened Basics
  import opened Utf8

  /** What the scanner takes from the standard library: the entity decoder, the letter case
      of code points beyond ASCII, and trimming. */
  datatype Library = Library(unescape: Bytes -> Bytes, lowerTable: nat -> nat, trimSpace: Bytes -> Bytes)

  // ---- characters -----------------------------------------------------------

  predicate IsTagStart(c: char) {
    'a' <= c <= 'z' || 'A' <= c <= 'Z' || c == '!'
  }

  predicate IsAlnum(c: char) {
    'a' <= c <= 'z' || 'A' <= c <= 'Z' || '0' <= c <= '9'
  }

  predicate IsBlank(c: char) {
    c == ' ' || '\t' <= c <= '\r'
  }

  /** Go's string(c) for a byte: the UTF-8 encoding of the code point with that number. */
  function AsText(c: Byte): Bytes {
    EncodeRune(c as int)
  }

  predicate OccursAt(s: Bytes, sub: Bytes, i: nat) {
    i + |sub| <= |s| && s[i..i + |sub|] == sub
  }

  /** The first position at or after i where `sub` occurs, or none. */
  function IndexFrom(s: Bytes, sub: Bytes, i: nat): (r: Option<nat>)
    requires i <= |s|
    ensures r.Some? ==> i <= r.value && OccursAt(s, sub, r.value)
    ensures forall j :: i <= j < (if r.Some? then r.value else |s|) ==> !OccursAt(s, sub, j)
    decreases |s| - i
  {
    if OccursAt(s, sub, i) then Some(i)
    else if i == |s| then None
    else IndexFrom(s, sub, i + 1)
  }

  // ---- tags -----------------------------------------------------------------

  datatype Tag = Tag(name: Bytes, attrs: Bytes, closing: bool, next: nat)

  function NameEnd(src: Bytes, j: nat): (r: nat)
    requires j <= |src|
    ensures j <= r <= |src|
    decreases |src| - j
  {
    if j < |src| && (IsAlnum(src[j]) || src[j] == '!') then NameEnd(src, j + 1) else j
  }

  /** The '>' that ends the tag: one outside quotes. */
  function TagEnd(src: Bytes, j: nat, quote: Option<Byte>): (r: Option<nat>)
    requires j <= |src|
    ensures r.Some? ==> j <= r.value < |src| && src[r.value] == '>'
    decreases |src| - j
  {
    if j == |src| then None
    else if quote.Some? then TagEnd(src, j + 1, if src[j] == quote.value then None else quote)
    else if src[j] == '"' || src[j] == '\'' then TagEnd(src, j + 1, Some(src[j]))
    else if src[j] == '>' then Some(j)
    else TagEnd(src, j + 1, None)
  }

  /** The tag that opens at i, or none if the '<' there is just text. */
  function TagAt(src: Bytes, i: nat): (r: Option<Tag>)
    requires i < |src|
    ensures r.Some? ==> i + 1 < r.value.next <= |src|
  {
    var closing := i + 1 < |src| && src[i + 1] == '/';
    var start := if closing then i + 2 else i + 1;
    if start >= |src| || !IsTagStart(src[start]) then None
    else
      var end := NameEnd(src, start);
      match TagEnd(src, end, None)
      case None => None
      case Some(gt) => Some(Tag(Lower(src[start..end]), src[end..gt], closing, gt + 1))
  }

  method ParseTag(src: Bytes, i: nat) returns (tag: Option<Tag>)
    requires i < |src|
    ensures tag == TagAt(src, i)
  {
    var j, closing := i + 1, false;
    if j < |src| && src[j] == '/' {
      closing := true;
      j := j + 1;
    }
    if j >= |src| || !IsTagStart(src[j]) {
      return None;
    }
    var start := j;
    while j < |src| && (IsAlnum(src[j]) || src[j] == '!')
      invariant start <= j <= |src| && NameEnd(src, start) == NameEnd(src, j)
    {
      j := j + 1;
    }
    var name, attrStart := Lower(src[start..j]), j;
    var quote: Option<Byte> := None;
    while j < |src|
      invariant attrStart <= j <= |src| && TagEnd(src, attrStart, None) == TagEnd(src, j, quote)
    {
      var c := src[j];
      if quote.Some? {
        if c == quote.value { quote := None; }
      } else if c == '"' || c == '\'' {
        quote := Some(c);
      } else if c == '>' {
        return Some(Tag(name, src[attrStart..j], closing, j + 1));
      }
      j := j + 1;
    }
    return None;
  }

  // ---- attributes -----------------------------------------------------------

  predicate AttrBlank(c: char) {
    c == ' ' || c == '\t' || c == '\n' || c == '\r'
  }

  function SkipBlanks(s: Bytes, i: nat): (r: nat)
    requires i <= |s|
    ensures i <= r <= |s|
    decreases |s| - i
  {
    if i < |s| && AttrBlank(s[i]) then SkipBlanks(s, i + 1) else i
  }

  /** The end of an unquoted value. */
  function BareEnd(s: Bytes, i: nat): (r: nat)
    requires i <= |s|
    ensures i <= r <= |s|
    decreases |s| - i
  {
    if i < |s| && s[i] != ' ' && s[i] != '\t' then BareEnd(s, i + 1) else i
  }

  /** The value that starts at i, quoted or bare. */
  function ValueAt(attrs: Bytes, i: nat): Bytes
    requires i <= |attrs|
  {
    if i == |attrs| then []
    else if attrs[i] == '"' || attrs[i] == '\'' then
      match IndexFrom(attrs, [attrs[i]], i + 1)
      case None => attrs[i + 1..]
      case Some(end) => attrs[i + 1..end]
    else attrs[i..BareEnd(attrs, i)]
  }

  /** The value behind an attribute's name that ends at i, if an equals sign follows. */
  function ValueAfter(attrs: Bytes, i: nat): Option<Bytes> {
    var eq := if i < |attrs| then SkipBlanks(attrs, i) else i;
    if eq >= |attrs| || attrs[eq] != '=' then None else Some(ValueAt(attrs, SkipBlanks(attrs, eq + 1)))
  }

  /** The value of a named attribute, looked for from i on in the lower-cased text: the
      name must not continue a word and must be followed by an equals sign. The position
      found is used in the text itself, of whatever length. */
  function AttrFrom(attrs: Bytes, lower: Bytes, name: Bytes, i: nat): Bytes
    requires i <= |lower| && name != []
    decreases |lower| - i
  {
    match IndexFrom(lower, name, i)
    case None => []
    case Some(pos) =>
      var after := pos + |name|;
      if pos > 0 && IsAlnum(lower[pos - 1]) then AttrFrom(attrs, lower, name, after)
      else
        match ValueAfter(attrs, after)
        case Some(value) => value
        case None => AttrFrom(attrs, lower, name, after)
  }

  function Attr(attrs: Bytes, name: Bytes, lib: Library): Bytes
    requires name != []
  {
    AttrFrom(attrs, ToLower(attrs, lib.lowerTable), name, 0)
  }

  method AfterBlanks(s: Bytes, start: nat) returns (i: nat)
    requires start <= |s|
    ensures i == SkipBlanks(s, start)
  {
    i := start;
    while i < |s| && AttrBlank(s[i])
      invariant start <= i <= |s| && SkipBlanks(s, start) == SkipBlanks(s, i)
    {
      i := i + 1;
    }
  }

  method ReadValue(attrs: Bytes, start: nat) returns (value: Bytes)
    requires start <= |attrs|
    ensures value == ValueAt(attrs, start)
  {
    if start >= |attrs| {
      return [];
    }
    if attrs[start] == '"' || attrs[start] == '\'' {
      var close := IndexFrom(attrs, [attrs[start]], start + 1);
      return if close.None? then attrs[start + 1..] else attrs[start + 1..close.value];
    }
    var end := start;
    while end < |attrs| && attrs[end] != ' ' && attrs[end] != '\t'
      invariant start <= end <= |attrs| && BareEnd(attrs, start) == BareEnd(attrs, end)
    {
      end := end + 1;
    }
    return attrs[start..end];
  }

  method AttrValue(attrs: Bytes, name: Bytes, lib: Library) returns (value: Bytes)
    requires name != []
    ensures value == Attr(attrs, name, lib)
  {
    hide IndexFrom, OccursAt, ToLower, SkipBlanks, ValueAt;
    var lower, idx := ToLower(attrs, lib.lowerTable), 0;
    while true
      invariant idx <= |lower| && Attr(attrs, name, lib) == AttrFrom(attrs, lower, name, idx)
      decreases |lower| - idx
    {
      var found := IndexFrom(lower, name, idx);
      if found.None? {
        return [];
      }
      FoundFits(lower, name, idx);
      var pos, rest := found.value, found.value + |name|;
      idx := rest;
      if pos > 0 && IsAlnum(lower[pos - 1]) {
        continue;
      }
      if rest < |attrs| {
        rest := AfterBlanks(attrs, rest);
      }
      if rest >= |attrs| || attrs[rest] != '=' {
        continue;
      }
      rest := AfterBlanks(attrs, rest + 1);
      value := ReadValue(attrs, rest);
      return;
    }
  }

  lemma FoundFits(s: Bytes, sub: Bytes, i: nat)
    requires i <= |s| && sub != [] && IndexFrom(s, sub, i).Some?
    ensures i <= IndexFrom(s, sub, i).value && IndexFrom(s, sub, i).value + |sub| <= |s|
  {
  }

  // ---- the scan -------------------------------------------------------------

  datatype Scan = Scan(out: Bytes, anchor: Bytes, inAnchor: bool, href: Bytes, skip: Bytes)

  const START := Scan([], [], false, [], [])

  function Emit(st: Scan, s: Bytes): Scan {
    if st.inAnchor then st.(anchor := st.anchor + s) else st.(out := st.out + s)
  }

  /** The link text, and the target in parentheses unless the text already is the target. */
  function CloseAnchor(st: Scan, lib: Library): Scan {
    var out := st.out + st.anchor;
    var suffix := if st.href != [] && lib.trimSpace(lib.unescape(st.anchor)) != lib.unescape(st.href) then " (" + st.href + ")" else [];
    Scan(out + suffix, [], false, [], st.skip)
  }

  predicate Linkable(href: Bytes) {
    "http://" <= href || "https://" <= href || "mailto:" <= href
  }

  const BLOCK_TAGS: set<Bytes> := {
    "p", "div", "section", "article", "header", "footer", "main", "aside",
    "h1", "h2", "h3", "h4", "h5", "h6", "ul", "ol", "li", "table", "tr",
    "blockquote", "pre", "hr", "figure", "figcaption", "form", "fieldset", "address"}

  function OnTag(st: Scan, tag: Tag, lib: Library): Scan {
    if st.skip != [] then (if tag.closing && tag.name == st.skip then st.(skip := []) else st)
    else if tag.name == "style" || tag.name == "script" then (if tag.closing then st else st.(skip := tag.name))
    else if tag.name == "br" then Emit(st, "\n")
    else if tag.name == "a" then
      var flushed := if st.inAnchor then CloseAnchor(st, lib) else st;
      if tag.closing then flushed
      else
        var href := Attr(tag.attrs, "href", lib);
        flushed.(inAnchor := true, href := if Linkable(href) then href else flushed.href)
    else if tag.name == "li" then (if tag.closing then st else Emit(st, "\n- "))
    else if tag.name in BLOCK_TAGS then Emit(st, "\n")
    else st
  }

  /** The end of a comment that opens at i. */
  function CommentEnd(src: Bytes, i: nat): (r: nat)
    requires i + 4 <= |src|
    ensures i + 4 <= r <= |src|
  {
    match IndexFrom(src, "-->", i + 4)
    case Some(end) => end + 3
    case None => |src|
  }

  predicate OpensComment(src: Bytes, i: nat)
    requires i < |src|
  {
    i + 4 <= |src| && src[i..i + 4] == "<!--"
  }

  /** One step of the scan. It always moves forward. */
  function Next(src: Bytes, i: nat, st: Scan, lib: Library): (r: (nat, Scan))
    requires i < |src|
    ensures i < r.0 <= |src|
  {
    if src[i] != '<' then (i + 1, if st.skip == [] then Emit(st, AsText(src[i])) else st)
    else if OpensComment(src, i) then (CommentEnd(src, i), st)
    else
      match TagAt(src, i)
      case None => (i + 1, if st.skip == [] then Emit(st, "<") else st)
      case Some(tag) => (tag.next, OnTag(st, tag, lib))
  }

  function ScanFrom(src: Bytes, i: nat, st: Scan, lib: Library): Bytes
    requires i <= |src|
    decreases |src| - i
  {
    if i == |src| then (if st.inAnchor then CloseAnchor(st, lib) else st).out
    else
      var (j, next) := Next(src, i, st, lib);
      ScanFrom(src, j, next, lib)
  }

  function ToText(src: Bytes, lib: Library): Bytes {
    Normalize(lib.unescape(ScanFrom(src, 0, START, lib)))
  }

  lemma ScanStep(src: Bytes, i: nat, st: Scan, lib: Library)
    requires i < |src|
    ensures var (j, next) := Next(src, i, st, lib);
            ScanFrom(src, i, st, lib) == ScanFrom(src, j, next, lib)
  {
    hide Next, CloseAnchor;
  }

  lemma ScanEnd(src: Bytes, lib: Library)
    ensures forall st :: ScanFrom(src, |src|, st, lib) == (if st.inAnchor then CloseAnchor(st, lib) else st).out
  {
  }

  method HTMLToText(src: Bytes, lib: Library) returns (text: Bytes)
    ensures text == ToText(src, lib)
  {
    ScanEnd(src, lib);
    hide OnTag, TagAt, ScanFrom, Normalize, Emit, AsText, IndexFrom, CloseAnchor;
    var st, i := START, 0;
    while i < |src|
      invariant 0 <= i <= |src|
      invariant ScanFrom(src, 0, START, lib) == ScanFrom(src, i, st, lib)
      decreases |src| - i
    {
      ScanStep(src, i, st, lib);
      ghost var before, was := i, st;
      var c := src[i];
      if c != '<' {
        if st.skip == [] { st := Emit(st, AsText(c)); }
        i := i + 1;
      } else if i + 4 <= |src| && src[i..i + 4] == "<!--" {
        var end := IndexFrom(src, "-->", i + 4);
        i := if end.Some? then end.value + 3 else |src|;
      } else {
        var tag := ParseTag(src, i);
        if tag.None? {
          if st.skip == [] { st := Emit(st, "<"); }
          i := i + 1;
        } else {
          i := tag.value.next;
          st := OnTag(st, tag.value, lib);
        }
      }
      assert (i, st) == Next(src, before, was, lib);
    }
    if st.inAnchor { st := CloseAnchor(st, lib); }
    text := NormalizeWhitespace(lib.unescape(st.out));
  }

  // ---- plain text survives --------------------------------------------------

  function Reencode(s: Bytes): Bytes {
    if s == [] then [] else Reencode(s[..|s| - 1]) + AsText(s[|s| - 1])
  }

  /** Text without markup comes out byte by byte, each byte re-encoded. */
  lemma {:induction false} ScanPlain(src: Bytes, i: nat, out: Bytes, lib: Library)
    requires i <= |src| && '<' !in src && out == Reencode(src[..i])
    ensures ScanFrom(src, i, START.(out := out), lib) == Reencode(src)
    decreases |src| - i
  {
    if i == |src| {
      assert src[..i] == src;
    } else {
      assert src[..i + 1][..i] == src[..i];
      assert src[i] in src;
      ScanPlain(src, i + 1, out + AsText(src[i]), lib);
    }
  }

  lemma AsTextSize(c: Byte)
    ensures |AsText(c)| == if c as int < 128 then 1 else 2
  {
  }

  lemma {:induction false} ReencodeIsIdentityOnAscii(s: Bytes)
    ensures |Reencode(s)| >= |s|
    ensures Reencode(s) == s <==> IsAscii(s)
  {
    if s != [] {
      var front := s[..|s| - 1];
      ReencodeIsIdentityOnAscii(front);
      assert s == front + [s[|s| - 1]];
      if !IsAscii(front) {
        assert Reencode(front) != front;
        ReencodeGrows(front);
      }
    }
  }

  lemma {:induction false} ReencodeGrows(s: Bytes)
    requires !IsAscii(s)
    ensures |Reencode(s)| > |s|
  {
    hide AsText;
    var front, last := s[..|s| - 1], s[|s| - 1];
    AsTextSize(last);
    if !IsAscii(front) {
      ReencodeGrows(front);
    } else {
      ReencodeIsIdentityOnAscii(front);
      assert s == front + [last];
    }
  }

  /** Text without markup reaches the entity decoder unchanged exactly when it is ASCII:
      each byte above 127 is taken for a code point of its own and encoded anew. */
  lemma PlainTextSurvivesIffAscii(src: Bytes, lib: Library)
    requires '<' !in src
    ensures ScanFrom(src, 0, START, lib) == src <==> IsAscii(src)
  {
    assert src[..0] == [];
    ScanPlain(src, 0, [], lib);
    ReencodeIsIdentityOnAscii(src);
  }

  // ---- style and script -----------------------------------------------------

  /** Where an element whose content is dropped ends: after its closing tag, or at the end. */
  function ElementEnd(src: Bytes, i: nat, name: Bytes): (r: nat)
    requires i <= |src|
    ensures i <= r <= |src|
    decreases |src| - i
  {
    if i == |src| then i
    else if src[i] != '<' then ElementEnd(src, i + 1, name)
    else if OpensComment(src, i) then ElementEnd(src, CommentEnd(src, i), name)
    else
      match TagAt(src, i)
      case None => ElementEnd(src, i + 1, name)
      case Some(tag) => if tag.closing && tag.name == name then tag.next else ElementEnd(src, tag.next, name)
  }

  lemma OnTagSkipping(st: Scan, tag: Tag, lib: Library)
    requires st.skip != []
    ensures OnTag(st, tag, lib) == if tag.closing && tag.name == st.skip then st.(skip := []) else st
  {
  }

  /** Nothing inside such an element reaches the output, tags and comments included. */
  lemma {:induction false} ElementContentIsDropped(src: Bytes, i: nat, st: Scan, lib: Library)
    requires i <= |src| && st.skip != []
    ensures ScanFrom(src, i, st, lib) == ScanFrom(src, ElementEnd(src, i, st.skip), st.(skip := []), lib)
    decreases |src| - i
  {
    CloseIgnoresSkip(st, lib);
    hide Next, ElementEnd, CloseAnchor;
    if i == |src| {
      ElementEndsLast(src, st.skip);
    } else {
      var (j, next) := Next(src, i, st, lib);
      OneSkipped(src, i, st, lib);
      if next == st {
        ElementContentIsDropped(src, j, st, lib);
      }
    }
  }

  lemma CloseIgnoresSkip(st: Scan, lib: Library)
    ensures CloseAnchor(st, lib).out == CloseAnchor(st.(skip := []), lib).out
  {
  }

  lemma ElementEndsLast(src: Bytes, name: Bytes)
    ensures ElementEnd(src, |src|, name) == |src|
  {
  }

  /** One step inside such an element changes nothing, unless it closes the element. */
  lemma OneSkipped(src: Bytes, i: nat, st: Scan, lib: Library)
    requires i < |src| && st.skip != []
    ensures var (j, next) := Next(src, i, st, lib);
            || (next == st && ElementEnd(src, i, st.skip) == ElementEnd(src, j, st.skip))
            || (next == st.(skip := []) && ElementEnd(src, i, st.skip) == j)
  {
    hide TagAt, CommentEnd, OpensComment, OnTag, Emit, AsText;
    var tag := TagAt(src, i);
    if tag.Some? { OnTagSkipping(st, tag.value, lib); }
  }

  // ---- escaping -------------------------------------------------------------

  function EscapeByte(c: Byte): Bytes {
    if c == '&' then "&amp;" else if c == '\'' then "&#39;" else if c == '<' then "&lt;"
    else if c == '>' then "&gt;" else if c == '"' then "&#34;" else [c]
  }

  /** html.EscapeString. */
  function Escape(s: Bytes): Bytes {
    if s == [] then [] else EscapeByte(s[0]) + Escape(s[1..])
  }

  lemma {:induction false} EscapedIsPlain(s: Bytes)
    ensures '<' !in Escape(s)
    ensures IsAscii(s) ==> IsAscii(Escape(s))
  {
    if s != [] {
      EscapedIsPlain(s[1..]);
      var head := EscapeByte(s[0]);
      assert '<' !in head;
      assert IsAscii(s) ==> IsAscii(head);
    }
  }

  /** Whatever ASCII text an author escapes into HTML, the text part reads the same, up to
      whitespace; the only fact used about the decoder is the documented one, that it
      undoes escaping. */
  lemma EscapedTextReadsBack(s: Bytes, lib: Library)
    requires IsAscii(s) && lib.unescape(Escape(s)) == s
    ensures ToText(Escape(s), lib) == Normalize(s)
  {
    EscapedIsPlain(s);
    PlainTextSurvivesIffAscii(Escape(s), lib);
  }

  // ---- whitespace -----------------------------------------------------------

  /** CRLF and CR become LF. */
  function UnixLines(s: Bytes): Bytes {
    if s == [] then []
    else if s[0] == '\r' then ['\n'] + UnixLines(if |s| > 1 && s[1] == '\n' then s[2..] else s[1..])
    else [s[0]] + UnixLines(s[1..])
  }

  /** strings.Split at newlines. */
  function SplitLines(s: Bytes): (r: seq<Bytes>)
    ensures r != []
  {
    if s == [] then [[]]
    else
      var rest := SplitLines(s[1..]);
      if s[0] == '\n' then [[]] + rest else [[s[0]] + rest[0]] + rest[1..]
  }

  /** strings.Fields, with the word being read as an accumulator. */
  function FieldsFrom(s: Bytes, word: Bytes): seq<Bytes> {
    if s == [] then (if word == [] then [] else [word])
    else if IsBlank(s[0]) then (if word == [] then [] else [word]) + FieldsFrom(s[1..], [])
    else FieldsFrom(s[1..], word + [s[0]])
  }

  function Fields(line: Bytes): seq<Bytes> {
    FieldsFrom(line, [])
  }

  function JoinWords(words: seq<Bytes>): Bytes {
    if words == [] then [] else if |words| == 1 then words[0] else words[0] + " " + JoinWords(words[1..])
  }

  /** A line of words, and whether a blank line comes before it. */
  datatype Line = Line(words: seq<Bytes>, gap: bool)

  function Layout(lines: seq<Bytes>, gap: bool): seq<Line>
    decreases |lines|
  {
    if lines == [] then []
    else
      var words := Fields(lines[0]);
      if words == [] then Layout(lines[1..], true) else [Line(words, gap)] + Layout(lines[1..], false)
  }

  function Separator(line: Line): Bytes {
    if line.gap then "\n\n" else "\n"
  }

  /** The lines after the first. */
  function RenderRest(lines: seq<Line>): Bytes {
    if lines == [] then [] else Separator(lines[0]) + JoinWords(lines[0].words) + RenderRest(lines[1..])
  }

  function Render(lines: seq<Line>): Bytes {
    if lines == [] then [] else JoinWords(lines[0].words) + RenderRest(lines[1..])
  }

  function Normalize(s: Bytes): Bytes {
    Render(Layout(SplitLines(UnixLines(s)), false))
  }

  lemma LayoutNext(lines: seq<Bytes>, i: nat, gap: bool)
    requires i < |lines|
    ensures var words := Fields(lines[i]);
            Layout(lines[i..], gap) ==
            if words == [] then Layout(lines[i + 1..], true) else [Line(words, gap)] + Layout(lines[i + 1..], false)
  {
    hide Fields;
    assert lines[i..][0] == lines[i] && lines[i..][1..] == lines[i + 1..];
  }

  lemma RenderNothing()
    ensures RenderRest([]) == []
  {
  }

  lemma RenderNext(line: Line, rest: seq<Line>, b: Bytes)
    ensures b + RenderRest([line] + rest) == b + Separator(line) + JoinWords(line.words) + RenderRest(rest)
    ensures Render([line] + rest) == JoinWords(line.words) + RenderRest(rest)
  {
    hide JoinWords;
    assert ([line] + rest)[1..] == rest;
  }

  /** The text so far with one more line written to it. */
  function Written(b: Bytes, wrote: bool, line: Line): Bytes {
    if wrote then b + Separator(line) + JoinWords(line.words) else JoinWords(line.words)
  }

  /** The text so far and the lines still to come. */
  function Whole(b: Bytes, wrote: bool, rest: seq<Line>): Bytes {
    if wrote then b + RenderRest(rest) else Render(rest)
  }

  lemma WholeNext(b: Bytes, wrote: bool, line: Line, rest: seq<Line>)
    ensures Whole(b, wrote, [line] + rest) == Whole(Written(b, wrote, line), true, rest)
  {
    RenderNext(line, rest, b);
  }

  method WriteLine(b: Bytes, wrote: bool, line: Line) returns (r: Bytes)
    requires !wrote ==> b == []
    ensures r == Written(b, wrote, line)
  {
    hide JoinWords;
    r := b;
    if wrote {
      r := r + "\n";
      if line.gap { r := r + "\n"; }
    }
    r := r + JoinWords(line.words);
    assert "\n\n" == "\n" + "\n";
    assert [] + JoinWords(line.words) == JoinWords(line.words);
    assert b + "\n" + "\n" == b + ("\n" + "\n");
  }

  method NormalizeWhitespace(s: Bytes) returns (b: Bytes)
    ensures b == Normalize(s)
  {
    var lines := SplitLines(UnixLines(s));
    b := [];
    var gap, wrote := false, false;
    var i := 0;
    assert lines[0..] == lines;
    while i < |lines|
      invariant 0 <= i <= |lines|
      invariant !wrote ==> b == []
      invariant Normalize(s) == Whole(b, wrote, Layout(lines[i..], gap))
    {
      hide Fields, UnixLines, SplitLines, Normalize, Layout, Written, Whole;
      LayoutNext(lines, i, gap);
      var words := Fields(lines[i]);
      if words == [] {
        gap := true;
      } else {
        WholeNext(b, wrote, Line(words, gap), Layout(lines[i + 1..], false));
        b := WriteLine(b, wrote, Line(words, gap));
        gap, wrote := false, true;
      }
      i := i + 1;
    }
    assert lines[i..] == [] && b + [] == b;
  }

  // ---- what normalized text looks like --------------------------------------

  predicate IsWord(w: Bytes) {
    w != [] && forall i :: 0 <= i < |w| ==> !IsBlank(w[i])
  }

  predicate AreWords(words: seq<Bytes>) {
    forall i :: 0 <= i < |words| ==> IsWord(words[i])
  }

  predicate WellLaid(lines: seq<Line>) {
    forall i :: 0 <= i < |lines| ==> lines[i].words != [] && AreWords(lines[i].words)
  }

  lemma {:induction false} FieldsAreWords(s: Bytes, word: Bytes)
    requires word == [] || IsWord(word)
    ensures AreWords(FieldsFrom(s, word))
  {
    if s != [] {
      if IsBlank(s[0]) {
        FieldsAreWords(s[1..], []);
      } else {
        FieldsAreWords(s[1..], word + [s[0]]);
      }
    }
  }

  lemma {:induction false} LayoutIsWellLaid(lines: seq<Bytes>, gap: bool)
    ensures WellLaid(Layout(lines, gap))
    decreases |lines|
  {
    if lines != [] {
      FieldsAreWords(lines[0], []);
      hide Fields, AreWords;
      LayoutIsWellLaid(lines[1..], true);
      LayoutIsWellLaid(lines[1..], false);
    }
  }

  /** Two neighbours: no two blanks together unless both are newlines. */
  predicate TidyPair(x: char, y: char) {
    IsBlank(x) && IsBlank(y) ==> x == '\n' && y == '\n'
  }

  /** No blank at either end, no blank but space and newline, no two blanks together
      unless both are newlines, and at most one blank line in a row. */
  ghost predicate Tidy(t: Bytes) {
    && (t != [] ==> !IsBlank(t[0]) && !IsBlank(t[|t| - 1]))
    && (forall i :: 0 <= i < |t| && IsBlank(t[i]) ==> t[i] == ' ' || t[i] == '\n')
    && (forall i :: 0 <= i < |t| - 1 ==> TidyPair(t[i], t[i + 1]))
    && (forall i :: 0 <= i < |t| - 2 && t[i] == '\n' && t[i + 1] == '\n' ==> t[i + 2] != '\n')
  }

  /** What stands at a place of three texts put together. */
  function GlueAt(a: Bytes, sep: Bytes, b: Bytes, i: nat): Byte
    requires i < |a| + |sep| + |b|
  {
    if i < |a| then a[i] else if i < |a| + |sep| then sep[i - |a|] else b[i - |a| - |sep|]
  }

  lemma TidyGlue(a: Bytes, sep: Bytes, b: Bytes)
    requires Tidy(a) && a != [] && Tidy(b) && b != [] && (sep == " " || sep == "\n" || sep == "\n\n")
    ensures Tidy(a + sep + b)
  {
    var t := a + sep + b;
    var last := a[|a| - 1];
    forall i | 0 <= i < |t| ensures t[i] == GlueAt(a, sep, b, i) {}
    forall i | 0 <= i < |t| - 1 ensures TidyPair(t[i], t[i + 1]) {
      assert t[i] == GlueAt(a, sep, b, i) && t[i + 1] == GlueAt(a, sep, b, i + 1);
      if i + 1 < |a| {
        assert TidyPair(a[i], a[i + 1]);
      } else if i >= |a| + |sep| {
        var k := i - |a| - |sep|;
        assert TidyPair(b[k], b[k + 1]);
      }
    }
    forall i | 0 <= i < |t| - 2 && t[i] == '\n' && t[i + 1] == '\n' ensures t[i + 2] != '\n' {
      assert t[i] == GlueAt(a, sep, b, i) && t[i + 1] == GlueAt(a, sep, b, i + 1) && t[i + 2] == GlueAt(a, sep, b, i + 2);
      if i >= |a| + |sep| {
        var k := i - |a| - |sep|;
        assert b[k] == '\n' && b[k + 1] == '\n';
      }
    }
  }

  lemma {:induction false} JoinedWordsAreTidy(words: seq<Bytes>)
    requires words != [] && AreWords(words)
    ensures Tidy(JoinWords(words)) && JoinWords(words) != [] && '\n' !in JoinWords(words)
  {
    assert IsWord(words[0]) && Tidy(words[0]);
    assert '\n' !in words[0];
    if |words| > 1 {
      JoinedWordsAreTidy(words[1..]);
      hide IsWord, Tidy;
      TidyGlue(words[0], " ", JoinWords(words[1..]));
    }
  }

  lemma {:induction false} RenderRestIsTidy(a: Bytes, lines: seq<Line>)
    requires Tidy(a) && a != [] && WellLaid(lines)
    ensures Tidy(a + RenderRest(lines))
    decreases |lines|
  {
    hide Tidy, AreWords, JoinWords, RenderRest;
    if lines == [] {
      RenderNothing();
      assert a + [] == a;
    } else {
      var j := JoinWords(lines[0].words);
      JoinedWordsAreTidy(lines[0].words);
      TidyGlue(a, Separator(lines[0]), j);
      RenderRestIsTidy(a + Separator(lines[0]) + j, lines[1..]);
      assert lines == [lines[0]] + lines[1..];
      RenderNext(lines[0], lines[1..], a);
    }
  }

  lemma RenderIsTidy(lines: seq<Line>)
    requires WellLaid(lines)
    ensures Tidy(Render(lines))
  {
    if lines != [] {
      JoinedWordsAreTidy(lines[0].words);
      hide Tidy, AreWords;
      RenderRestIsTidy(JoinWords(lines[0].words), lines[1..]);
    }
  }

  /** Normalized text is tidy, whatever went in. */
  lemma NormalizedIsTidy(s: Bytes)
    ensures Tidy(Normalize(s))
  {
    hide Tidy, WellLaid;
    LayoutIsWellLaid(SplitLines(UnixLines(s)), false);
    RenderIsTidy(Layout(SplitLines(UnixLines(s)), false));
  }

  // ---- normalizing twice is normalizing once --------------------------------

  lemma {:induction false} NoCarriageReturns(t: Bytes)
    requires '\r' !in t
    ensures UnixLines(t) == t
  {
    if t != [] {
      assert t[0] in t;
      assert forall c :: c in t[1..] ==> c in t;
      NoCarriageReturns(t[1..]);
    }
  }

  lemma {:induction false} SplitAppend(a: Bytes, b: Bytes)
    requires '\n' !in a
    ensures SplitLines(a) == [a]
    ensures SplitLines(a + "\n" + b) == [a] + SplitLines(b)
  {
    if a == [] {
      assert a + "\n" + b == "\n" + b;
    } else {
      assert a[0] in a;
      assert forall c :: c in a[1..] ==> c in a;
      SplitAppend(a[1..], b);
      assert (a + "\n" + b)[1..] == a[1..] + "\n" + b;
      assert a == [a[0]] + a[1..];
    }
  }

  /** A run of letters joins the word being read. */
  lemma {:induction false} FieldsTakeWord(w: Bytes, rest: Bytes, word: Bytes)
    requires forall i :: 0 <= i < |w| ==> !IsBlank(w[i])
    ensures FieldsFrom(w + rest, word) == FieldsFrom(rest, word + w)
  {
    if w == [] {
      assert w + rest == rest && word + w == word;
    } else {
      FieldsTakeWord(w[1..], rest, word + [w[0]]);
      assert (w + rest)[1..] == w[1..] + rest;
      assert word + [w[0]] + w[1..] == word + w;
    }
  }

  lemma {:induction false} FieldsInvertJoin(words: seq<Bytes>)
    requires words != [] && AreWords(words)
    ensures Fields(JoinWords(words)) == words
  {
    var w := words[0];
    assert IsWord(w);
    if |words| == 1 {
      FieldsTakeWord(w, [], []);
      assert w + [] == w && [] + w == w;
      assert words == [w];
    } else {
      var rest := JoinWords(words[1..]);
      FieldsInvertJoin(words[1..]);
      FieldsTakeWord(w, " " + rest, []);
      assert w + " " + rest == w + (" " + rest) && [] + w == w;
      assert (" " + rest)[1..] == rest;
      assert words == [w] + words[1..];
    }
  }

  /** The raw lines of rendered text, after the first. */
  function RawRest(lines: seq<Line>): seq<Bytes> {
    if lines == [] then []
    else
      var rest := [JoinWords(lines[0].words)] + RawRest(lines[1..]);
      if lines[0].gap then [[]] + rest else rest
  }

  lemma RawNext(line: Line, rest: seq<Line>)
    ensures var raw := [JoinWords(line.words)] + RawRest(rest);
            RawRest([line] + rest) == if line.gap then [[]] + raw else raw
    ensures RawRest([]) == []
  {
    hide JoinWords;
    assert ([line] + rest)[1..] == rest;
  }

  /** A separator splits off the line before it, and a gap splits off a blank line too. */
  lemma SplitAtSeparator(line: Bytes, next: Line, text: Bytes)
    requires '\n' !in line
    ensures SplitLines(line + Separator(next) + text) == [line] + (if next.gap then [[]] + SplitLines(text) else SplitLines(text))
  {
    hide SplitLines;
    SplitAppend(line, text);
    if next.gap {
      SplitAppend(line, [] + "\n" + text);
      SplitAppend([], text);
      assert line + "\n\n" + text == line + "\n" + ([] + "\n" + text);
    }
  }

  lemma {:induction false} SplitRendered(line: Bytes, lines: seq<Line>)
    requires '\n' !in line && WellLaid(lines)
    ensures SplitLines(line + RenderRest(lines)) == [line] + RawRest(lines)
    decreases |lines|
  {
    hide SplitLines, AreWords, JoinWords, Tidy, RenderRest, RawRest, Separator;
    RenderNothing();
    if lines == [] {
      assert line + [] == line;
      SplitAppend(line, []);
      RawNext(Line([], false), []);
    } else {
      var next, rest := lines[0], lines[1..];
      var j := JoinWords(next.words);
      JoinedWordsAreTidy(next.words);
      SplitRendered(j, rest);
      assert lines == [next] + rest;
      RenderNext(next, rest, line);
      RawNext(next, rest);
      assert line + Separator(next) + j + RenderRest(rest) == line + Separator(next) + (j + RenderRest(rest));
      SplitAtSeparator(line, next, j + RenderRest(rest));
    }
  }

  lemma LayoutCons(line: Bytes, rest: seq<Bytes>, gap: bool)
    ensures Layout([line] + rest, gap) ==
            if Fields(line) == [] then Layout(rest, true) else [Line(Fields(line), gap)] + Layout(rest, false)
  {
    hide Fields;
    assert ([line] + rest)[1..] == rest;
  }

  lemma {:induction false} LayoutRaw(lines: seq<Line>)
    requires WellLaid(lines)
    ensures Layout(RawRest(lines), false) == lines
  {
    if lines == [] {
      assert Layout([], false) == [];
    } else {
      hide AreWords, JoinWords, Fields, Layout, RawRest;
      var first, j, rest := lines[0], JoinWords(lines[0].words), RawRest(lines[1..]);
      LayoutRaw(lines[1..]);
      FieldsInvertJoin(first.words);
      NoWords();
      assert lines == [first] + lines[1..];
      RawNext(first, lines[1..]);
      LayoutCons(j, rest, first.gap);
      if first.gap { LayoutCons([], [j] + rest, false); }
    }
  }

  lemma NoWords()
    ensures Fields([]) == []
  {
  }

  lemma RenderIsFixed(lines: seq<Line>)
    requires WellLaid(lines)
    ensures Normalize(Render(lines)) == Render(lines)
  {
    hide AreWords, JoinWords, Fields, RenderRest, RawRest;
    var t := Render(lines);
    RenderIsTidy(lines);
    NoReturnsWhenTidy(t);
    NoCarriageReturns(t);
    if lines == [] {
      NoWords();
      assert SplitLines([]) == [[]] && SplitLines([])[1..] == [];
      assert Layout(SplitLines(t), false) == [];
    } else {
      var first, rest := lines[0], lines[1..];
      var j := JoinWords(first.words);
      JoinedWordsAreTidy(first.words);
      SplitRendered(j, rest);
      FieldsInvertJoin(first.words);
      LayoutRaw(rest);
      assert ([j] + RawRest(rest))[1..] == RawRest(rest);
      assert Layout(SplitLines(t), false) == [Line(first.words, false)] + rest;
      assert ([Line(first.words, false)] + rest)[1..] == rest;
    }
  }

  lemma NoReturnsWhenTidy(t: Bytes)
    requires Tidy(t)
    ensures '\r' !in t
  {
    if '\r' in t {
      var i :| 0 <= i < |t| && t[i] == '\r';
      assert IsBlank(t[i]);
    }
  }

  lemma NormalizeIsIdempotent(s: Bytes)
    ensures Normalize(Normalize(s)) == Normalize(s)
  {
    hide WellLaid, Render, Layout, SplitLines, UnixLines;
    LayoutIsWellLaid(SplitLines(UnixLines(s)), false);
    RenderIsFixed(Layout(SplitLines(UnixLines(s)), false));
  }
}

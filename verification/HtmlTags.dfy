/**
 What each kind of tag does to the text around it. Names are written out, may be in any
 letter case, and tags may carry attributes.
 */
module HtmlTags {
  import opened Basics
  import opened Utf8
  import opened HtmlText
  import opened HtmlLinks

  // ---- a tag as it is written -----------------------------------------------

  function TagText(name: Bytes, attrs: Bytes, closing: bool): Bytes {
    (if closing then "</" else "<") + name + attrs + ">"
  }

  /** A name of letters and digits that begins with a letter, or a declaration's "!"; the
      attribute text does not continue it, and its quotes are closed. */
  predicate WrittenTag(name: Bytes, attrs: Bytes) {
    && name != [] && IsTagStart(name[0])
    && (forall i :: 0 <= i < |name| ==> IsAlnum(name[i]) || name[i] == '!')
    && (attrs == [] || WordStops(attrs[0])) && Balanced(attrs)
    && !("!--" <= name + attrs)
  }

  lemma {:induction false} NameEndsThere(src: Bytes, i: nat, end: nat)
    requires i <= end < |src| && WordStops(src[end])
    requires forall k :: i <= k < end ==> IsAlnum(src[k]) || src[k] == '!'
    ensures NameEnd(src, i) == end
    decreases end - i
  {
    if i < end { NameEndsThere(src, i + 1, end); }
  }

  /** Where the parts of a tag stand in the text. */
  lemma TagParts(src: Bytes, i: nat, name: Bytes, attrs: Bytes, closing: bool)
    requires WrittenTag(name, attrs) && OccursAt(src, TagText(name, attrs, closing), i)
    ensures var start := if closing then i + 2 else i + 1;
            && start + |name| + |attrs| < |src| && src[i] == '<' && (src[i + 1] == '/' <==> closing)
            && src[start..start + |name|] == name && OccursAt(src, attrs, start + |name|)
            && src[start + |name| + |attrs|] == '>' && i + |TagText(name, attrs, closing)| == start + |name| + |attrs| + 1
            && (forall k :: 0 <= k < |name| ==> src[start + k] == name[k])
            && (attrs != [] ==> src[start + |name|] == attrs[0])
            && (!closing ==> src[i + 1] == name[0])
  {
    hide Balanced;
    if closing {
      PartsStand(src, i, "</", name, attrs);
      assert "</"[0] == '<' && "</"[1] == '/';
    } else {
      PartsStand(src, i, "<", name, attrs);
      assert "<"[0] == '<';
    }
  }

  lemma PartsStand(src: Bytes, i: nat, lead: Bytes, name: Bytes, attrs: Bytes)
    requires OccursAt(src, lead + name + attrs + ">", i)
    ensures var start := i + |lead|;
            && start + |name| + |attrs| < |src| && src[start + |name| + |attrs|] == '>'
            && OccursAt(src, name, start) && OccursAt(src, attrs, start + |name|)
            && (forall k :: 0 <= k < |lead| ==> src[i + k] == lead[k])
            && (forall k :: 0 <= k < |name| ==> src[start + k] == name[k])
            && (attrs != [] ==> src[start + |name|] == attrs[0])
  {
    hide OccursAt;
    Parts(lead, name, attrs, ">");
    PartStands(src, i, [], lead, name + attrs + ">");
    PartStands(src, i, lead, name, attrs + ">");
    PartStands(src, i, lead + name, attrs, ">");
    PartStands(src, i, lead + name + attrs, ">", []);
  }

  lemma Parts(a: Bytes, b: Bytes, c: Bytes, d: Bytes)
    ensures var t := a + b + c + d;
            t == [] + a + (b + c + d) && t == a + b + (c + d) && t == (a + b + c) + d + []
  {
  }

  lemma PartStands(src: Bytes, i: nat, head: Bytes, part: Bytes, rest: Bytes)
    requires OccursAt(src, head + part + rest, i)
    ensures OccursAt(src, part, i + |head|)
    ensures forall k :: 0 <= k < |part| ==> src[i + |head| + k] == part[k]
  {
    var t := head + part + rest;
    forall k | 0 <= k < |part| ensures src[i + |head| + k] == part[k] {
      assert src[i..i + |t|][|head| + k] == t[|head| + k];
    }
  }

  lemma TagReads(src: Bytes, i: nat, name: Bytes, attrs: Bytes, closing: bool)
    requires WrittenTag(name, attrs) && OccursAt(src, TagText(name, attrs, closing), i)
    ensures TagAt(src, i) == Some(Tag(Lower(name), attrs, closing, i + |TagText(name, attrs, closing)|))
  {
    hide NameEnd, TagEnd, Lower, QuoteAfter, TagText;
    TagParts(src, i, name, attrs, closing);
    var start := if closing then i + 2 else i + 1;
    NameEndsThere(src, start, start + |name|);
    AttrsEndThere(src, start + |name|, attrs);
    TagAtParts(src, i, closing, start + |name|, start + |name| + |attrs|);
  }

  /** Balanced attribute text runs up to the bracket behind it. */
  lemma AttrsEndThere(src: Bytes, end: nat, attrs: Bytes)
    requires OccursAt(src, attrs, end) && Balanced(attrs) && end + |attrs| < |src| && src[end + |attrs|] == '>'
    ensures TagEnd(src, end, None) == Some(end + |attrs|) && src[end..end + |attrs|] == attrs
  {
    TagEndPast(src, end, attrs, None);
    hide QuoteAfter;
  }

  lemma TagAtParts(src: Bytes, i: nat, closing: bool, end: nat, gt: nat)
    requires i + 1 < |src| && (src[i + 1] == '/' <==> closing)
    requires var start := if closing then i + 2 else i + 1;
             start <= end <= gt < |src| && IsTagStart(src[start]) && NameEnd(src, start) == end && TagEnd(src, end, None) == Some(gt)
    ensures var start := if closing then i + 2 else i + 1;
            TagAt(src, i) == Some(Tag(Lower(src[start..end]), src[end..gt], closing, gt + 1))
  {
    hide NameEnd, TagEnd, Lower;
  }

  lemma NotAnOpenedComment(src: Bytes, i: nat, name: Bytes, attrs: Bytes, closing: bool)
    requires WrittenTag(name, attrs) && OccursAt(src, TagText(name, attrs, closing), i)
    ensures i < |src| && src[i] == '<' && !OpensComment(src, i)
  {
    TagParts(src, i, name, attrs, closing);
    hide OccursAt, OpensComment;
    if closing {
      NotAComment(src, i);
    } else if OpensComment(src, i) {
      assert "<" + name + attrs + ">" == "<" + (name + attrs) + ">";
      MarkAgrees(src, i, name + attrs);
    }
  }

  /** Text behind a bracket that continues like a comment begins like one. */
  lemma MarkAgrees(src: Bytes, i: nat, body: Bytes)
    requires OccursAt(src, "<" + body + ">", i) && body != [] && i < |src| && OpensComment(src, i)
    ensures "!--" <= body
  {
    var t := "<" + body + ">";
    forall k | 0 <= k < 4 && k < |t| ensures t[k] == "<!--"[k] {
      assert src[i..i + |t|][k] == t[k] && src[i..i + 4][k] == "<!--"[k];
    }
    assert forall k :: 0 <= k < |body| ==> t[k + 1] == body[k];
    assert t[|body| + 1] == '>';
    assert |body| >= 3;
    assert body[0] == t[1] && body[1] == t[2] && body[2] == t[3];
  }

  lemma TagIsScanned(src: Bytes, i: nat, name: Bytes, attrs: Bytes, closing: bool, st: Scan, lib: Library)
    requires WrittenTag(name, attrs) && OccursAt(src, TagText(name, attrs, closing), i)
    ensures var next := i + |TagText(name, attrs, closing)|;
            && next <= |src|
            && ScanFrom(src, i, st, lib) == ScanFrom(src, next, OnTag(st, Tag(Lower(name), attrs, closing, next), lib), lib)
  {
    TagReads(src, i, name, attrs, closing);
    NotAnOpenedComment(src, i, name, attrs, closing);
    hide TagAt, OnTag, ScanFrom, OpensComment, CloseAnchor, TagText, WrittenTag;
    ScanStep(src, i, st, lib);
  }

  // ---- one tag in ASCII text ------------------------------------------------

  lemma PieceOccurs(a: Bytes, piece: Bytes, b: Bytes)
    ensures var src := a + piece + b;
            OccursAt(src, a, 0) && OccursAt(src, piece, |a|) && OccursAt(src, b, |a| + |piece|) && |src| == |a| + |piece| + |b|
  {
    var src := a + piece + b;
    assert src[..|a|] == a && src[|a|..|a| + |piece|] == piece && src[|a| + |piece|..] == b;
  }

  /** A piece of markup that leaves the scanner outside links and dropped elements, having
      emitted `shown`, is replaced by that text. */
  lemma PieceRenders(a: Bytes, piece: Bytes, b: Bytes, shown: Bytes, lib: Library)
    requires PlainText(a) && PlainText(b)
    requires var src := a + piece + b;
             ScanFrom(src, |a|, START.(out := a), lib) == ScanFrom(src, |a| + |piece|, START.(out := a + shown), lib)
    ensures ToText(a + piece + b, lib) == Normalize(lib.unescape(a + shown + b))
  {
    hide ScanFrom, PlainText, OccursAt, Normalize;
    PieceOccurs(a, piece, b);
    BetweenTexts(a + piece + b, a, piece, b, a + shown, lib);
  }

  lemma BetweenTexts(src: Bytes, a: Bytes, piece: Bytes, b: Bytes, out: Bytes, lib: Library)
    requires PlainText(a) && PlainText(b) && OccursAt(src, a, 0)
    requires OccursAt(src, b, |a| + |piece|) && |src| == |a| + |piece| + |b|
    requires ScanFrom(src, |a|, START.(out := a), lib) == ScanFrom(src, |a| + |piece|, START.(out := out), lib)
    ensures ToText(src, lib) == Normalize(lib.unescape(out + b))
  {
    hide ScanFrom, PlainText, OccursAt, Normalize;
    TextBefore(src, a, lib);
    TextBehind(src, out, b, |a| + |piece|, lib);
  }

  lemma TextBefore(src: Bytes, a: Bytes, lib: Library)
    requires PlainText(a) && OccursAt(src, a, 0)
    ensures |a| <= |src| && ScanFrom(src, 0, START, lib) == ScanFrom(src, |a|, START.(out := a), lib)
  {
    hide ScanFrom, PlainText, Emit;
    EmitPlain([], a);
    TextIsEmitted(src, 0, a, START, lib);
  }

  lemma TextBehind(src: Bytes, out: Bytes, b: Bytes, at: nat, lib: Library)
    requires PlainText(b) && OccursAt(src, b, at) && |src| == at + |b|
    ensures ScanFrom(src, at, START.(out := out), lib) == out + b
  {
    hide ScanFrom, PlainText, Emit, OccursAt;
    EmitPlain(out, b);
    TextIsEmitted(src, at, b, START.(out := out), lib);
    ScanEnds(src, out + b, lib);
  }

  lemma TagRenders(a: Bytes, name: Bytes, attrs: Bytes, closing: bool, b: Bytes, shown: Bytes, lib: Library)
    requires PlainText(a) && PlainText(b) && WrittenTag(name, attrs)
    requires forall next: nat, out: Bytes ::
               OnTag(START.(out := out), Tag(Lower(name), attrs, closing, next), lib) == START.(out := out + shown)
    ensures ToText(a + TagText(name, attrs, closing) + b, lib) == Normalize(lib.unescape(a + shown + b))
  {
    hide ScanFrom, PlainText, OccursAt, OnTag, WrittenTag, TagText, ToText, Lower;
    PieceOccurs(a, TagText(name, attrs, closing), b);
    TagIsScanned(a + TagText(name, attrs, closing) + b, |a|, name, attrs, closing, START.(out := a), lib);
    PieceRenders(a, TagText(name, attrs, closing), b, shown, lib);
  }

  /** A line break, `<br>`, `<br/>` or `</br>`, breaks the line. */
  lemma LineBreakRenders(a: Bytes, name: Bytes, attrs: Bytes, closing: bool, b: Bytes, lib: Library)
    requires PlainText(a) && PlainText(b) && WrittenTag(name, attrs) && Lower(name) == "br"
    ensures ToText(a + TagText(name, attrs, closing) + b, lib) == Normalize(lib.unescape(a + "\n" + b))
  {
    hide PlainText, WrittenTag, ToText, TagText, Attr, CloseAnchor;
    TagRenders(a, name, attrs, closing, b, "\n", lib);
  }

  /** A block-level tag, opening or closing, breaks the line. */
  lemma BlockTagRenders(a: Bytes, name: Bytes, attrs: Bytes, closing: bool, b: Bytes, lib: Library)
    requires PlainText(a) && PlainText(b) && WrittenTag(name, attrs)
    requires Lower(name) in {
               "p", "div", "section", "article", "header", "footer", "main", "aside", "h1", "h2", "h3", "h4", "h5", "h6",
               "ul", "ol", "table", "tr", "blockquote", "pre", "hr", "figure", "figcaption", "form", "fieldset", "address"}
    ensures ToText(a + TagText(name, attrs, closing) + b, lib) == Normalize(lib.unescape(a + "\n" + b))
  {
    hide PlainText, WrittenTag, ToText, TagText, Attr, CloseAnchor;
    TagRenders(a, name, attrs, closing, b, "\n", lib);
  }

  /** A list item begins on a new line with a dash; its end adds nothing. */
  lemma ListItemRenders(a: Bytes, name: Bytes, attrs: Bytes, closing: bool, b: Bytes, lib: Library)
    requires PlainText(a) && PlainText(b) && WrittenTag(name, attrs) && Lower(name) == "li"
    ensures ToText(a + TagText(name, attrs, closing) + b, lib)
            == Normalize(lib.unescape(if closing then a + b else a + "\n- " + b))
  {
    hide PlainText, WrittenTag, ToText, TagText, Attr, CloseAnchor;
    assert a + [] == a;
    if closing {
      TagRenders(a, name, attrs, closing, b, [], lib);
    } else {
      TagRenders(a, name, attrs, closing, b, "\n- ", lib);
    }
  }

  /** Any other tag, a stray end of a link or of a dropped element included, adds nothing. */
  lemma OtherTagRenders(a: Bytes, name: Bytes, attrs: Bytes, closing: bool, b: Bytes, lib: Library)
    requires PlainText(a) && PlainText(b) && WrittenTag(name, attrs)
    requires Lower(name) !in {
               "p", "div", "section", "article", "header", "footer", "main", "aside", "h1", "h2", "h3", "h4", "h5", "h6",
               "ul", "ol", "table", "tr", "blockquote", "pre", "hr", "figure", "figcaption", "form", "fieldset", "address",
               "br", "li"}
    requires Lower(name) in {"a", "style", "script"} ==> closing
    ensures ToText(a + TagText(name, attrs, closing) + b, lib) == Normalize(lib.unescape(a + b))
  {
    hide PlainText, WrittenTag, ToText, TagText, Attr, CloseAnchor;
    assert a + [] == a;
    forall next: nat, out: Bytes
      ensures OnTag(START.(out := out), Tag(Lower(name), attrs, closing, next), lib) == START.(out := out + [])
    {
      assert out + [] == out;
    }
    TagRenders(a, name, attrs, closing, b, [], lib);
  }

  // ---- comments, dropped elements, brackets that are text -------------------

  /** A comment adds nothing, up to the first end mark or the end of the page. */
  lemma CommentRenders(a: Bytes, c: Bytes, closed: bool, b: Bytes, lib: Library)
    requires PlainText(a) && PlainText(b)
    requires if closed then IndexFrom(c + "-->", "-->", 0) == Some(|c|) else b == [] && IndexFrom(c, "-->", 0).None?
    ensures ToText(a + CommentText(c, closed) + b, lib) == Normalize(lib.unescape(a + b))
  {
    hide ScanFrom, PlainText, OccursAt, IndexFrom, CommentText, ToText;
    assert a + [] == a;
    CommentIsSkipped(a, c, closed, b, START.(out := a), lib);
    PieceRenders(a, CommentText(c, closed), b, [], lib);
  }

  function CommentText(c: Bytes, closed: bool): Bytes {
    "<!--" + c + (if closed then "-->" else [])
  }

  lemma CommentIsSkipped(a: Bytes, c: Bytes, closed: bool, b: Bytes, st: Scan, lib: Library)
    requires if closed then IndexFrom(c + "-->", "-->", 0) == Some(|c|) else b == [] && IndexFrom(c, "-->", 0).None?
    ensures var src := a + CommentText(c, closed) + b;
            ScanFrom(src, |a|, st, lib) == ScanFrom(src, |a| + |CommentText(c, closed)|, st, lib)
  {
    hide ScanFrom, IndexFrom, OccursAt;
    CommentEnds(a + "<!--", c, closed, b);
    CommentStands(a, c, closed, b);
    SkipComment(a + CommentText(c, closed) + b, |a|, |a| + |CommentText(c, closed)|, st, lib);
  }

  lemma CommentStands(a: Bytes, c: Bytes, closed: bool, b: Bytes)
    ensures var src := a + CommentText(c, closed) + b;
            && src == (a + "<!--") + (c + (if closed then "-->" else []) + b)
            && |a| + 4 <= |src| && src[|a|..|a| + 4] == "<!--"
            && |CommentText(c, closed)| == 4 + |c| + if closed then 3 else 0
  {
    var src := a + CommentText(c, closed) + b;
    assert src[|a|..|a| + 4] == CommentText(c, closed)[..4] == "<!--";
  }

  lemma SkipComment(src: Bytes, i: nat, end: nat, st: Scan, lib: Library)
    requires i + 4 <= end <= |src| && src[i..i + 4] == "<!--"
    requires match IndexFrom(src, "-->", i + 4) case Some(at) => end == at + 3 case None => end == |src|
    ensures ScanFrom(src, i, st, lib) == ScanFrom(src, end, st, lib)
  {
    hide IndexFrom, OccursAt;
    assert src[i] == src[i..i + 4][0] == '<';
    ScanStep(src, i, st, lib);
    hide ScanFrom;
  }

  lemma CommentEnds(head: Bytes, c: Bytes, closed: bool, b: Bytes)
    requires if closed then IndexFrom(c + "-->", "-->", 0) == Some(|c|) else b == [] && IndexFrom(c, "-->", 0).None?
    ensures var src := head + (c + (if closed then "-->" else []) + b);
            if closed then IndexFrom(src, "-->", |head|).Some? && IndexFrom(src, "-->", |head|).value == |head| + |c|
            else IndexFrom(src, "-->", |head|).None?
  {
    hide IndexFrom, OccursAt;
    if closed {
      assert |c + "-->"| == |c| + 3;
      ClosedEnds(head, c + "-->", "-->", b, |c|);
    } else {
      assert c + [] + b == c;
      NothingBehind(head, c, "-->");
    }
  }

  lemma ClosedEnds(head: Bytes, s: Bytes, mark: Bytes, b: Bytes, at: nat)
    requires mark != [] && IndexFrom(s, mark, 0) == Some(at) && at + |mark| == |s|
    ensures IndexFrom(head + (s + b), mark, |head|).Some? && IndexFrom(head + (s + b), mark, |head|).value == |head| + at
  {
    hide IndexFrom, OccursAt;
    FirstStaysFirst(s, b, mark, at);
    FoundBehind(head, s + b, mark, at);
  }

  lemma FoundBehind(head: Bytes, tail: Bytes, sub: Bytes, at: nat)
    requires sub != [] && IndexFrom(tail, sub, 0) == Some(at)
    ensures IndexFrom(head + tail, sub, |head|).Some? && IndexFrom(head + tail, sub, |head|).value == |head| + at
  {
    hide OccursAt, IndexFrom;
    OccursInSuffix(head, tail, sub, at);
    FoundFits(tail, sub, 0);
    var found := IndexFrom(head + tail, sub, |head|);
    if found.Some? && found.value < |head| + at { NotBefore(head, tail, sub, at, found.value); }
  }

  lemma NotBefore(head: Bytes, tail: Bytes, sub: Bytes, at: nat, j: nat)
    requires IndexFrom(tail, sub, 0) == Some(at) && |head| <= j < |head| + at
    ensures !OccursAt(head + tail, sub, j)
  {
    hide OccursAt, IndexFrom;
    var k := j - |head|;
    OccursInSuffix(head, tail, sub, k);
  }

  /** The content of a style or script element is dropped up to its closing tag, or to the
      end of the page if there is none. */
  lemma DroppedElementRenders(a: Bytes, name: Bytes, attrs: Bytes, c: Bytes, end: Bytes, endAttrs: Bytes, closed: bool, b: Bytes, lib: Library)
    requires PlainText(a) && PlainText(b) && '<' !in c
    requires WrittenTag(name, attrs) && WrittenTag(end, endAttrs)
    requires Lower(name) == Lower(end) && (Lower(name) == "style" || Lower(name) == "script")
    requires !closed ==> b == []
    ensures ToText(a + (TagText(name, attrs, false) + c + (if closed then TagText(end, endAttrs, true) else [])) + b, lib)
            == Normalize(lib.unescape(a + b))
  {
    hide WrittenTag, TagText, PlainText, OccursAt, ScanFrom, ToText, Lower;
    var open, close := TagText(name, attrs, false), if closed then TagText(end, endAttrs, true) else [];
    InnerPieces(a, open, c, close, b);
    PieceOccurs(a, open + c + close, b);
    assert a + [] == a;
    ElementIsSkipped(a + (open + c + close) + b, |a|, name, attrs, c, end, endAttrs, closed, |a| + |open + c + close|, a, lib);
    PieceRenders(a, open + c + close, b, [], lib);
  }

  lemma ElementIsSkipped(src: Bytes, i: nat, name: Bytes, attrs: Bytes, c: Bytes, end: Bytes, endAttrs: Bytes, closed: bool, behind: nat, out: Bytes, lib: Library)
    requires '<' !in c && WrittenTag(name, attrs) && WrittenTag(end, endAttrs)
    requires Lower(name) == Lower(end) && (Lower(name) == "style" || Lower(name) == "script")
    requires var open := TagText(name, attrs, false);
             && OccursAt(src, open, i) && OccursAt(src, c, i + |open|)
             && (closed ==> OccursAt(src, TagText(end, endAttrs, true), i + |open| + |c|))
             && behind == i + |open| + |c| + (if closed then |TagText(end, endAttrs, true)| else 0)
             && (if closed then behind <= |src| else behind == |src|)
    ensures ScanFrom(src, i, START.(out := out), lib) == ScanFrom(src, behind, START.(out := out), lib)
  {
    hide WrittenTag, TagText, OccursAt, ScanFrom, ToText, Attr, CloseAnchor, Lower;
    var st := START.(out := out);
    var inside, skipping := i + |TagText(name, attrs, false)|, st.(skip := Lower(name));
    TagIsScanned(src, i, name, attrs, false, st, lib);
    assert forall next: nat :: OnTag(st, Tag(Lower(name), attrs, false, next), lib) == skipping;
    hide OnTag;
    ContentIsSkipped(src, inside, c, skipping, lib);
    if closed {
      TagIsScanned(src, inside + |c|, end, endAttrs, true, skipping, lib);
      OnTagSkipping(skipping, Tag(Lower(end), endAttrs, true, behind), lib);
    } else {
      SkippingEnds(src, skipping, lib);
      SkippingEnds(src, st, lib);
    }
  }

  lemma InnerPieces(a: Bytes, open: Bytes, c: Bytes, close: Bytes, b: Bytes)
    ensures var src := a + (open + c + close) + b;
            OccursAt(src, open, |a|) && OccursAt(src, c, |a| + |open|) && OccursAt(src, close, |a| + |open| + |c|)
  {
    var src := a + (open + c + close) + b;
    assert src[|a|..|a| + |open|] == open;
    assert src[|a| + |open|..|a| + |open| + |c|] == c;
    assert src[|a| + |open| + |c|..|a| + |open| + |c| + |close|] == close;
  }

  lemma SkippingEnds(src: Bytes, st: Scan, lib: Library)
    requires !st.inAnchor
    ensures ScanFrom(src, |src|, st, lib) == st.out
  {
  }

  lemma {:induction false} ContentIsSkipped(src: Bytes, i: nat, c: Bytes, st: Scan, lib: Library)
    requires OccursAt(src, c, i) && '<' !in c && st.skip != []
    ensures ScanFrom(src, i, st, lib) == ScanFrom(src, i + |c|, st, lib)
    decreases |c|
  {
    if c != [] {
      OccursNext(src, c, i);
      SkipOne(src, i, st, lib);
      ContentIsSkipped(src, i + 1, c[1..], st, lib);
    }
  }

  lemma SkipOne(src: Bytes, i: nat, st: Scan, lib: Library)
    requires i < |src| && src[i] != '<' && st.skip != []
    ensures ScanFrom(src, i, st, lib) == ScanFrom(src, i + 1, st, lib)
  {
    ScanStep(src, i, st, lib);
    hide ScanFrom;
  }

  /** A bracket that opens no tag is text: what follows is not a letter, a slash or an
      exclamation mark, or there is no closing bracket at all and no comment. */
  lemma LoneBracketIsText(a: Bytes, b: Bytes, lib: Library)
    requires PlainText(a) && PlainText(b)
    requires || b == []
             || !('a' <= b[0] <= 'z' || 'A' <= b[0] <= 'Z' || b[0] == '/' || b[0] == '!')
             || ('>' !in b && !("!--" <= b))
    ensures ToText(a + "<" + b, lib) == Normalize(lib.unescape(a + "<" + b))
  {
    var src, i := a + "<" + b, |a|;
    PieceOccurs(a, "<", b);
    assert src[i] == '<' && (b != [] ==> src[i + 1] == b[0]);
    BracketOpensNothing(src, i, b);
    hide PlainText, OccursAt, ToText, TagAt, OpensComment;
    ScanStep(src, i, START.(out := a), lib);
    hide ScanFrom;
    PieceRenders(a, "<", b, "<", lib);
  }

  lemma MarkBehind(src: Bytes, i: nat, b: Bytes)
    requires i + 1 + |b| == |src| && OccursAt(src, b, i + 1) && OpensComment(src, i)
    ensures "!--" <= b
  {
    forall k | 0 <= k < 3 ensures b[k] == "!--"[k] {
      assert src[i + 1..i + 1 + |b|][k] == b[k] && src[i..i + 4][k + 1] == "<!--"[k + 1];
    }
  }

  lemma BracketOpensNothing(src: Bytes, i: nat, b: Bytes)
    requires i + 1 + |b| == |src| && OccursAt(src, b, i + 1)
    requires || b == []
             || !('a' <= b[0] <= 'z' || 'A' <= b[0] <= 'Z' || b[0] == '/' || b[0] == '!')
             || ('>' !in b && !("!--" <= b))
    ensures TagAt(src, i).None? && !OpensComment(src, i)
  {
    forall k | 0 <= k < |b| ensures src[i + 1 + k] == b[k] {
      assert src[i + 1..i + 1 + |b|][k] == b[k];
    }
    if OpensComment(src, i) { MarkBehind(src, i, b); }
    if '>' !in b {
      forall k | i < k < |src| ensures src[k] != '>' {
        assert src[k] == b[k - i - 1] && b[k - i - 1] in b;
      }
    }
  }

  // ---- links ----------------------------------------------------------------

  /** A target that is neither a web nor a mail address is not shown. */
  lemma OtherTargetIsHidden(lead: Bytes, a: Anchor, text: Bytes, trail: Bytes, lib: Library)
    requires HtmlLinks.Written(a) && IsTheHref(a, lib) && KeepsLength(a, lib)
    requires !("http://" <= a.target) && !("https://" <= a.target) && !("mailto:" <= a.target)
    requires PlainText(lead) && PlainText(text) && PlainText(trail)
    ensures ToText(Page(lead, a, text, trail), lib) == Normalize(lib.unescape(lead + text + trail))
  {
    HrefReadsBack(a, lib);
    LinkScans(lead, a, text, trail, lib);
    assert Shown(a, lib) == [] && Suffix(text, [], lib) == [] && lead + text + [] == lead + text;
    hide Page, HtmlLinks.Written, IsTheHref, KeepsLength, PlainText, Suffix, Normalize, ScanFrom, Attr, Attrs;
  }

  /** A link whose target the scanner goes by. */
  ghost predicate WebLink(a: Anchor, lib: Library) {
    && HtmlLinks.Written(a) && IsTheHref(a, lib) && KeepsLength(a, lib)
    && ("http://" <= a.target || "https://" <= a.target || "mailto:" <= a.target)
  }

  /** A link's text and, unless it is the target already, the target in parentheses. */
  function LinkText(text: Bytes, target: Bytes, lib: Library): Bytes {
    text + (if lib.trimSpace(lib.unescape(text)) == lib.unescape(target) then [] else " (" + target + ")")
  }

  lemma WebLinkIsShown(a: Anchor, text: Bytes, lib: Library)
    requires WebLink(a, lib)
    ensures Shown(a, lib) == a.target && text + Suffix(text, a.target, lib) == LinkText(text, a.target, lib)
  {
    HrefReadsBack(a, lib);
    hide HtmlLinks.Written, IsTheHref, KeepsLength, Attr, Attrs;
  }

  /** A link that is never closed ends with the page. */
  lemma UnclosedLinkRenders(lead: Bytes, a: Anchor, text: Bytes, lib: Library)
    requires WebLink(a, lib) && PlainText(lead) && PlainText(text)
    ensures ToText(lead + OpenTag(a) + text, lib) == Normalize(lib.unescape(lead + LinkText(text, a.target, lib)))
  {
    hide ScanFrom, PlainText, OccursAt, HtmlLinks.Written, OpenTag, Normalize, IsTheHref, KeepsLength, Suffix, LinkText, Shown;
    PieceOccurs(lead, OpenTag(a), text);
    WebLinkIsShown(a, text, lib);
    OpenLink(lead + OpenTag(a) + text, lead, a, text, lib);
    Regroup(lead, text, Suffix(text, a.target, lib));
  }

  lemma Regroup(a: Bytes, b: Bytes, c: Bytes)
    ensures a + b + c == a + (b + c)
  {
  }

  lemma OpenLink(src: Bytes, lead: Bytes, a: Anchor, text: Bytes, lib: Library)
    requires HtmlLinks.Written(a) && PlainText(lead) && PlainText(text)
    requires OccursAt(src, lead, 0) && OccursAt(src, OpenTag(a), |lead|) && OccursAt(src, text, |lead| + |OpenTag(a)|)
    requires |src| == |lead| + |OpenTag(a)| + |text|
    ensures ScanFrom(src, 0, START, lib) == lead + text + Suffix(text, Shown(a, lib), lib)
  {
    hide PlainText, OccursAt, HtmlLinks.Written, OpenTag, Shown, ScanFrom;
    UpToClosing(src, lead, a, text, |lead| + |OpenTag(a)|, lib);
    ScanEnd(src, lib);
  }

  /** A link inside which another opens ends there. */
  lemma AdjoiningLinksRender(lead: Bytes, a: Anchor, text: Bytes, second: Anchor, rest: Bytes, trail: Bytes, lib: Library)
    requires WebLink(a, lib) && WebLink(second, lib)
    requires PlainText(lead) && PlainText(text) && PlainText(rest) && PlainText(trail)
    ensures ToText(lead + OpenTag(a) + text + (OpenTag(second) + rest + "</a>" + trail), lib)
            == Normalize(lib.unescape(lead + LinkText(text, a.target, lib) + LinkText(rest, second.target, lib) + trail))
  {
    hide ScanFrom, PlainText, OccursAt, HtmlLinks.Written, OpenTag, Normalize, IsTheHref, KeepsLength, Suffix, LinkText, Shown;
    var open, next := OpenTag(a), OpenTag(second);
    var src := lead + open + text + (next + rest + "</a>" + trail);
    assert src == lead + open + (text + (next + rest + "</a>" + trail));
    Stand(lead, open, text, next, rest, "</a>", trail);
    WebLinkIsShown(a, text, lib);
    WebLinkIsShown(second, rest, lib);
    Regroup(lead, text, Suffix(text, a.target, lib));
    var out := lead + LinkText(text, a.target, lib);
    Regroup(out, rest, Suffix(rest, second.target, lib));
    SecondLink(src, lead, a, text, second, rest, trail, lib);
  }

  lemma Stand(a: Bytes, b: Bytes, c: Bytes, d: Bytes, e: Bytes, f: Bytes, g: Bytes)
    ensures var src := a + b + c + (d + e + f + g);
            && OccursAt(src, a, 0) && OccursAt(src, b, |a|) && OccursAt(src, c, |a| + |b|)
            && OccursAt(src, d, |a| + |b| + |c|) && OccursAt(src, e, |a| + |b| + |c| + |d|)
            && OccursAt(src, f, |a| + |b| + |c| + |d| + |e|) && OccursAt(src, g, |a| + |b| + |c| + |d| + |e| + |f|)
            && |src| == |a| + |b| + |c| + |d| + |e| + |f| + |g|
  {
    hide OccursAt;
    var head, tail := a + b + c, d + e + f + g;
    PieceOccurs(a, b, c);
    PieceOccurs(d + e, f, g);
    PieceOccurs(d, e, f + g);
    assert d + e + (f + g) == tail && d + (e + f + g) == tail;
    StandsInFront(head, tail, a, 0);
    StandsInFront(head, tail, b, |a|);
    StandsInFront(head, tail, c, |a| + |b|);
    OccursInSuffix(head, tail, d, 0);
    OccursInSuffix(head, tail, e, |d|);
    OccursInSuffix(head, tail, f, |d| + |e|);
    OccursInSuffix(head, tail, g, |d| + |e| + |f|);
  }

  lemma StandsInFront(s: Bytes, more: Bytes, sub: Bytes, i: nat)
    requires OccursAt(s, sub, i)
    ensures OccursAt(s + more, sub, i)
  {
    OccursInPrefix(s, more, sub, i);
  }

  lemma SecondLink(src: Bytes, lead: Bytes, a: Anchor, text: Bytes, second: Anchor, rest: Bytes, trail: Bytes, lib: Library)
    requires HtmlLinks.Written(a) && HtmlLinks.Written(second)
    requires PlainText(lead) && PlainText(text) && PlainText(rest) && PlainText(trail)
    requires var o, n := |lead| + |OpenTag(a)|, |OpenTag(second)|;
             && OccursAt(src, lead, 0) && OccursAt(src, OpenTag(a), |lead|) && OccursAt(src, text, o)
             && OccursAt(src, OpenTag(second), o + |text|) && OccursAt(src, rest, o + |text| + n)
             && OccursAt(src, "</a>", o + |text| + n + |rest|) && OccursAt(src, trail, o + |text| + n + |rest| + 4)
             && |src| == o + |text| + n + |rest| + 4 + |trail|
    ensures ScanFrom(src, 0, START, lib)
            == lead + text + Suffix(text, Shown(a, lib), lib) + rest + Suffix(rest, Shown(second, lib), lib) + trail
  {
    hide ScanFrom, PlainText, OccursAt, HtmlLinks.Written, OpenTag, Suffix, Shown, Emit;
    var at := |lead| + |OpenTag(a)| + |text|;
    var inside := at + |OpenTag(second)|;
    var out, target := lead + text + Suffix(text, Shown(a, lib), lib), Shown(second, lib);
    UpToClosing(src, lead, a, text, |lead| + |OpenTag(a)|, lib);
    OpeningFlushes(src, at, second, lead, text, Shown(a, lib), lib);
    EmitInAnchor(out, target, rest);
    TextIsEmitted(src, inside, rest, Scan(out, [], true, target, []), lib);
    FromClosing(src, out, rest, target, trail, inside + |rest|, lib);
  }

  lemma OpeningFlushes(src: Bytes, i: nat, a: Anchor, out: Bytes, text: Bytes, target: Bytes, lib: Library)
    requires HtmlLinks.Written(a) && OccursAt(src, OpenTag(a), i)
    ensures i + |OpenTag(a)| <= |src|
    ensures ScanFrom(src, i, Scan(out, text, true, target, []), lib)
            == ScanFrom(src, i + |OpenTag(a)|, Scan(out + text + Suffix(text, target, lib), [], true, Shown(a, lib), []), lib)
  {
    hide HtmlLinks.Written, Attrs, TagAt, Attr, ScanFrom, OpensComment, OnTag, Shown;
    assert src[i] == src[i..i + |OpenTag(a)|][0] == '<';
    assert src[i + 1] == src[i..i + |OpenTag(a)|][1] == 'a';
    NotAComment(src, i);
    LinkReadsBack(src, i, a);
    FlushOpens(a, out, text, target, i + |OpenTag(a)|, lib);
    ScanStep(src, i, Scan(out, text, true, target, []), lib);
  }

  lemma FlushOpens(a: Anchor, out: Bytes, text: Bytes, target: Bytes, next: nat, lib: Library)
    ensures OnTag(Scan(out, text, true, target, []), Tag("a", Attrs(a), false, next), lib)
            == Scan(out + text + Suffix(text, target, lib), [], true, Shown(a, lib), [])
  {
    hide Attrs, Attr, Linkable;
  }

  /** What a tag that is no link and no dropped element puts into the text. */
  function Between(name: Bytes, closing: bool): Bytes {
    if name in {
         "br", "p", "div", "section", "article", "header", "footer", "main", "aside", "h1", "h2", "h3", "h4", "h5", "h6",
         "ul", "ol", "table", "tr", "blockquote", "pre", "hr", "figure", "figcaption", "form", "fieldset", "address"}
    then "\n"
    else if name == "li" && !closing then "\n- "
    else []
  }

  /** Inside a link a tag belongs to the link's text. */
  lemma TagInLinkRenders(lead: Bytes, a: Anchor, text: Bytes, name: Bytes, attrs: Bytes, closing: bool, rest: Bytes, trail: Bytes, lib: Library)
    requires WebLink(a, lib) && WrittenTag(name, attrs) && Lower(name) !in {"a", "style", "script"}
    requires PlainText(lead) && PlainText(text) && PlainText(rest) && PlainText(trail)
    ensures ToText(lead + OpenTag(a) + text + (TagText(name, attrs, closing) + rest + "</a>" + trail), lib)
            == Normalize(lib.unescape(lead + LinkText(text + Between(Lower(name), closing) + rest, a.target, lib) + trail))
  {
    hide ScanFrom, PlainText, OccursAt, HtmlLinks.Written, OpenTag, Normalize, IsTheHref, KeepsLength, Suffix, LinkText, Shown;
    hide WrittenTag, TagText, Between, Lower;
    var open, tag, whole := OpenTag(a), TagText(name, attrs, closing), text + Between(Lower(name), closing) + rest;
    Stand(lead, open, text, tag, rest, "</a>", trail);
    WebLinkIsShown(a, whole, lib);
    Regroup(lead, whole, Suffix(whole, a.target, lib));
    InnerTag(lead + open + text + (tag + rest + "</a>" + trail), lead, a, text, name, attrs, closing, rest, trail, lib);
  }

  lemma InnerTag(src: Bytes, lead: Bytes, a: Anchor, text: Bytes, name: Bytes, attrs: Bytes, closing: bool, rest: Bytes, trail: Bytes, lib: Library)
    requires HtmlLinks.Written(a) && WrittenTag(name, attrs) && Lower(name) !in {"a", "style", "script"}
    requires PlainText(lead) && PlainText(text) && PlainText(rest) && PlainText(trail)
    requires var o, n := |lead| + |OpenTag(a)|, |TagText(name, attrs, closing)|;
             && OccursAt(src, lead, 0) && OccursAt(src, OpenTag(a), |lead|) && OccursAt(src, text, o)
             && OccursAt(src, TagText(name, attrs, closing), o + |text|) && OccursAt(src, rest, o + |text| + n)
             && OccursAt(src, "</a>", o + |text| + n + |rest|) && OccursAt(src, trail, o + |text| + n + |rest| + 4)
             && |src| == o + |text| + n + |rest| + 4 + |trail|
    ensures var whole := text + Between(Lower(name), closing) + rest;
            ScanFrom(src, 0, START, lib) == lead + whole + Suffix(whole, Shown(a, lib), lib) + trail
  {
    hide ScanFrom, PlainText, OccursAt, HtmlLinks.Written, OpenTag, Suffix, Shown, WrittenTag, TagText, Between, Lower, OnTag;
    var at, target := |lead| + |OpenTag(a)| + |text|, Shown(a, lib);
    var inside, read := at + |TagText(name, attrs, closing)|, text + Between(Lower(name), closing);
    UpToClosing(src, lead, a, text, |lead| + |OpenTag(a)|, lib);
    TagIsScanned(src, at, name, attrs, closing, Scan(lead, text, true, target, []), lib);
    TagJoinsText(lead, text, target, Tag(Lower(name), attrs, closing, inside), lib);
    TextIsEmitted(src, inside, rest, Scan(lead, read, true, target, []), lib);
    FromClosing(src, lead, read + rest, target, trail, inside + |rest|, lib);
  }

  lemma TagJoinsText(out: Bytes, text: Bytes, target: Bytes, tag: Tag, lib: Library)
    requires tag.name !in {"a", "style", "script"}
    ensures OnTag(Scan(out, text, true, target, []), tag, lib) == Scan(out, text + Between(tag.name, tag.closing), true, target, [])
  {
    hide Attr, CloseAnchor;
    assert text + [] == text;
  }
}

/**
 What normalization makes of any text, word by word: words are kept, and what stands
 between two of them depends only on how many line breaks do.
 */
module HtmlWhitespace {
  import opened Basics
  import opened HtmlText

  predicate AllBlank(g: Bytes) {
    forall i :: 0 <= i < |g| ==> g[i] == ' ' || '\t' <= g[i] <= '\r'
  }

  predicate NoBlank(u: Bytes) {
    forall i :: 0 <= i < |u| ==> !(u[i] == ' ' || '\t' <= u[i] <= '\r')
  }

  /** The line breaks in a text; CR LF is one. */
  function Breaks(g: Bytes): nat {
    if g == [] then 0
    else (if g[0] == '\n' || (g[0] == '\r' && (|g| == 1 || g[1] != '\n')) then 1 else 0) + Breaks(g[1..])
  }

  function Between(breaks: nat): Bytes {
    if breaks == 0 then " " else if breaks == 1 then "\n" else "\n\n"
  }

  // ---- line endings ---------------------------------------------------------

  lemma {:induction false} UnixKeepsWord(u: Bytes, rest: Bytes)
    requires NoBlank(u)
    ensures UnixLines(u + rest) == u + UnixLines(rest)
  {
    if u == [] {
      assert u + rest == rest;
    } else {
      UnixKeepsWord(u[1..], rest);
      assert (u + rest)[0] == u[0] && (u + rest)[1..] == u[1..] + rest;
      assert [u[0]] + (u[1..] + UnixLines(rest)) == u + UnixLines(rest);
    }
  }

  function Newlines(h: Bytes): nat {
    if h == [] then 0 else (if h[0] == '\n' then 1 else 0) + Newlines(h[1..])
  }

  lemma NewlinesPrepend(c: Byte, h: Bytes)
    ensures Newlines([c] + h) == (if c == '\n' then 1 else 0) + Newlines(h)
  {
    assert ([c] + h)[1..] == h;
  }

  /** Blanks become blanks, with a newline for each line break. */
  lemma {:induction false} UnixKeepsBreaks(g: Bytes, rest: Bytes)
    requires AllBlank(g) && (rest == [] || rest[0] != '\n')
    ensures UnixLines(g + rest) == UnixLines(g) + UnixLines(rest)
    ensures AllBlank(UnixLines(g)) && Newlines(UnixLines(g)) == Breaks(g)
    decreases |g|
  {
    hide UnixLines, Newlines, Breaks;
    if g == [] {
      assert g + rest == rest;
      NoBreaks();
    } else {
      var (c, w) := UnixHead(g);
      UnixKeepsBreaks(g[w..], rest);
      UnixStep(g);
      HeadStays(g, rest);
      UnixStep(g + rest);
      NewlinesPrepend(c, UnixLines(g[w..]));
      assert [c] + (UnixLines(g[w..]) + UnixLines(rest)) == [c] + UnixLines(g[w..]) + UnixLines(rest);
    }
  }

  lemma NoBreaks()
    ensures UnixLines([]) == [] && Newlines([]) == 0 && Breaks([]) == 0
  {
  }

  /** The first byte after the line endings are changed, and how many it stands for. */
  function UnixHead(s: Bytes): (r: (Byte, nat))
    requires s != []
    ensures 1 <= r.1 <= |s|
  {
    if s[0] == '\r' then ('\n', if |s| > 1 && s[1] == '\n' then 2 else 1) else (s[0], 1)
  }

  lemma UnixStep(s: Bytes)
    requires s != []
    ensures var (c, w) := UnixHead(s);
            && UnixLines(s) == [c] + UnixLines(s[w..])
            && Breaks(s) == (if c == '\n' then 1 else 0) + Breaks(s[w..])
  {
    if UnixHead(s).1 == 2 { assert s[1..][1..] == s[2..] && s[1..][0] == s[1]; }
  }

  lemma HeadStays(g: Bytes, rest: Bytes)
    requires g != [] && (rest == [] || rest[0] != '\n')
    ensures UnixHead(g + rest) == UnixHead(g) && (g + rest)[UnixHead(g).1..] == g[UnixHead(g).1..] + rest
  {
    assert |g + rest| > 1 ==> (g + rest)[1] == if |g| > 1 then g[1] else rest[0];
  }

  // ---- lines and words ------------------------------------------------------

  lemma {:induction false} SplitKeepsWord(u: Bytes, t: Bytes)
    requires NoBlank(u)
    ensures var lines := SplitLines(t); SplitLines(u + t) == [u + lines[0]] + lines[1..]
  {
    hide SplitLines;
    if u == [] {
      NothingInFront(t);
    } else {
      SplitKeepsWord(u[1..], t);
      ByteInFront(u, t);
    }
  }

  lemma NothingInFront(t: Bytes)
    ensures [] + t == t && [[] + SplitLines(t)[0]] + SplitLines(t)[1..] == SplitLines(t)
  {
    hide SplitLines;
    assert [] + SplitLines(t)[0] == SplitLines(t)[0];
  }

  /** A byte that is no newline joins the first line. */
  lemma ByteInFront(u: Bytes, t: Bytes)
    requires u != [] && u[0] != '\n'
    requires var lines := SplitLines(t); SplitLines(u[1..] + t) == [u[1..] + lines[0]] + lines[1..]
    ensures var lines := SplitLines(t); SplitLines(u + t) == [u + lines[0]] + lines[1..]
  {
    hide SplitLines;
    SplitFirst(u + t);
    assert (u + t)[1..] == u[1..] + t;
    var first, below := u[1..] + SplitLines(t)[0], SplitLines(t)[1..];
    assert ([first] + below)[1..] == below;
    assert [u[0]] + first == u + SplitLines(t)[0];
  }

  lemma FieldsPassBlank(c: Byte, line: Bytes)
    requires IsBlank(c)
    ensures Fields([c] + line) == Fields(line)
  {
    assert ([c] + line)[1..] == line;
    assert [] + FieldsFrom(line, []) == FieldsFrom(line, []);
  }

  /** A word in front of a line that begins with a blank, or has none but this word. */
  lemma FieldsTakeFirst(u: Bytes, line: Bytes)
    requires u != [] && NoBlank(u) && (line == [] || IsBlank(line[0]))
    ensures Fields(u + line) == [u] + Fields(line)
  {
    FieldsTakeWord(u, line, []);
    assert [] + u == u;
    if line == [] {
      assert Fields(line) == [];
    } else {
      assert Fields(line) == [] + FieldsFrom(line[1..], []) == FieldsFrom(line[1..], []);
    }
  }

  lemma FieldsBegin(line: Bytes)
    requires line != [] && !IsBlank(line[0])
    ensures Fields(line) != []
  {
    FieldsNeverEmpty(line[1..], [line[0]]);
    assert [] + [line[0]] == [line[0]];
  }

  lemma {:induction false} FieldsNeverEmpty(s: Bytes, word: Bytes)
    requires word != []
    ensures FieldsFrom(s, word) != []
  {
    if s != [] && !IsBlank(s[0]) { FieldsNeverEmpty(s[1..], word + [s[0]]); }
  }

  /** Blanks in front of a text are no words, and their newlines only open a gap. */
  lemma {:induction false} LayoutPassesBlanks(h: Bytes, t: Bytes, gap: bool)
    requires AllBlank(h)
    ensures Layout(SplitLines(h + t), gap) == Layout(SplitLines(t), gap || Newlines(h) > 0)
    decreases |h|
  {
    if h == [] {
      assert h + t == t;
    } else {
      hide Fields, Layout, SplitLines;
      var more := h[1..] + t;
      assert (h + t)[0] == h[0] && (h + t)[1..] == more;
      SplitFirst(h + t);
      var lines := SplitLines(more);
      assert lines == [lines[0]] + lines[1..];
      if h[0] == '\n' {
        LayoutPassesBlanks(h[1..], t, true);
        NoWords();
        LayoutCons([], lines, gap);
      } else {
        LayoutPassesBlanks(h[1..], t, gap);
        FieldsPassBlank(h[0], lines[0]);
        LayoutCons([h[0]] + lines[0], lines[1..], gap);
        LayoutCons(lines[0], lines[1..], gap);
      }
    }
  }

  lemma SplitFirst(s: Bytes)
    requires s != []
    ensures var lines := SplitLines(s[1..]);
            SplitLines(s) == if s[0] == '\n' then [[]] + lines else [[s[0]] + lines[0]] + lines[1..]
  {
  }

  /** Blanks without a newline stay in front of the first line. */
  lemma {:induction false} SplitKeepsBlanks(h: Bytes, t: Bytes)
    requires AllBlank(h) && Newlines(h) == 0
    ensures var lines := SplitLines(t); SplitLines(h + t) == [h + lines[0]] + lines[1..]
    ensures Fields(h + SplitLines(t)[0]) == Fields(SplitLines(t)[0])
  {
    hide Fields, SplitLines;
    if h == [] {
      NothingInFront(t);
    } else {
      SplitKeepsBlanks(h[1..], t);
      ByteInFront(h, t);
      FieldsPassBlank(h[0], h[1..] + SplitLines(t)[0]);
      assert [h[0]] + (h[1..] + SplitLines(t)[0]) == h + SplitLines(t)[0];
    }
  }

  /** Blanks with a newline: the line ends at the first one. */
  lemma {:induction false} SplitAtBreak(h: Bytes, t: Bytes) returns (front: Bytes, back: Bytes)
    requires AllBlank(h) && Newlines(h) > 0
    ensures AllBlank(front) && AllBlank(back) && Newlines(h) == 1 + Newlines(back)
    ensures SplitLines(h + t) == [front] + SplitLines(back + t)
  {
    hide SplitLines;
    assert (h + t)[0] == h[0] && (h + t)[1..] == h[1..] + t;
    SplitFirst(h + t);
    if h[0] == '\n' {
      front, back := [], h[1..];
    } else {
      var rest;
      rest, back := SplitAtBreak(h[1..], t);
      front := [h[0]] + rest;
      assert ([rest] + SplitLines(back + t))[1..] == SplitLines(back + t);
    }
  }

  lemma {:induction false} BlankLineHasNoWords(h: Bytes)
    requires AllBlank(h)
    ensures Fields(h) == []
  {
    if h != [] {
      hide Fields;
      BlankLineHasNoWords(h[1..]);
      FieldsPassBlank(h[0], h[1..]);
      assert h == [h[0]] + h[1..];
    } else {
      NoWords();
    }
  }

  // ---- the text rendered ----------------------------------------------------

  function Rendered(t: Bytes): Bytes {
    Render(Layout(SplitLines(t), false))
  }

  /** A text that begins with a word, laid out behind a gap or not. */
  lemma BeginsWithWord(t: Bytes, gap: bool)
    requires t != [] && !IsBlank(t[0])
    ensures var lines := SplitLines(t);
            && Fields(lines[0]) != []
            && Layout(lines, gap) == [Line(Fields(lines[0]), gap)] + Layout(lines[1..], false)
            && Rendered(t) == JoinWords(Fields(lines[0])) + RenderRest(Layout(lines[1..], false))
  {
    hide Fields, JoinWords, RenderRest, Layout, SplitLines;
    var lines := SplitLines(t);
    SplitFirst(t);
    FieldsBegin(lines[0]);
    assert lines == [lines[0]] + lines[1..];
    LayoutCons(lines[0], lines[1..], gap);
    LayoutCons(lines[0], lines[1..], false);
    RenderNext(Line(Fields(lines[0]), false), Layout(lines[1..], false), []);
  }

  /** On one line: a word, blanks, and more. */
  lemma SameLine(u: Bytes, h: Bytes, t: Bytes)
    requires u != [] && NoBlank(u) && h != [] && AllBlank(h) && Newlines(h) == 0 && t != [] && !IsBlank(t[0])
    ensures Rendered(u + (h + t)) == u + " " + Rendered(t)
  {
    hide Fields, JoinWords, RenderRest, Layout, SplitLines, Rendered;
    var lines := SplitLines(t);
    SplitKeepsBlanks(h, t);
    SplitKeepsWord(u, h + t);
    FieldsTakeFirst(u, h + lines[0]);
    BeginsWithWord(t, false);
    BeginsWithWord(u + (h + t), false);
    JoinAnother(u, Fields(lines[0]));
    var rest := RenderRest(Layout(lines[1..], false));
    assert u + " " + JoinWords(Fields(lines[0])) + rest == u + " " + (JoinWords(Fields(lines[0])) + rest);
  }

  lemma JoinAnother(u: Bytes, words: seq<Bytes>)
    requires words != []
    ensures JoinWords([u] + words) == u + " " + JoinWords(words)
    ensures JoinWords([u]) == u
  {
    assert ([u] + words)[1..] == words;
  }

  /** Over a line break: a word, blanks with newlines, and more. */
  lemma NextLine(u: Bytes, h: Bytes, t: Bytes)
    requires u != [] && NoBlank(u) && AllBlank(h) && Newlines(h) > 0 && t != [] && !IsBlank(t[0])
    ensures Rendered(u + (h + t)) == u + (if Newlines(h) == 1 then "\n" else "\n\n") + Rendered(t)
  {
    hide Fields, JoinWords, RenderRest, Layout, SplitLines, Rendered;
    var front, back := SplitAtBreak(h, t);
    var gap, lines := Newlines(back) > 0, SplitLines(t);
    OneWordLine(u, front, h + t, SplitLines(back + t));
    LayoutPassesBlanks(back, t, false);
    BeginsWithWord(t, gap);
    BeginsWithWord(u + (h + t), false);
    RenderNext(Line(Fields(lines[0]), gap), Layout(lines[1..], false), u);
    var words, rest := JoinWords(Fields(lines[0])), RenderRest(Layout(lines[1..], false));
    var sep := if gap then "\n\n" else "\n";
    assert u + sep + words + rest == u + sep + (words + rest);
  }

  lemma OneWordLine(u: Bytes, front: Bytes, t: Bytes, below: seq<Bytes>)
    requires u != [] && NoBlank(u) && AllBlank(front) && SplitLines(t) == [front] + below
    ensures var lines := SplitLines(u + t); JoinWords(Fields(lines[0])) == u && lines[1..] == below
  {
    hide Fields, SplitLines, JoinWords;
    SplitKeepsWord(u, t);
    assert ([front] + below)[1..] == below;
    FieldsTakeFirst(u, front);
    BlankLineHasNoWords(front);
    assert [u] + [] == [u];
    JoinAnother(u, [u]);
  }

  /** The last word of a text, with blanks behind it. */
  lemma LastWord(u: Bytes, h: Bytes)
    requires u != [] && NoBlank(u) && AllBlank(h)
    ensures Rendered(u + h) == u
  {
    hide Fields, JoinWords, RenderRest, Layout, SplitLines, Rendered;
    RenderNothing();
    NothingSplits();
    BeginsWithWord(u + h, false);
    assert h + [] == h;
    if Newlines(h) == 0 {
      SplitKeepsBlanks(h, []);
      assert SplitLines(h) == [h] + [];
      OneWordLine(u, h, h, []);
      LayoutNothing(false);
    } else {
      var front, back := SplitAtBreak(h, []);
      assert back + [] == back;
      OneWordLine(u, front, h, SplitLines(back));
      LayoutPassesBlanks(back, [], false);
      LayoutCons([], [], Newlines(back) > 0);
      LayoutNothing(true);
      NoWords();
    }
    assert u + [] == u;
  }

  lemma NothingSplits()
    ensures SplitLines([]) == [[]] == [[]] + []
  {
  }

  lemma LayoutNothing(gap: bool)
    ensures Layout([], gap) == []
  {
  }

  // ---- the laws of normalization --------------------------------------------

  /** Blanks at the beginning of a text are dropped. */
  lemma LeadingBlanksAreDropped(g: Bytes, rest: Bytes)
    requires AllBlank(g) && (rest == [] || rest[0] != '\n')
    ensures Normalize(g + rest) == Normalize(rest)
  {
    hide UnixLines, SplitLines, Layout, Newlines, Breaks, AllBlank, RenderRest, JoinWords;
    UnixKeepsBreaks(g, rest);
    LayoutPassesBlanks(UnixLines(g), UnixLines(rest), false);
    FirstGapIsNotShown(SplitLines(UnixLines(rest)), Newlines(UnixLines(g)) > 0);
  }

  /** A gap in front of the first line is not rendered. */
  lemma {:induction false} FirstGapIsNotShown(lines: seq<Bytes>, gap: bool)
    ensures Render(Layout(lines, gap)) == Render(Layout(lines, false))
    decreases |lines|
  {
    hide Fields, JoinWords, RenderRest;
    if lines != [] && Fields(lines[0]) != [] {
      var words, rest := Fields(lines[0]), Layout(lines[1..], false);
      RenderNext(Line(words, gap), rest, []);
      RenderNext(Line(words, false), rest, []);
    }
  }

  /** Between two words one space is left, or one line break, or one blank line: by whether
      the blanks between them held no line break, one, or more. */
  lemma BlanksAreOneSeparator(u: Bytes, g: Bytes, rest: Bytes)
    requires u != [] && NoBlank(u) && g != [] && AllBlank(g) && rest != [] && NoBlank([rest[0]])
    ensures Normalize(u + g + rest) == u + Between(Breaks(g)) + Normalize(rest)
  {
    hide UnixLines, Newlines, Breaks;
    assert NoBlank([rest[0]]) && [rest[0]][0] == rest[0];
    UnixBegins(rest);
    UnixBegins(g);
    hide SplitLines, Layout, AllBlank, NoBlank, Render;
    assert u + g + rest == u + (g + rest);
    UnixKeepsWord(u, g + rest);
    UnixKeepsBreaks(g, rest);
    var h, t := UnixLines(g), UnixLines(rest);
    if Newlines(h) == 0 {
      SameLine(u, h, t);
    } else {
      NextLine(u, h, t);
    }
  }

  lemma UnixBegins(s: Bytes)
    requires s != []
    ensures UnixLines(s) != [] && (s[0] != '\r' ==> UnixLines(s)[0] == s[0])
  {
  }

  /** The last word is kept, and blanks behind it are dropped. */
  lemma TrailingBlanksAreDropped(u: Bytes, g: Bytes)
    requires u != [] && NoBlank(u) && AllBlank(g)
    ensures Normalize(u + g) == u
  {
    hide SplitLines, Layout, Newlines, Breaks, AllBlank, NoBlank, Render;
    UnixKeepsWord(u, g);
    assert g + [] == g;
    UnixKeepsBreaks(g, []);
    LastWord(u, UnixLines(g));
  }

  lemma BlankTextIsEmpty(g: Bytes)
    requires AllBlank(g)
    ensures Normalize(g) == []
  {
    assert g + [] == g;
    LeadingBlanksAreDropped(g, []);
    NothingSplits();
    NoWords();
    assert Layout([[]], false) == Layout([], true) == [];
  }
}

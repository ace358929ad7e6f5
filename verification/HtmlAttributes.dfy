/** How an attribute's value is written: blanks around the equals sign, and three quotings. */
module HtmlAttributes {
  import opened Basics
  import opened Utf8
  import opened HtmlText
  import opened HtmlLinks

  predicate Blanks(s: Bytes) {
    forall i :: 0 <= i < |s| ==> s[i] in " \t\n\r"
  }

  /** An attribute's text from its equals sign on, blanks in front of it and behind it. */
  function Assigned(lead: Bytes, before: Bytes, behind: Bytes, value: Bytes): Bytes {
    lead + before + "=" + behind + value
  }

  lemma ValueStartsAt(lead: Bytes, before: Bytes, behind: Bytes, value: Bytes)
    requires Blanks(before) && Blanks(behind) && (value == [] || value[0] !in " \t\n\r")
    ensures var attrs, at := Assigned(lead, before, behind, value), |lead| + |before| + 1 + |behind|;
            && at <= |attrs| && attrs[at..] == value
            && ValueAfter(attrs, |lead|) == Some(ValueAt(attrs, at))
  {
    hide ValueAt;
    var attrs, eq := Assigned(lead, before, behind, value), |lead| + |before|;
    var at := eq + 1 + |behind|;
    assert attrs[eq] == '=' && attrs[at..] == value;
    assert forall k :: |lead| <= k < eq ==> attrs[k] == before[k - |lead|];
    assert forall k :: eq + 1 <= k < at ==> attrs[k] == behind[k - eq - 1];
    assert at < |attrs| ==> attrs[at] == value[0];
    BlanksAreSkipped(attrs, |lead|, eq);
    BlanksAreSkipped(attrs, eq + 1, at);
  }

  /** A value in double or single quotes, or in none, reads back whatever blanks stand around
      the equals sign. */
  lemma ValueReads(lead: Bytes, before: Bytes, behind: Bytes, target: Bytes, quoting: Quoting, after: Bytes)
    requires Blanks(before) && Blanks(behind) && Quotable(target, quoting)
    requires quoting.Bare? ==> after == [] || after[0] == ' ' || after[0] == '\t'
    ensures ValueAfter(Assigned(lead, before, behind, Quoted(target, quoting) + after), |lead|) == Some(target)
  {
    hide ValueAt, ValueAfter;
    var head := lead + before + "=" + behind;
    ValueStartsAt(lead, before, behind, Quoted(target, quoting) + after);
    if quoting.Bare? {
      BareValueReadsBack(head, target, after);
    } else {
      var quote: Byte := if quoting.Double? then '"' else '\'';
      assert Quoted(target, quoting) == [quote] + target + [quote];
      QuotedValueReadsBack(head, quote, target, after);
    }
    assert head + (Quoted(target, quoting) + after) == head + Quoted(target, quoting) + after;
  }

  lemma BareValueReadsBack(lead: Bytes, target: Bytes, after: Bytes)
    requires Quotable(target, Bare) && (after == [] || after[0] == ' ' || after[0] == '\t')
    ensures ValueAt(lead + target + after, |lead|) == target
  {
    var attrs, end := lead + target + after, |lead| + |target|;
    forall j | |lead| <= j < end ensures attrs[j] == target[j - |lead|] {}
    assert end < |attrs| ==> attrs[end] == after[0];
    BareEndsThere(attrs, |lead|, end);
    assert attrs[|lead|..end] == target;
  }

  /** A quote that is never closed takes the rest of the attribute text. */
  lemma OpenQuoteTakesRest(lead: Bytes, before: Bytes, behind: Bytes, quote: Byte, rest: Bytes)
    requires Blanks(before) && Blanks(behind) && (quote == '"' || quote == '\'') && quote !in rest
    ensures ValueAfter(Assigned(lead, before, behind, [quote] + rest), |lead|) == Some(rest)
  {
    hide IndexFrom, OccursAt, ValueAfter;
    ValueStartsAt(lead, before, behind, [quote] + rest);
    var attrs, at := Assigned(lead, before, behind, [quote] + rest), |lead| + |before| + 1 + |behind|;
    assert attrs[at..][0] == quote && attrs[at + 1..] == attrs[at..][1..] == rest;
    forall j | at + 1 <= j < |attrs| ensures !OccursAt(attrs, [quote], j) {
      assert attrs[j] == attrs[at + 1..][j - at - 1] && attrs[j] in rest;
      NotThere(attrs, [quote], j, 0);
    }
    NowhereIsNone(attrs, [quote], at + 1);
  }

  /** Without an equals sign there is no value. */
  lemma NoValueWithoutEquals(lead: Bytes, before: Bytes, rest: Bytes)
    requires Blanks(before) && (rest == [] || rest[0] !in " \t\n\r=")
    ensures ValueAfter(lead + before + rest, |lead|).None?
  {
    var attrs, e := lead + before + rest, |lead| + |before|;
    assert forall k :: |lead| <= k < e ==> attrs[k] == before[k - |lead|];
    assert e < |attrs| ==> attrs[e] == rest[0];
    assert IsBlankRun(attrs, |lead|, e);
    NoValueBehind(attrs, |lead|);
    hide ValueAfter;
  }
}

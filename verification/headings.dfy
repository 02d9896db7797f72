/** `extract_headings`: the H2/H3 headings of an article, line by line, from
    Markdown (`## `, `### `) and from HTML (`<h2 …>…</h2>`, `<h3 …>…</h3>`). */
module Headings {
  import opened Common

  /** `{"level": …, "text": …, "line": …}`; lines are numbered from 1. */
  datatype Heading = Heading(level: nat, text: string, line: nat)

  function OptSeq<T>(o: Option<T>): (r: seq<T>)
    ensures |r| <= 1
  {
    match o
    case None => []
    case Some(x) => [x]
  }

  // ---------------------------------------------------------------------------
  // Markdown

  /** The Markdown branch on a stripped line: `### ` before `## `, the text being
      the line without its leading `#`s, stripped. */
  function MarkdownHeading(stripped: string, line: nat): Option<Heading> {
    if StartsWith(stripped, "### ") then Some(Heading(3, Strip(LStripChar(stripped, '#')), line))
    else if StartsWith(stripped, "## ") then Some(Heading(2, Strip(LStripChar(stripped, '#')), line))
    else None
  }

  /** A line starting `### ` is a level-3 heading and never also a level-2 one; one
      starting `## ` but not `### ` is level 2; any other line (`#### x`, `##x`)
      gives no Markdown heading. */
  lemma MarkdownLevels(stripped: string, line: nat)
    ensures StartsWith(stripped, "### ") ==> MarkdownHeading(stripped, line).Some? && MarkdownHeading(stripped, line).value.level == 3
    ensures !StartsWith(stripped, "### ") && StartsWith(stripped, "## ") ==>
      MarkdownHeading(stripped, line).Some? && MarkdownHeading(stripped, line).value.level == 2
    ensures MarkdownHeading(stripped, line).Some? <==> StartsWith(stripped, "## ") || StartsWith(stripped, "### ")
  {
    if StartsWith(stripped, "### ") {
      assert stripped[..3] == "## "[..2] + [stripped[2]];
    }
  }

  /** Markdown heading text: everything after the `#` run and the space, stripped;
      never empty on a stripped line. */
  lemma MarkdownText(stripped: string, line: nat)
    requires |stripped| > 0 ==> !IsSpace(stripped[|stripped| - 1])
    ensures MarkdownHeading(stripped, line).Some? ==>
      var n := MarkdownHeading(stripped, line).value.level;
      && n + 1 <= |stripped|
      && MarkdownHeading(stripped, line).value.text == Strip(stripped[n + 1..])
      && |MarkdownHeading(stripped, line).value.text| > 0
  {
    if MarkdownHeading(stripped, line).Some? {
      MarkdownTextSome(stripped, line);
    }
  }

  lemma MarkdownTextSome(stripped: string, line: nat)
    requires |stripped| > 0 ==> !IsSpace(stripped[|stripped| - 1])
    requires MarkdownHeading(stripped, line).Some?
    ensures var n := MarkdownHeading(stripped, line).value.level;
      && n + 1 <= |stripped|
      && MarkdownHeading(stripped, line).value.text == Strip(stripped[n + 1..])
      && |MarkdownHeading(stripped, line).value.text| > 0
  {
    if StartsWith(stripped, "### ") {
      assert MarkdownHeading(stripped, line).value == Heading(3, Strip(LStripChar(stripped, '#')), line);
      ThreeHashes(stripped);
    } else {
      assert MarkdownHeading(stripped, line).value == Heading(2, Strip(LStripChar(stripped, '#')), line);
      TwoHashes(stripped);
    }
  }

  lemma ThreeHashes(s: string)
    requires StartsWith(s, "### ") && !IsSpace(s[|s| - 1])
    ensures 4 < |s|
    ensures Strip(LStripChar(s, '#')) == Strip(s[4..])
    ensures |Strip(s[4..])| > 0
  {
    assert s[0] == s[..4][0] && s[1] == s[..4][1] && s[2] == s[..4][2] && s[3] == s[..4][3];
    HashHeadingText(s, 3);
  }

  lemma TwoHashes(s: string)
    requires StartsWith(s, "## ") && !IsSpace(s[|s| - 1])
    ensures 3 < |s|
    ensures Strip(LStripChar(s, '#')) == Strip(s[3..])
    ensures |Strip(s[3..])| > 0
  {
    assert s[0] == s[..3][0] && s[1] == s[..3][1] && s[2] == s[..3][2];
    HashHeadingText(s, 2);
  }

  lemma HashHeadingText(s: string, n: nat)
    requires n < |s| && s[n] == ' ' && forall i | 0 <= i < n :: s[i] == '#'
    requires !IsSpace(s[|s| - 1])
    ensures n + 1 < |s|
    ensures Strip(LStripChar(s, '#')) == Strip(s[n + 1..])
    ensures |Strip(s[n + 1..])| > 0
  {
    HashRun(s, n);
    assert IsSpace(s[n]);
    var rest := s[n + 1..];
    assert rest[|rest| - 1] == s[|s| - 1];
    StripNonEmpty(rest);
    StripLeadingSpace(rest);
  }

  /** `lstrip("#")` on `n` hashes followed by a space leaves the space and the rest. */
  lemma HashRun(s: string, n: nat)
    requires n < |s| && s[n] == ' ' && forall i | 0 <= i < n :: s[i] == '#'
    ensures LStripChar(s, '#') == [' '] + s[n + 1..]
  {
    assert LeadingRun(s, '#') == n;
    assert s[n..] == [' '] + s[n + 1..];
  }

  lemma StripLeadingSpace(s: string)
    ensures Strip([' '] + s) == Strip(s)
  {
    var t := [' '] + s;
    assert t[1..] == s;
    assert LeadingSpaces(t) == 1 + LeadingSpaces(s);
    assert t[LeadingSpaces(t)..] == s[LeadingSpaces(s)..];
  }

  // ---------------------------------------------------------------------------
  // HTML

  function OpenTag(level: nat): string
    requires level == 2 || level == 3
  {
    ['<', 'h', if level == 2 then '2' else '3']
  }

  function CloseTag(level: nat): string
    requires level == 2 || level == 3
  {
    ['<', '/', 'h', if level == 2 then '2' else '3', '>']
  }

  /** Where `re.search(r"<hN[^>]*>(.*?)</hN>", s, re.IGNORECASE)` matched: the
      opening tag, and the bounds of group 1. */
  datatype Span = Span(open: nat, start: nat, end: nat)

  /** The leftmost match: the first `<hN` (in any case), the first `>` after it,
      and the first `</hN>` after that. */
  function HtmlSpan(s: string, level: nat): (r: Option<Span>)
    requires level == 2 || level == 3
    ensures r.Some? ==> r.value.open + 4 <= r.value.start <= r.value.end <= |s|
    ensures r.Some? ==> OccursAt(Lower(s), OpenTag(level), r.value.open) && s[r.value.start - 1] == '>'
    ensures r.Some? ==> OccursAt(Lower(s), CloseTag(level), r.value.end)
  {
    var low := Lower(s);
    match Find(low, OpenTag(level), 0)
    case None => None
    case Some(p) =>
      assert |OpenTag(level)| == 3 && p + 3 <= |s|;
      match FindChar(s, '>', p + 3)
      case None => None
      case Some(q) =>
        match Find(low, CloseTag(level), q + 1)
        case None => None
        case Some(e) => Some(Span(p, q + 1, e))
  }

  /** The match is the leftmost one: no earlier `<hN`, no earlier `>` closing the
      opening tag, no earlier `</hN>` closing the group. */
  lemma HtmlSpanLeftmost(s: string, level: nat)
    requires level == 2 || level == 3
    requires HtmlSpan(s, level).Some?
    ensures var sp := HtmlSpan(s, level).value;
      && (forall j | 0 <= j < sp.open :: !OccursAt(Lower(s), OpenTag(level), j))
      && (forall j | sp.open + 3 <= j < sp.start - 1 :: s[j] != '>')
      && (forall j | sp.start <= j < sp.end :: !OccursAt(Lower(s), CloseTag(level), j))
  {
    var low := Lower(s);
    var p := Find(low, OpenTag(level), 0).value;
    var q := FindChar(s, '>', p + 3).value;
    assert HtmlSpan(s, level).value == Span(p, q + 1, Find(low, CloseTag(level), q + 1).value);
  }

  /** When the leftmost `<hN` finds no `>` and `</hN>` after it, no later one does
      either: no opening tag, `>` and closing tag appear in that order anywhere. */
  lemma NoSpanNoMatch(s: string, level: nat)
    requires level == 2 || level == 3
    requires HtmlSpan(s, level).None?
    ensures forall p, q, e | OccursAt(Lower(s), OpenTag(level), p) && p + 3 <= q < e && q < |s| && s[q] == '>' ::
      !OccursAt(Lower(s), CloseTag(level), e)
  {
    var low := Lower(s);
    forall p, q, e | OccursAt(low, OpenTag(level), p) && p + 3 <= q < e && q < |s| && s[q] == '>'
      ensures !OccursAt(low, CloseTag(level), e)
    {
      var p0 := Find(low, OpenTag(level), 0);
      assert p0.Some?;
      var q0 := FindChar(s, '>', p0.value + 3);
      assert q0.Some?;
      assert Find(low, CloseTag(level), q0.value + 1).None?;
    }
  }

  /** `re.sub(r"<[^>]+>", "", s)`: every `<`, at least one character that is not
      `>`, and the next `>` are removed; everything else is kept. */
  function StripTags(s: string): (r: string)
    ensures |r| <= |s|
    decreases |s|
  {
    if |s| == 0 then ""
    else if s[0] == '<' && |s| > 1 && s[1] != '>' && FindChar(s, '>', 1).Some? then
      StripTags(s[FindChar(s, '>', 1).value + 1..])
    else [s[0]] + StripTags(s[1..])
  }

  /** Text without `<` has no tags to remove. */
  lemma {:induction false} StripTagsNoTag(s: string)
    requires forall i | 0 <= i < |s| :: s[i] != '<'
    ensures StripTags(s) == s
    decreases |s|
  {
    if |s| > 0 {
      StripTagsNoTag(s[1..]);
    }
  }

  /** Text without `>` cannot close a tag, so nothing is removed either. */
  lemma {:induction false} StripTagsNoClose(s: string)
    requires forall i | 0 <= i < |s| :: s[i] != '>'
    ensures StripTags(s) == s
    decreases |s|
  {
    if |s| > 0 {
      assert FindChar(s, '>', 1).None?;
      StripTagsNoClose(s[1..]);
    }
  }

  /** A match of `<[^>]+>` starts at `i`: a `<`, a character that is not `>`,
      and a later `>`. */
  predicate OpensTag(s: string, i: nat) {
    i + 1 < |s| && s[i] == '<' && s[i + 1] != '>' && exists j | i + 1 < j < |s| :: s[j] == '>'
  }

  /** Text in which `<[^>]+>` matches nowhere. */
  predicate TagFree(s: string) {
    forall i: nat | i < |s| :: !OpensTag(s, i)
  }

  /** Dropping the first character shifts every match start down by one. */
  lemma OpensTagShift(s: string, i: nat)
    requires |s| > 0
    ensures OpensTag(s[1..], i) <==> OpensTag(s, i + 1)
  {
    var t := s[1..];
    if OpensTag(s, i + 1) {
      var j :| i + 2 < j < |s| && s[j] == '>';
      assert t[j - 1] == '>';
    }
    if OpensTag(t, i) {
      var j :| i + 1 < j < |t| && t[j] == '>';
      assert s[j + 1] == '>';
    }
  }

  /** The tag branch of `StripTags` is taken exactly where a match starts. */
  lemma StripTagsBranch(s: string)
    requires |s| > 0
    ensures (s[0] == '<' && |s| > 1 && s[1] != '>' && FindChar(s, '>', 1).Some?) <==> OpensTag(s, 0)
  {
    if OpensTag(s, 0) {
      var j :| 1 < j < |s| && s[j] == '>';
      assert FindChar(s, '>', 1).Some?;
    }
  }

  /** Tag-free text is left as it is. */
  lemma {:induction false} TagFreeFixed(s: string)
    requires TagFree(s)
    ensures StripTags(s) == s
    decreases |s|
  {
    if |s| > 0 {
      StripTagsBranch(s);
      assert !OpensTag(s, 0);
      forall i: nat | i < |s[1..]| ensures !OpensTag(s[1..], i) {
        OpensTagShift(s, i);
      }
      TagFreeFixed(s[1..]);
    }
  }

  /** Text that starts with a character other than `<` keeps it first. */
  lemma StripTagsKeepsFirst(s: string)
    requires |s| > 0 && s[0] != '<'
    ensures |StripTags(s)| > 0 && StripTags(s)[0] == s[0]
  {
  }

  /** No match of `<[^>]+>` survives `StripTags`. */
  lemma {:induction false} StripTagsTagFree(s: string)
    ensures TagFree(StripTags(s))
    decreases |s|
  {
    if |s| > 0 {
      StripTagsBranch(s);
      if OpensTag(s, 0) {
        StripTagsTagFree(s[FindChar(s, '>', 1).value + 1..]);
      } else {
        var u := StripTags(s[1..]);
        var t := StripTags(s);
        StripTagsTagFree(s[1..]);
        assert t == [s[0]] + u;
        assert t[1..] == u;
        forall i: nat | i < |t| ensures !OpensTag(t, i) {
          if i > 0 {
            OpensTagShift(t, i - 1);
          } else if s[0] == '<' && |s| > 1 {
            if s[1] == '>' {
              StripTagsKeepsFirst(s[1..]);
              assert t[1] == '>';
            } else {
              assert forall j | 1 <= j < |s| :: s[j] != '>';
              assert forall j | 0 <= j < |s[1..]| :: s[1..][j] != '>';
              StripTagsNoClose(s[1..]);
              assert u == s[1..];
            }
          }
        }
      }
    }
  }

  /** Removing tags a second time changes nothing. */
  lemma StripTagsIdempotent(s: string)
    ensures StripTags(StripTags(s)) == StripTags(s)
  {
    StripTagsTagFree(s);
    TagFreeFixed(StripTags(s));
  }

  /** Tags around a text are removed: `<b>x</b>` gives `x`. */
  lemma StripTagsExample()
    ensures StripTags("<b>x</b>") == "x"
  {
    var s := "<b>x</b>";
    assert FindChar(s, '>', 1) == Some(2);
    assert s[3..] == "x</b>";
    assert FindChar("</b>", '>', 1) == Some(3);
    assert "x</b>"[1..] == "</b>";
    assert "</b>"[4..] == "";
  }

  /** The HTML branch for one level: the tag-stripped, stripped group, when it is
      not empty. */
  function HtmlHeading(stripped: string, level: nat, line: nat): (h: Option<Heading>)
    requires level == 2 || level == 3
    ensures h.Some? ==> h.value.level == level && h.value.line == line && |h.value.text| > 0
  {
    match HtmlSpan(stripped, level)
    case None => None
    case Some(sp) =>
      var text := Strip(StripTags(stripped[sp.start..sp.end]));
      if |text| > 0 then Some(Heading(level, text, line)) else None
  }

  // ---------------------------------------------------------------------------
  // Lines

  /** All headings of one line: the Markdown one, then `<h2>`, then `<h3>`. */
  function LineHeadings(rawLine: string, line: nat): (hs: seq<Heading>)
    ensures |hs| <= 3
    ensures forall k | 0 <= k < |hs| :: Good(hs[k], line)
  {
    var stripped := Strip(rawLine);
    var md := MarkdownHeading(stripped, line);
    MarkdownGood(stripped, line);
    var h2 := HtmlHeading(stripped, 2, line);
    var h3 := HtmlHeading(stripped, 3, line);
    Concat3(md, h2, h3, line);
    OptSeq(md) + OptSeq(h2) + OptSeq(h3)
  }

  predicate Good(h: Heading, line: nat) {
    h.line == line && (h.level == 2 || h.level == 3) && |h.text| > 0
  }

  lemma MarkdownGood(stripped: string, line: nat)
    requires |stripped| > 0 ==> !IsSpace(stripped[|stripped| - 1])
    ensures MarkdownHeading(stripped, line).Some? ==> Good(MarkdownHeading(stripped, line).value, line)
  {
    MarkdownText(stripped, line);
  }

  lemma Concat3(a: Option<Heading>, b: Option<Heading>, c: Option<Heading>, line: nat)
    requires a.Some? ==> Good(a.value, line)
    requires b.Some? ==> Good(b.value, line)
    requires c.Some? ==> Good(c.value, line)
    ensures var hs := OptSeq(a) + OptSeq(b) + OptSeq(c);
      |hs| <= 3 && forall k | 0 <= k < |hs| :: Good(hs[k], line)
  {
  }

  /** The headings of lines `i + 1` onwards. */
  function HeadingsFrom(lines: seq<string>, i: nat): (hs: seq<Heading>)
    ensures forall k | 0 <= k < |hs| :: i < hs[k].line <= |lines|
    ensures forall k | 0 <= k < |hs| :: (hs[k].level == 2 || hs[k].level == 3) && |hs[k].text| > 0
    ensures forall j, k | 0 <= j < k < |hs| :: hs[j].line <= hs[k].line
    decreases |lines| - i
  {
    if i >= |lines| then []
    else
      var here := LineHeadings(lines[i], i + 1);
      var rest := HeadingsFrom(lines, i + 1);
      Concat(here, rest, i + 1, |lines|);
      here + rest
  }

  lemma Concat(here: seq<Heading>, rest: seq<Heading>, n: nat, total: nat)
    requires n <= total
    requires forall k | 0 <= k < |here| :: Good(here[k], n)
    requires forall k | 0 <= k < |rest| :: n < rest[k].line <= total
    requires forall k | 0 <= k < |rest| :: (rest[k].level == 2 || rest[k].level == 3) && |rest[k].text| > 0
    requires forall j, k | 0 <= j < k < |rest| :: rest[j].line <= rest[k].line
    ensures var hs := here + rest;
      && (forall k | 0 <= k < |hs| :: n - 1 < hs[k].line <= total)
      && (forall k | 0 <= k < |hs| :: (hs[k].level == 2 || hs[k].level == 3) && |hs[k].text| > 0)
      && (forall j, k | 0 <= j < k < |hs| :: hs[j].line <= hs[k].line)
  {
  }

  /** `extract_headings(article_text)`: every heading is level 2 or 3, has text,
      and carries a line number between 1 and the number of lines; the list is in
      line order. */
  function ExtractHeadings(article: string): (hs: seq<Heading>)
    ensures forall k | 0 <= k < |hs| :: 1 <= hs[k].line <= |Split(article, '\n')|
    ensures forall k | 0 <= k < |hs| :: (hs[k].level == 2 || hs[k].level == 3) && |hs[k].text| > 0
    ensures forall j, k | 0 <= j < k < |hs| :: hs[j].line <= hs[k].line
  {
    HeadingsFrom(Split(article, '\n'), 0)
  }

  /** The headings carrying line number `n` are exactly those of the `n`-th line. */
  lemma {:induction false} HeadingsOfLine(lines: seq<string>, i: nat, n: nat)
    requires i < n <= |lines|
    ensures Filter(HeadingsFrom(lines, i), n) == LineHeadings(lines[n - 1], n)
    decreases |lines| - i
  {
    var here := LineHeadings(lines[i], i + 1);
    var rest := HeadingsFrom(lines, i + 1);
    assert HeadingsFrom(lines, i) == here + rest;
    FilterAppend(here, rest, n);
    if i + 1 == n {
      FilterAll(here, n);
      FilterNone(rest, n);
    } else {
      FilterNone(here, n);
      HeadingsOfLine(lines, i + 1, n);
    }
  }

  /** The headings with line number `n`, in order. */
  function Filter(hs: seq<Heading>, n: nat): seq<Heading> {
    if |hs| == 0 then [] else (if hs[0].line == n then [hs[0]] else []) + Filter(hs[1..], n)
  }

  lemma {:induction false} FilterAppend(a: seq<Heading>, b: seq<Heading>, n: nat)
    ensures Filter(a + b, n) == Filter(a, n) + Filter(b, n)
  {
    if |a| > 0 {
      assert (a + b)[1..] == a[1..] + b;
      FilterAppend(a[1..], b, n);
    } else {
      assert a + b == b;
    }
  }

  lemma {:induction false} FilterAll(a: seq<Heading>, n: nat)
    requires forall k | 0 <= k < |a| :: a[k].line == n
    ensures Filter(a, n) == a
  {
    if |a| > 0 {
      FilterAll(a[1..], n);
    }
  }

  lemma {:induction false} FilterNone(a: seq<Heading>, n: nat)
    requires forall k | 0 <= k < |a| :: a[k].line != n
    ensures Filter(a, n) == []
  {
    if |a| > 0 {
      FilterNone(a[1..], n);
    }
  }

  /** A line `<h2>   </h2>` (or one whose text is only tags) yields no heading. */
  lemma EmptyHtmlTextEmitsNothing(stripped: string, level: nat, line: nat)
    requires level == 2 || level == 3
    requires HtmlSpan(stripped, level).Some?
    requires var sp := HtmlSpan(stripped, level).value; Strip(StripTags(stripped[sp.start..sp.end])) == ""
    ensures HtmlHeading(stripped, level, line).None?
  {
  }
}

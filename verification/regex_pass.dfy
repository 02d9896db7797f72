/** The regex pass of `_parse_colors`: every match of the pattern
    `#(?:[0-9a-fA-F]{3}){1,2}\b`, scanned left to right as `re.findall` does,
    lower-cased and with three-digit forms expanded to six digits. */
module RegexPass {
  import opened Common
  import opened Hex

  /** A character `\w` matches, that is, `_` or a character `str.isalnum()`
      accepts. Covered: ASCII letters and digits; the Latin-1 letters and
      numerics `ª ² ³ µ ¹ º ¼ ½ ¾` and U+00C0 to U+00FF except `×` and `÷`;
      hiragana U+3041 to U+3096 and U+309D to U+309F; katakana U+30A1 to U+30FA,
      U+30FC to U+30FF, U+31F0 to U+31FF and the half-width U+FF66 to U+FF9F;
      `々 〆 〇` (U+3005 to U+3007); the CJK ideographs U+3400 to U+4DBF and
      U+4E00 to U+9FFF. Python's `\w` accepts letters and digits of every other
      script as well; those are not included. */
  predicate IsWordChar(c: char) {
    || 'a' <= c <= 'z' || 'A' <= c <= 'Z' || '0' <= c <= '9' || c == '_'
    || c == '\U{aa}' || c == '\U{b2}' || c == '\U{b3}' || c == '\U{b5}'
    || c == '\U{b9}' || c == '\U{ba}' || ('\U{bc}' <= c <= '\U{be}')
    || ('\U{c0}' <= c <= '\U{ff}' && c != '\U{d7}' && c != '\U{f7}')
    || ('\U{3041}' <= c <= '\U{3096}') || ('\U{309d}' <= c <= '\U{309f}')
    || ('\U{30a1}' <= c <= '\U{30fa}') || ('\U{30fc}' <= c <= '\U{30ff}')
    || ('\U{31f0}' <= c <= '\U{31ff}') || ('\U{ff66}' <= c <= '\U{ff9f}')
    || ('\U{3005}' <= c <= '\U{3007}')
    || ('\U{3400}' <= c <= '\U{4dbf}') || ('\U{4e00}' <= c <= '\U{9fff}')
  }

  /** `n` hex digits start at index `i`. */
  predicate HexRun(s: string, i: nat, n: nat) {
    i + n <= |s| && forall j | i <= j < i + n :: IsHexDigit(s[j])
  }

  /** `\b` just after a hex digit at `j - 1`: the end of the text or a non-word character. */
  predicate BoundaryAt(s: string, j: nat) {
    j >= |s| || !IsWordChar(s[j])
  }

  /** How many hex digits the pattern takes when a match starts at `i`: the greedy
      `{1,2}` tries six digits first and backtracks to three; 0 means no match. */
  function MatchLen(s: string, i: nat): (n: nat)
    requires i < |s|
    ensures n == 0 || n == 3 || n == 6
    ensures n > 0 ==> s[i] == '#' && HexRun(s, i + 1, n) && BoundaryAt(s, i + 1 + n)
  {
    if s[i] != '#' then 0
    else if HexRun(s, i + 1, 6) && BoundaryAt(s, i + 7) then 6
    else if HexRun(s, i + 1, 3) && BoundaryAt(s, i + 4) then 3
    else 0
  }

  lemma LowerHexDigit(c: char)
    requires IsHexDigit(c)
    ensures IsLowerHexDigit(LowerChar(c))
    ensures IsLowerHexDigit(c) ==> LowerChar(c) == c
  {
  }

  /** Hex runs inside the appended part of `a + b` are hex runs of `b`. */
  lemma HexRunShift(a: string, b: string, j: nat, n: nat)
    ensures HexRun(a + b, |a| + j, n) == HexRun(b, j, n)
  {
    if j + n <= |b| {
      forall m | j <= m < j + n ensures (a + b)[|a| + m] == b[m] {}
      assert (forall m | |a| + j <= m < |a| + j + n :: IsHexDigit((a + b)[m]))
          == (forall m | j <= m < j + n :: IsHexDigit(b[m]));
    }
  }

  /** Appending text that starts with a non-hex character does not extend a hex run. */
  lemma HexRunAppend(s: string, q: string, i: nat, n: nat)
    requires i <= |s|
    requires |q| > 0 && !IsHexDigit(q[0])
    ensures HexRun(s + q, i, n) == HexRun(s, i, n)
  {
    var t := s + q;
    if i + n <= |s| {
      forall m | i <= m < i + n ensures t[m] == s[m] {}
    } else if i + n <= |t| {
      assert t[|s|] == q[0];
      assert !HexRun(t, i, n);
    }
  }

  /** Lower-case a matched literal and expand `#abc` to `#aabbcc`. */
  function Normalize(lit: string): (key: string)
    requires |lit| == 4 || |lit| == 7
    requires lit[0] == '#' && forall j | 1 <= j < |lit| :: IsHexDigit(lit[j])
    ensures IsKey(key)
  {
    var n := Lower(lit);
    forall j | 1 <= j < |n| ensures IsLowerHexDigit(n[j]) {
      LowerHexDigit(lit[j]);
    }
    if |n| == 4 then ['#', n[1], n[1], n[2], n[2], n[3], n[3]] else n
  }

  /** The keys of all matches starting at or after `i`; after a match the scan
      resumes at its end, after a failed start at the next character. */
  function ScanFrom(s: string, i: nat): (keys: seq<string>)
    ensures forall k | 0 <= k < |keys| :: IsKey(keys[k])
    decreases |s| - i
  {
    if i >= |s| then []
    else
      var n := MatchLen(s, i);
      if n == 0 then ScanFrom(s, i + 1)
      else [Normalize(s[i..i + 1 + n])] + ScanFrom(s, i + 1 + n)
  }

  /** The regex-pass keys of one CSS text, in match order. */
  function RegexKeys(s: string): seq<string> {
    ScanFrom(s, 0)
  }

  /** The `for match in hex_pattern.findall(css_text)` loop, one event key per match. */
  method FindHexLiterals(s: string) returns (keys: seq<string>)
    ensures keys == RegexKeys(s)
    ensures forall k | 0 <= k < |keys| :: IsKey(keys[k])
  {
    keys := [];
    var i := 0;
    while i < |s|
      invariant 0 <= i <= |s|
      invariant keys + ScanFrom(s, i) == ScanFrom(s, 0)
      decreases |s| - i
    {
      var n := MatchLen(s, i);
      if n == 0 {
        i := i + 1;
      } else {
        keys := keys + [Normalize(s[i..i + 1 + n])];
        i := i + 1 + n;
      }
    }
  }

  // ---------------------------------------------------------------------------
  // Properties of the scan

  /** Text without `#` produces no match. */
  lemma {:induction false} NoHashNoKeys(s: string, i: nat)
    requires forall j | i <= j < |s| :: s[j] != '#'
    ensures ScanFrom(s, i) == []
    decreases |s| - i
  {
    if i < |s| {
      NoHashNoKeys(s, i + 1);
    }
  }

  lemma MatchLenShift(a: string, b: string, j: nat)
    requires j < |b|
    ensures MatchLen(a + b, |a| + j) == MatchLen(b, j)
  {
    var s := a + b;
    assert s[|a| + j] == b[j];
    HexRunShift(a, b, j + 1, 6);
    HexRunShift(a, b, j + 1, 3);
    assert BoundaryAt(s, |a| + j + 7) == BoundaryAt(b, j + 7);
    assert BoundaryAt(s, |a| + j + 4) == BoundaryAt(b, j + 4);
  }

  /** Matching only looks forward: the scan of `a + b` from inside `b` is the scan of `b`. */
  lemma {:induction false} ScanSuffix(a: string, b: string, j: nat)
    ensures ScanFrom(a + b, |a| + j) == ScanFrom(b, j)
    decreases |b| - j
  {
    var s := a + b;
    if j < |b| {
      MatchLenShift(a, b, j);
      var n := MatchLen(b, j);
      if n == 0 {
        ScanSuffix(a, b, j + 1);
      } else {
        assert s[|a| + j..|a| + j + 1 + n] == b[j..j + 1 + n];
        ScanSuffix(a, b, j + 1 + n);
      }
    }
  }

  /** Text that starts with a character that is neither a word character nor `#`,
      and holds no `#`, adds nothing when appended: a match at the end of `s`
      sees the same boundary, and the appended part starts no match. */
  lemma {:induction false} ScanPrefixUnchanged(s: string, q: string, i: nat)
    requires i <= |s|
    requires |q| > 0 && !IsWordChar(q[0])
    requires forall j | 0 <= j < |q| :: q[j] != '#'
    ensures ScanFrom(s + q, i) == ScanFrom(s, i)
    decreases |s| - i
  {
    var t := s + q;
    if i == |s| {
      ScanSuffix(s, q, 0);
      NoHashNoKeys(q, 0);
      assert ScanFrom(t, |s| + 0) == [];
    } else {
      assert t[i] == s[i];
      var n := MatchLen(s, i);
      HexRunAppend(s, q, i + 1, 6);
      HexRunAppend(s, q, i + 1, 3);
      assert HexRun(s, i + 1, 6) ==> BoundaryAt(t, i + 7) == BoundaryAt(s, i + 7);
      assert HexRun(s, i + 1, 3) ==> BoundaryAt(t, i + 4) == BoundaryAt(s, i + 4);
      assert MatchLen(t, i) == n;
      if n == 0 {
        ScanPrefixUnchanged(s, q, i + 1);
      } else {
        assert t[i..i + 1 + n] == s[i..i + 1 + n];
        ScanPrefixUnchanged(s, q, i + 1 + n);
      }
    }
  }

  /** A key written in CSS text, after text with no `#` and before a non-word
      character or the end, is found exactly once and reads back as itself. */
  lemma KeyInContext(p: string, k: string, q: string)
    requires forall j | 0 <= j < |p| :: p[j] != '#'
    requires IsKey(k)
    requires |q| == 0 || !IsWordChar(q[0])
    ensures RegexKeys(p + k + q) == [k] + RegexKeys(q)
  {
    var s := p + k + q;
    assert s == p + (k + q);
    NoHashBefore(s, 0, |p|);
    assert s[|p|] == '#';
    assert HexRun(s, |p| + 1, 6);
    assert BoundaryAt(s, |p| + 7) by {
      if |p| + 7 < |s| { assert s[|p| + 7] == q[0]; }
    }
    assert MatchLen(s, |p|) == 6;
    assert s[|p|..|p| + 7] == k;
    assert Lower(k) == k;
    assert s == (p + k) + q;
    ScanSuffix(p + k, q, 0);
  }

  /** Skipping characters that cannot start a match. */
  lemma {:induction false} NoHashBefore(s: string, i: nat, j: nat)
    requires i <= j <= |s|
    requires forall m | i <= m < j :: s[m] != '#'
    ensures ScanFrom(s, i) == ScanFrom(s, j)
    decreases j - i
  {
    if i < j {
      NoHashBefore(s, i + 1, j);
    }
  }

  /** A key on its own scans back to itself. */
  lemma KeyRoundTrip(k: string)
    requires IsKey(k)
    ensures RegexKeys(k) == [k]
  {
    KeyInContext([], k, []);
    assert [] + k + [] == k;
  }

  /** The three-digit shorthand is expanded: `#abc` gives `#aabbcc`. */
  lemma ShortFormExpanded()
    ensures RegexKeys("#abc") == ["#aabbcc"]
    ensures RegexKeys("#FFF") == ["#ffffff"]
  {
    var s := "#abc";
    assert !HexRun(s, 1, 6);
    assert MatchLen(s, 0) == 3;
    assert ScanFrom(s, 0) == [Normalize(s)] + ScanFrom(s, 4);
    var t := "#FFF";
    assert !HexRun(t, 1, 6);
    assert MatchLen(t, 0) == 3;
    assert ScanFrom(t, 0) == [Normalize(t)] + ScanFrom(t, 4);
  }

  /** Two spellings of one colour collapse to one key. */
  lemma SpellingsCollapse()
    ensures RegexKeys("#ABC") == RegexKeys("#aabbcc") == ["#aabbcc"]
  {
    var s := "#ABC";
    assert !HexRun(s, 1, 6);
    assert MatchLen(s, 0) == 3;
    assert ScanFrom(s, 0) == [Normalize(s)] + ScanFrom(s, 4);
    KeyRoundTrip("#aabbcc");
  }

  /** A `#` followed by a run of hex digits whose length is neither 3 nor 6 emits
      nothing: the trailing `\b` fails inside the run (`#abcd`, `#aabbccdd`). */
  lemma OtherRunLengthsEmitNothing(h: string)
    requires forall j | 0 <= j < |h| :: IsHexDigit(h[j])
    requires |h| != 3 && |h| != 6
    ensures RegexKeys("#" + h) == []
  {
    var s := "#" + h;
    if |h| >= 7 { assert IsWordChar(s[7]); }
    if |h| >= 4 { assert IsWordChar(s[4]); }
    assert MatchLen(s, 0) == 0;
    NoHashNoKeys(s, 1);
  }

  /** A word character glued to a three-digit form leaves no `\b` after it, so
      nothing is emitted: `#abcª` and `#abcあ` give no key. */
  lemma GluedWordCharEmitsNothing(c: char)
    requires IsWordChar(c)
    ensures RegexKeys("#abc" + [c]) == []
  {
    var s := "#abc" + [c];
    assert s[4] == c;
    assert MatchLen(s, 0) == 0;
    NoHashNoKeys(s, 1);
  }

  lemma GluedLatinAndKanaExamples()
    ensures RegexKeys("#abc\U{aa}") == []
    ensures RegexKeys("#abc\U{309d}") == []
  {
    GluedWordCharEmitsNothing('\U{aa}');
    GluedWordCharEmitsNothing('\U{309d}');
  }

  lemma FourAndEightDigitsEmitNothing()
    ensures RegexKeys("#abcd") == []
    ensures RegexKeys("#aabbccdd") == []
  {
    OtherRunLengthsEmitNothing("abcd");
    OtherRunLengthsEmitNothing("aabbccdd");
  }
}

/** Hex colour keys: the canonical `#rrggbb` spelling the palette engine uses as
    the identity of a colour, its formatting from an RGB triple, and the
    `_hex_to_rgb` reading back (shared by lib/color_extractor.py and
    lib/image_postprocessor.py, whose two copies are identical). */
module Hex {
  import opened Common

  datatype Rgb = Rgb(r: int, g: int, b: int)

  predicate InByteRange(c: Rgb) {
    0 <= c.r <= 255 && 0 <= c.g <= 255 && 0 <= c.b <= 255
  }

  predicate IsHexDigit(c: char) {
    '0' <= c <= '9' || 'a' <= c <= 'f' || 'A' <= c <= 'F'
  }

  predicate IsLowerHexDigit(c: char) {
    '0' <= c <= '9' || 'a' <= c <= 'f'
  }

  /** A normalized hex key: `#` followed by exactly six lower-case hex digits. */
  predicate IsKey(s: string) {
    |s| == 7 && s[0] == '#' && forall i | 1 <= i < 7 :: IsLowerHexDigit(s[i])
  }

  function DigitValue(c: char): (v: nat)
    requires IsHexDigit(c)
    ensures v < 16
  {
    if '0' <= c <= '9' then c as int - '0' as int
    else if 'a' <= c <= 'f' then c as int - 'a' as int + 10
    else c as int - 'A' as int + 10
  }

  /** The lower-case digit for a value below 16 (the digits of `format(v, "x")`). */
  function DigitChar(v: nat): (c: char)
    requires v < 16
    ensures IsLowerHexDigit(c) && DigitValue(c) == v
  {
    if v < 10 then ('0' as int + v) as char else ('a' as int + v - 10) as char
  }

  lemma DigitCharOfValue(c: char)
    requires IsLowerHexDigit(c)
    ensures DigitChar(DigitValue(c)) == c
  {
  }

  /** `max(0, min(255, x))`. */
  function Clamp(x: int): (r: int)
    ensures 0 <= r <= 255
    ensures 0 <= x <= 255 ==> r == x
    ensures x < 0 ==> r == 0
    ensures 255 < x ==> r == 255
  {
    if x < 0 then 0 else if x > 255 then 255 else x
  }

  /** `f"{v:02x}"` for a byte value. */
  function Byte2(v: int): (s: string)
    requires 0 <= v <= 255
    ensures |s| == 2 && IsLowerHexDigit(s[0]) && IsLowerHexDigit(s[1])
    ensures 16 * DigitValue(s[0]) + DigitValue(s[1]) == v
  {
    [DigitChar(v / 16), DigitChar(v % 16)]
  }

  /** Two lower-case digits are the `02x` spelling of the byte they denote. */
  lemma ByteDigits(a: char, b: char)
    requires IsLowerHexDigit(a) && IsLowerHexDigit(b)
    ensures Byte2(16 * DigitValue(a) + DigitValue(b)) == [a, b]
  {
    var v := 16 * DigitValue(a) + DigitValue(b);
    assert v / 16 == DigitValue(a) && v % 16 == DigitValue(b);
    DigitCharOfValue(a);
    DigitCharOfValue(b);
  }

  /** `f"#{r:02x}{g:02x}{b:02x}"`. */
  function FormatRgb(c: Rgb): (key: string)
    requires InByteRange(c)
    ensures IsKey(key)
  {
    "#" + Byte2(c.r) + Byte2(c.g) + Byte2(c.b)
  }

  // ---------------------------------------------------------------------------
  // `int(s, 16)`

  /** Digits and single underscores between digits, as `int()` accepts them. */
  predicate ValidDigits(s: string) {
    && |s| > 0
    && IsHexDigit(s[0]) && IsHexDigit(s[|s| - 1])
    && (forall i | 0 <= i < |s| :: IsHexDigit(s[i]) || s[i] == '_')
    && (forall i | 0 <= i < |s| - 1 :: !(s[i] == '_' && s[i + 1] == '_'))
  }

  /** The value of a digit string, underscores ignored. */
  function DigitsValue(s: string): nat
    requires forall i | 0 <= i < |s| :: IsHexDigit(s[i]) || s[i] == '_'
  {
    if |s| == 0 then 0
    else if s[|s| - 1] == '_' then DigitsValue(s[..|s| - 1])
    else 16 * DigitsValue(s[..|s| - 1]) + DigitValue(s[|s| - 1])
  }

  /** The digits after an optional `0x`/`0X` prefix (and one underscore allowed after it). */
  function AfterRadixPrefix(u: string): string {
    if |u| >= 2 && u[0] == '0' && (u[1] == 'x' || u[1] == 'X') then
      var b := u[2..];
      if |b| > 0 && b[0] == '_' then b[1..] else b
    else u
  }

  /** Python's `int(s, 16)` on ASCII input: surrounding whitespace, an optional
      sign, an optional `0x` prefix, then hex digits; `None` is the `ValueError`. */
  function IntBase16General(s: string): Option<int> {
    var t := Strip(s);
    var negative := |t| > 0 && t[0] == '-';
    var u := if |t| > 0 && (t[0] == '+' || t[0] == '-') then t[1..] else t;
    var body := AfterRadixPrefix(u);
    if ValidDigits(body) then
      var v: int := DigitsValue(body);
      Some(if negative then -v else v)
    else None
  }

  /** `_hex_to_rgb`: drop every leading `#`, then read three two-character slices
      as base-16 integers; `None` is the `ValueError` a malformed string raises. */
  function HexToRgb(s: string): Option<Rgb> {
    var h := LStripChar(s, '#');
    var r := IntBase16(Slice(h, 0, 2));
    var g := IntBase16(Slice(h, 2, 4));
    var b := IntBase16(Slice(h, 4, 6));
    if r.Some? && g.Some? && b.Some? then Some(Rgb(r.value, g.value, b.value)) else None
  }

  /** Two hex digits: the shape every slice of a well-formed colour has. */
  predicate IsDigitPair(t: string) {
    |t| == 2 && IsHexDigit(t[0]) && IsHexDigit(t[1])
  }

  /** `int(s, 16)`, with a pair of hex digits read directly; `IntBase16Agrees`
      shows that this is the general reading on every input. */
  function IntBase16(s: string): Option<int> {
    if IsDigitPair(s) then Some(16 * DigitValue(s[0]) + DigitValue(s[1])) else IntBase16General(s)
  }

  /** Two hex digits read back as one channel under the general rule. */
  lemma TwoDigits(t: string)
    requires IsDigitPair(t)
    ensures IntBase16General(t) == Some(16 * DigitValue(t[0]) + DigitValue(t[1]))
  {
    StripNoSpace(t);
    assert AfterRadixPrefix(t) == t;
    assert ValidDigits(t);
    assert t[..1] == [t[0]];
    assert [t[0]][..0] == [];
    assert DigitsValue([t[0]]) == DigitValue(t[0]);
    assert DigitsValue(t) == 16 * DigitValue(t[0]) + DigitValue(t[1]);
  }

  /** The direct reading of a digit pair is the one `int()` gives. */
  lemma IntBase16Agrees(s: string)
    ensures IntBase16(s) == IntBase16General(s)
  {
    if IsDigitPair(s) {
      TwoDigits(s);
    }
  }

  /** `#` followed by six hex digits of either case. */
  predicate IsHexLiteral6(s: string) {
    |s| == 7 && s[0] == '#' && forall i | 1 <= i < 7 :: IsHexDigit(s[i])
  }

  /** The channels the three digit pairs of a hex literal denote. */
  function KeyDigits(s: string): Rgb
    requires IsHexLiteral6(s)
  {
    Rgb(16 * DigitValue(s[1]) + DigitValue(s[2]),
        16 * DigitValue(s[3]) + DigitValue(s[4]),
        16 * DigitValue(s[5]) + DigitValue(s[6]))
  }

  /** `_hex_to_rgb` on `#` plus six hex digits succeeds, with every channel a byte
      given by its two digits. */
  lemma HexToRgbOfLiteral(s: string)
    requires IsHexLiteral6(s)
    ensures HexToRgb(s).Some? && InByteRange(HexToRgb(s).value)
    ensures HexToRgb(s).value == KeyDigits(s)
  {
    LiteralPairs(s);
    KeyDigitsInRange(s);
  }

  /** The three two-character slices `_hex_to_rgb` reads from a hex literal. */
  lemma LiteralPairs(s: string)
    requires IsHexLiteral6(s)
    ensures Slice(LStripChar(s, '#'), 0, 2) == [s[1], s[2]]
    ensures Slice(LStripChar(s, '#'), 2, 4) == [s[3], s[4]]
    ensures Slice(LStripChar(s, '#'), 4, 6) == [s[5], s[6]]
  {
    HashStripped(s);
  }

  lemma KeyDigitsInRange(s: string)
    requires IsHexLiteral6(s)
    ensures InByteRange(KeyDigits(s))
  {
  }

  /** `lstrip("#")` removes exactly the one leading `#` of a hex literal. */
  lemma HashStripped(s: string)
    requires IsHexLiteral6(s)
    ensures LStripChar(s, '#') == s[1..]
  {
    assert LeadingRun(s, '#') == 1 by {
      assert s[1] != '#';
      assert LeadingRun(s[1..], '#') == 0;
    }
  }

  /** Formatting then reading back is the identity on byte triples. */
  lemma HexToRgbFormat(c: Rgb)
    requires InByteRange(c)
    ensures HexToRgb(FormatRgb(c)) == Some(c)
  {
    var br, bg, bb := Byte2(c.r), Byte2(c.g), Byte2(c.b);
    var k := FormatRgb(c);
    assert k[1] == br[0] && k[2] == br[1];
    assert k[3] == bg[0] && k[4] == bg[1];
    assert k[5] == bb[0] && k[6] == bb[1];
    HexToRgbOfLiteral(k);
    var v := HexToRgb(k).value;
    assert v.r == c.r && v.g == c.g && v.b == c.b;
  }

  /** The colour a key's digit pairs denote, formatted, is the key itself. */
  lemma FormatOfKeyDigits(k: string)
    requires IsKey(k)
    ensures InByteRange(KeyDigits(k))
    ensures FormatRgb(KeyDigits(k)) == k
  {
    var c := KeyDigits(k);
    ByteDigits(k[1], k[2]);
    ByteDigits(k[3], k[4]);
    ByteDigits(k[5], k[6]);
    assert k == "#" + [k[1], k[2]] + [k[3], k[4]] + [k[5], k[6]];
  }

  /** A key is the canonical spelling of its colour: reading it and formatting the
      result gives the key back. */
  lemma FormatHexToRgb(k: string)
    requires IsKey(k)
    ensures HexToRgb(k).Some? && InByteRange(HexToRgb(k).value)
    ensures FormatRgb(HexToRgb(k).value) == k
  {
    HexToRgbOfLiteral(k);
    FormatOfKeyDigits(k);
  }
}

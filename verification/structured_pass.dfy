/** The structured pass of `_parse_colors`: a walk over the rules and
    declarations a CSS tokenizer produced, turning every colour token of every
    declaration value into one event tagged with the declaration's property
    name. The tokenizer and colour parser are foreign; their output is the
    input here. */
module StructuredPass {
  import opened Common
  import opened Hex
  import opened Aggregator

  /** What the colour parser says of one value token: not a colour, the
      `currentColor` keyword, or a colour whose channels are already scaled to
      integers (possibly outside 0..255). */
  datatype Token = NotColor | CurrentColor | Rgba(red: int, green: int, blue: int)

  /** An entry of a declaration list: a declaration (lower-cased property name and
      value tokens), or anything else the list holds (an at-rule, a parse error). */
  datatype Item = Declaration(lowerName: string, value: seq<Token>) | OtherItem

  /** A top-level rule: one with a content block, or one without (`@import …;`). */
  datatype Rule = RuleWithContent(items: seq<Item>) | RuleWithoutContent

  /** The tokenizer's view of one CSS text. `raisedAfter` is `Some(n)` when an
      exception interrupted the walk after `n` events: events already added stay in
      the aggregate, the rest of that text is skipped. A text whose parse raises at
      once is `Some(0)`. */
  datatype TextParse = TextParse(rules: seq<Rule>, raisedAfter: Option<nat>)

  /** The key of a colour token: each channel clamped to 0..255, then `#rrggbb`. */
  function TokenKey(t: Token): (k: Option<string>)
    ensures k.Some? <==> t.Rgba?
    ensures k.Some? ==> IsKey(k.value)
  {
    match t
    case Rgba(r, g, b) => Some(FormatRgb(Rgb(Clamp(r), Clamp(g), Clamp(b))))
    case _ => None
  }

  /** Reading a token's key back gives the clamped channels. */
  lemma TokenKeyReadsBack(t: Token)
    requires t.Rgba?
    ensures HexToRgb(TokenKey(t).value) == Some(Rgb(Clamp(t.red), Clamp(t.green), Clamp(t.blue)))
  {
    HexToRgbFormat(Rgb(Clamp(t.red), Clamp(t.green), Clamp(t.blue)));
  }

  /** Number of tokens that parse to a colour (neither `NotColor` nor `currentColor`). */
  function ColorTokenCount(ts: seq<Token>): nat {
    if |ts| == 0 then 0 else (if ts[0].Rgba? then 1 else 0) + ColorTokenCount(ts[1..])
  }

  /** One event per colour token of a declaration value, tagged with the property name. */
  function TokenEvents(name: string, ts: seq<Token>): (es: seq<Event>)
    ensures |es| == ColorTokenCount(ts)
    ensures forall i | 0 <= i < |es| :: IsKey(es[i].key) && es[i].tag == name
  {
    if |ts| == 0 then []
    else
      var rest := TokenEvents(name, ts[1..]);
      match TokenKey(ts[0])
      case Some(k) => [Event(k, name)] + rest
      case None => rest
  }

  function ItemEvents(item: Item): (es: seq<Event>)
    ensures forall i | 0 <= i < |es| :: IsKey(es[i].key)
  {
    match item
    case Declaration(name, value) => TokenEvents(name, value)
    case OtherItem => []
  }

  function ItemsEvents(items: seq<Item>): (es: seq<Event>)
    ensures forall i | 0 <= i < |es| :: IsKey(es[i].key)
  {
    if |items| == 0 then [] else ItemEvents(items[0]) + ItemsEvents(items[1..])
  }

  function RulesEvents(rules: seq<Rule>): (es: seq<Event>)
    ensures forall i | 0 <= i < |es| :: IsKey(es[i].key)
  {
    if |rules| == 0 then []
    else
      (match rules[0]
       case RuleWithContent(items) => ItemsEvents(items)
       case RuleWithoutContent => [])
      + RulesEvents(rules[1..])
  }

  /** The events one CSS text contributes to the structured pass: the full walk,
      or the part of it before the exception. */
  function StructuredEvents(p: TextParse): (es: seq<Event>)
    ensures forall i | 0 <= i < |es| :: IsKey(es[i].key)
    ensures |es| <= |RulesEvents(p.rules)| && es == RulesEvents(p.rules)[..|es|]
    ensures p.raisedAfter.None? ==> es == RulesEvents(p.rules)
    ensures p.raisedAfter == Some(0) ==> es == []
  {
    var all := RulesEvents(p.rules);
    match p.raisedAfter
    case None => all
    case Some(n) => if n <= |all| then all[..n] else all
  }

  /** `currentColor` never produces an event: removing every `currentColor`
      token from a declaration value leaves its events unchanged. */
  lemma {:induction false} CurrentColorIgnored(name: string, ts: seq<Token>)
    ensures TokenEvents(name, ts) == TokenEvents(name, WithoutCurrentColor(ts))
  {
    if |ts| > 0 {
      CurrentColorIgnored(name, ts[1..]);
      var w := WithoutCurrentColor(ts);
      if ts[0] != CurrentColor {
        assert w == [ts[0]] + WithoutCurrentColor(ts[1..]);
        assert w[0] == ts[0] && w[1..] == WithoutCurrentColor(ts[1..]);
        assert TokenEvents(name, w) ==
          (match TokenKey(ts[0]) case Some(k) => [Event(k, name)] case None => [])
          + TokenEvents(name, w[1..]);
      } else {
        assert w == WithoutCurrentColor(ts[1..]);
      }
    }
  }

  function WithoutCurrentColor(ts: seq<Token>): seq<Token> {
    if |ts| == 0 then []
    else (if ts[0] == CurrentColor then [] else [ts[0]]) + WithoutCurrentColor(ts[1..])
  }

  /** The keys of a value's colour tokens, in order. */
  function ColorKeys(ts: seq<Token>): (ks: seq<string>)
    ensures |ks| == ColorTokenCount(ts)
  {
    if |ts| == 0 then []
    else (if ts[0].Rgba? then [TokenKey(ts[0]).value] else []) + ColorKeys(ts[1..])
  }

  /** The events of a declaration are exactly the keys of its colour tokens, in
      order, each tagged with the property name. */
  lemma {:induction false} TokenEventsKeys(name: string, ts: seq<Token>)
    ensures forall i | 0 <= i < |TokenEvents(name, ts)| :: TokenEvents(name, ts)[i] == Event(ColorKeys(ts)[i], name)
  {
    if |ts| > 0 {
      TokenEventsKeys(name, ts[1..]);
      var es := TokenEvents(name, ts);
      var rest := TokenEvents(name, ts[1..]);
      if ts[0].Rgba? {
        var k := TokenKey(ts[0]).value;
        assert es == [Event(k, name)] + rest;
        assert ColorKeys(ts) == [k] + ColorKeys(ts[1..]);
      } else {
        assert es == rest;
        assert ColorKeys(ts) == ColorKeys(ts[1..]);
      }
    }
  }
}

/** `_parse_colors` as a whole: the structured pass over every CSS text, then the
    regex pass over every text, both feeding one aggregate. Python inserts the
    structured events first, which fixes the insertion order ties depend on. */
module Extract {
  import opened Common
  import opened Hex
  import opened Aggregator
  import opened RegexPass
  import opened StructuredPass

  /** One CSS text and what the tokenizer made of it. */
  datatype Source = Source(text: string, parse: TextParse)

  /** The CSS source the fetcher builds from an inline `style` attribute. */
  function InlineStyleText(style: string): string {
    "dummy { " + style + " }"
  }

  /** The regex-pass events of one text, each tagged `"regex"`. */
  function RegexEvents(text: string): (es: seq<Event>)
    ensures |es| == |RegexKeys(text)|
    ensures forall i | 0 <= i < |es| :: es[i] == Event(RegexKeys(text)[i], "regex")
  {
    var ks := RegexKeys(text);
    seq(|ks|, i requires 0 <= i < |ks| => Event(ks[i], "regex"))
  }

  function StructuredAll(srcs: seq<Source>): (es: seq<Event>)
    ensures forall i | 0 <= i < |es| :: IsKey(es[i].key)
  {
    if |srcs| == 0 then [] else StructuredEvents(srcs[0].parse) + StructuredAll(srcs[1..])
  }

  function RegexAll(srcs: seq<Source>): (es: seq<Event>)
    ensures forall i | 0 <= i < |es| :: IsKey(es[i].key) && es[i].tag == "regex"
  {
    if |srcs| == 0 then [] else RegexEvents(srcs[0].text) + RegexAll(srcs[1..])
  }

  /** The full event stream: every structured event, then every regex event. */
  function Events(srcs: seq<Source>): (es: seq<Event>)
    ensures forall i | 0 <= i < |es| :: IsKey(es[i].key)
  {
    StructuredAll(srcs) + RegexAll(srcs)
  }

  /** The count a key has in an aggregate, 0 when absent. */
  function CountIn(a: Agg, k: string): nat {
    if k in a.data then a.data[k].count else 0
  }

  /** `_parse_colors(css_texts)`: every key is a normalized hex key, and the counts
      add up to the number of structured events plus the number of regex matches. */
  function ParseColors(srcs: seq<Source>): (a: Agg)
    ensures Valid(a)
    ensures forall k | k in a.data :: IsKey(k)
    ensures Total(a) == |StructuredAll(srcs)| + |RegexAll(srcs)|
  {
    var es := Events(srcs);
    AggregateKeys(es);
    TotalIsEventCount(es);
    forall k | Occurrences(es, k) > 0 ensures IsKey(k) {
      FirstIndexSpec(es, k);
      var i := FirstIndex(es, k).value;
      LowerOfKey(es[i].key);
    }
    Aggregate(es)
  }

  lemma LowerOfKey(k: string)
    requires IsKey(k)
    ensures Lower(k) == k
  {
    forall i | 1 <= i < 7 ensures Lower(k)[i] == k[i] {
      LowerHexDigit(k[i]);
    }
  }

  lemma CountInAggregate(es: seq<Event>, k: string)
    ensures CountIn(Aggregate(es), k) == Occurrences(es, k)
  {
    AggregateKeys(es);
    AggregateCounts(es);
  }

  lemma CountInParseColors(srcs: seq<Source>, k: string)
    ensures CountIn(ParseColors(srcs), k) == Occurrences(Events(srcs), k)
  {
    assert ParseColors(srcs) == Aggregate(Events(srcs));
    CountInAggregate(Events(srcs), k);
  }

  lemma OneSourceEvents(src: Source)
    ensures Events([src]) == StructuredEvents(src.parse) + RegexEvents(src.text)
  {
    OneSourceStructured(src);
    OneSourceRegex(src);
  }

  lemma OneSourceStructured(src: Source)
    ensures StructuredAll([src]) == StructuredEvents(src.parse)
  {
    var ss := [src];
    assert ss[1..] == [];
    assert StructuredAll(ss[1..]) == [];
  }

  lemma OneSourceRegex(src: Source)
    ensures RegexAll([src]) == RegexEvents(src.text)
  {
    var ss := [src];
    assert ss[1..] == [];
    assert RegexAll(ss[1..]) == [];
  }

  // ---------------------------------------------------------------------------
  // Both passes over every text, and their results add up

  lemma {:induction false} StructuredAllAppend(xs: seq<Source>, ys: seq<Source>)
    ensures StructuredAll(xs + ys) == StructuredAll(xs) + StructuredAll(ys)
  {
    if |xs| > 0 {
      assert (xs + ys)[1..] == xs[1..] + ys;
      StructuredAllAppend(xs[1..], ys);
    } else {
      assert xs + ys == ys;
    }
  }

  lemma {:induction false} RegexAllAppend(xs: seq<Source>, ys: seq<Source>)
    ensures RegexAll(xs + ys) == RegexAll(xs) + RegexAll(ys)
  {
    if |xs| > 0 {
      assert (xs + ys)[1..] == xs[1..] + ys;
      RegexAllAppend(xs[1..], ys);
    } else {
      assert xs + ys == ys;
    }
  }

  lemma EventsAdditive(xs: seq<Source>, ys: seq<Source>, k: string)
    ensures Occurrences(Events(xs + ys), k) == Occurrences(Events(xs), k) + Occurrences(Events(ys), k)
  {
    StructuredAllAppend(xs, ys);
    RegexAllAppend(xs, ys);
    OccurrencesRegroup(StructuredAll(xs), StructuredAll(ys), RegexAll(xs), RegexAll(ys), k);
  }

  /** The counts for a list of texts are the sums of the counts each part of the
      list would give on its own: no event is dropped or merged across texts. */
  lemma ParseColorsAdditive(xs: seq<Source>, ys: seq<Source>, k: string)
    ensures CountIn(ParseColors(xs + ys), k) == CountIn(ParseColors(xs), k) + CountIn(ParseColors(ys), k)
  {
    EventsAdditive(xs, ys, k);
    CountInParseColors(xs + ys, k);
    CountInParseColors(xs, k);
    CountInParseColors(ys, k);
  }

  /** One text's counts: its structured events plus its regex matches. */
  lemma SingleSourceCount(src: Source, k: string)
    ensures CountIn(ParseColors([src]), k)
         == Occurrences(StructuredEvents(src.parse), k) + Occurrences(RegexEvents(src.text), k)
  {
    OneSourceEvents(src);
    OccurrencesAppend(StructuredEvents(src.parse), RegexEvents(src.text), k);
    CountInParseColors([src], k);
  }

  /** A structured-parse failure on one text removes only that text's structured
      events: every other text, and the regex pass over the failing one, still count. */
  lemma FailureIsolated(pre: seq<Source>, src: Source, post: seq<Source>, k: string)
    ensures var failed := Source(src.text, TextParse(src.parse.rules, Some(0)));
      CountIn(ParseColors(pre + [failed] + post), k) + Occurrences(StructuredEvents(src.parse), k)
        == CountIn(ParseColors(pre + [src] + post), k)
  {
    var failed := Source(src.text, TextParse(src.parse.rules, Some(0)));
    ParseColorsAdditive(pre + [failed], post, k);
    ParseColorsAdditive(pre, [failed], k);
    ParseColorsAdditive(pre + [src], post, k);
    ParseColorsAdditive(pre, [src], k);
    SingleSourceCount(failed, k);
    SingleSourceCount(src, k);
    assert StructuredEvents(failed.parse) == [];
  }

  /** The text `h1{color:#ff0000}` with the tokenizer's reading of it. */
  function ColorDeclExample(): Source {
    Source("h1{color:#ff0000}",
           TextParse([RuleWithContent([Declaration("color", [Rgba(255, 0, 0)])])], None))
  }

  lemma ExampleStructured()
    ensures StructuredEvents(ColorDeclExample().parse) == [Event("#ff0000", "color")]
  {
    assert FormatRgb(Rgb(255, 0, 0)) == "#ff0000";
    assert TokenKey(Rgba(255, 0, 0)) == Some("#ff0000");
    assert TokenEvents("color", [Rgba(255, 0, 0)]) == [Event("#ff0000", "color")];
    var items := [Declaration("color", [Rgba(255, 0, 0)])];
    assert ItemsEvents(items) == [Event("#ff0000", "color")];
    assert RulesEvents([RuleWithContent(items)]) == [Event("#ff0000", "color")];
  }

  lemma ExampleRegex()
    ensures RegexEvents(ColorDeclExample().text) == [Event("#ff0000", "regex")]
  {
    assert ColorDeclExample().text == "h1{color:" + "#ff0000" + "}";
    KeyInContext("h1{color:", "#ff0000", "}");
    NoHashNoKeys("}", 0);
    assert RegexKeys(ColorDeclExample().text) == ["#ff0000"];
  }

  lemma ColorDeclExampleEvents()
    ensures Events([ColorDeclExample()]) == [Event("#ff0000", "color"), Event("#ff0000", "regex")]
  {
    OneSourceEvents(ColorDeclExample());
    ExampleStructured();
    ExampleRegex();
  }

  /** Two events for one key under different tags give one entry counted twice. */
  lemma TwoEventsAggregate(k: string, t1: string, t2: string)
    requires Lower(k) == k && t1 != t2
    ensures Aggregate([Event(k, t1), Event(k, t2)]) == Agg([k], map[k := Obs(2, [t1, t2])])
  {
    var es := [Event(k, t1), Event(k, t2)];
    assert es[..1] == [Event(k, t1)];
    assert es[..1][..0] == [];
    var a0 := Agg([], map[]);
    assert Aggregate(es[..1][..0]) == a0;
    var a1 := AddColor(a0, Event(k, t1));
    assert a1 == Agg([] + [k], map[][k := Obs(1, [t1])]);
    assert Aggregate(es[..1]) == a1;
    assert t2 !in [t1];
    assert [t1] + [t2] == [t1, t2];
    assert AddColor(a1, Event(k, t2)) == Agg([k], map[k := Obs(2, [t1, t2])]);
    assert es[..|es| - 1] == es[..1] && es[|es| - 1] == Event(k, t2);
  }

  /** A declaration `color:#ff0000` is counted by both passes: count 2, tags
      `color` and `regex`. */
  lemma BothPassesCount()
    ensures ParseColors([ColorDeclExample()]) == Agg(["#ff0000"], map["#ff0000" := Obs(2, ["color", "regex"])])
  {
    ColorDeclExampleEvents();
    assert ParseColors([ColorDeclExample()]) == Aggregate(Events([ColorDeclExample()]));
    LowerOfKey("#ff0000");
    TwoEventsAggregate("#ff0000", "color", "regex");
  }

  /** Wrapping an inline `style` attribute as `dummy { … }` leaves the regex pass
      unchanged: the wrapper adds no `#` and separates the text by spaces. */
  lemma InlineStyleRegexKeys(style: string)
    ensures RegexKeys(InlineStyleText(style)) == RegexKeys(style)
  {
    var p := "dummy { ";
    var q := " }";
    var s := InlineStyleText(style);
    assert s == p + (style + q);
    NoHashBefore(s, 0, |p|);
    ScanSuffix(p, style + q, 0);
    ScanPrefixUnchanged(style, q, 0);
  }
}

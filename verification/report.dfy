/** `extract_colors_from_url` once the CSS texts are in hand: aggregate both
    passes, suggest a palette, and list the most frequent colours. */
module ColorReport {
  import opened Common
  import opened Hex
  import opened Aggregator
  import opened StableSort
  import opened StructuredPass
  import opened Extract
  import opened Classify
  import opened Rank

  /** The returned dict: `suggested` and `all_colors`. */
  datatype Report = Report(suggested: Palette, allColors: seq<ColorEntry>)

  /** The default `top_n`. */
  const DefaultTopN: int := 20

  /** `_parse_colors` yields only normalized hex keys, so it can be categorized. */
  lemma ParseColorsWellKeyed(srcs: seq<Source>)
    ensures WellKeyed(ParseColors(srcs))
  {
  }

  /** The report for the CSS texts of a page. */
  function ExtractColors(srcs: seq<Source>, topN: int): (r: Report)
    ensures 0 <= topN ==> |r.allColors| <= topN
    ensures |r.allColors| <= |ParseColors(srcs).order|
    ensures forall i | 0 <= i < |r.allColors| :: |r.allColors[i].properties| <= 5
  {
    var a := ParseColors(srcs);
    ParseColorsWellKeyed(srcs);
    var top := TopColors(a, topN);
    TopColorsProperties(a, topN);
    Report(Categorize(a), top)
  }

  /** A page without a single colour (no colour tokens, no hex literals) gets the
      default palette and an empty colour list. */
  lemma NoColoursGivesDefaults(srcs: seq<Source>, topN: int)
    requires Events(srcs) == []
    ensures ExtractColors(srcs, topN) == Report(Defaults, [])
  {
    var a := ParseColors(srcs);
    assert a == Aggregate([]);
    assert a == Agg([], map[]);
    EmptyGivesDefaults();
  }

  /** `h1{color:#ff0000}`: red is counted twice, is dark enough (brightness about
      76) and `color`-tagged, so it becomes the text colour; every other role keeps
      its default. */
  lemma RedHeadingReport()
    ensures ExtractColors([ColorDeclExample()], DefaultTopN)
         == Report(Palette("#ffffff", "#ff0000", "#3b82f6", "#10b981", "#f59e0b"),
                   [ColorEntry("#ff0000", 2, ["color", "regex"])])
  {
    var srcs := [ColorDeclExample()];
    ReportParts(srcs, DefaultTopN);
    RedParse();
    RedCategorize();
    RedTop();
  }

  /** The report is the palette and the top rows of one and the same aggregate. */
  lemma ReportParts(srcs: seq<Source>, topN: int)
    ensures WellKeyed(ParseColors(srcs))
    ensures ExtractColors(srcs, topN) == Report(Categorize(ParseColors(srcs)), TopColors(ParseColors(srcs), topN))
  {
  }

  lemma RedParse()
    ensures ParseColors([ColorDeclExample()]) == RedAgg()
  {
    BothPassesCount();
  }

  function RedAgg(): Agg {
    Agg(["#ff0000"], map["#ff0000" := Obs(2, ["color", "regex"])])
  }

  lemma RedCategorize()
    ensures WellKeyed(RedAgg())
    ensures Categorize(RedAgg()) == Palette("#ffffff", "#ff0000", "#3b82f6", "#10b981", "#f59e0b")
  {
    var a := RedAgg();
    RedPlacement(a);
    assert BucketOf(a, Background) == [];
    assert BucketOf(a, Text) == [Entry("#ff0000", 2, 0)];
    assert BucketOf(a, Accent) == [];
  }

  lemma RedTop()
    ensures Valid(RedAgg())
    ensures TopColors(RedAgg(), DefaultTopN) == [ColorEntry("#ff0000", 2, ["color", "regex"])]
  {
    var a := RedAgg();
    RedPlacement(a);
    var top := TopColors(a, DefaultTopN);
    assert |top| == 1;
    assert CountEntries(a) == [Entry("#ff0000", 2, 0)];
    assert Ranked(a) == [Entry("#ff0000", 2, 0)];
    assert top[0].hex == "#ff0000";
    assert top[0].count == 2;
    assert top[0].properties == Prefix(["color", "regex"], 5);
    assert Prefix(["color", "regex"], 5) == ["color", "regex"];
    assert top == [top[0]];
  }

  lemma RedPlacement(a: Agg)
    requires a == Agg(["#ff0000"], map["#ff0000" := Obs(2, ["color", "regex"])])
    ensures WellKeyed(a)
    ensures Placements(a) == [Placement(Text, 2)]
  {
    assert "color" != "regex" by { assert "color"[0] != "regex"[0]; }
    assert Distinct(["color", "regex"]);
    assert IsKey("#ff0000");
    assert a.data.Keys == (set k | k in a.order);
    assert KeyRgb("#ff0000") == Rgb(255, 0, 0);
    assert !MentionsBackground(["color", "regex"]) by {
      assert Find("color", "background", 0).None?;
      assert Find("regex", "background", 0).None?;
    }
    assert Placed(a, "#ff0000") == Placement(Text, 2);
    assert Placements(a)[0] == Placed(a, "#ff0000");
  }
}

/** The `all_colors` half of `extract_colors_from_url`: the aggregate's colours
    stably sorted by count, descending, cut to `top_n`, each with at most five
    of its property tags. */
module Rank {
  import opened Common
  import opened Aggregator
  import opened StableSort

  /** One row of `all_colors`. */
  datatype ColorEntry = ColorEntry(hex: string, count: nat, properties: seq<string>)

  /** The `color_data.items()` as sort candidates, weighted by count. */
  function CountEntries(a: Agg): (es: seq<Entry>)
    requires Valid(a)
    ensures |es| == |a.order|
    ensures forall i | 0 <= i < |es| :: a.order[i] in a.data && es[i] == Entry(a.order[i], a.data[a.order[i]].count, i)
    ensures DistinctPos(es)
  {
    InOrderInData(a);
    seq(|a.order|, i requires 0 <= i < |a.order| => Entry(a.order[i], a.data[a.order[i]].count, i))
  }

  /** Every colour, heaviest first, ties in insertion order. */
  function Ranked(a: Agg): seq<Entry>
    requires Valid(a)
  {
    SortDesc(CountEntries(a))
  }

  /** A ranked entry as an `all_colors` row: `list(properties)[:5]`. */
  function Row(a: Agg, e: Entry): ColorEntry
    requires e.key in a.data
  {
    ColorEntry(e.key, a.data[e.key].count, Prefix(a.data[e.key].tags, 5))
  }

  /** Members of the ranking are the aggregate's colours, weighted by their counts. */
  lemma RankedEntries(a: Agg)
    requires Valid(a)
    ensures forall e | e in Ranked(a) :: e.key in a.data && e.weight == a.data[e.key].count
    ensures forall i, j | 0 <= i < j < |Ranked(a)| :: Ranked(a)[i].key != Ranked(a)[j].key
    ensures forall k | k in a.data :: exists j | 0 <= j < |Ranked(a)| :: Ranked(a)[j].key == k
  {
    RankedWeights(a);
    RankedDistinct(a);
    RankedComplete(a);
  }

  lemma RankedWeights(a: Agg)
    requires Valid(a)
    ensures forall e | e in Ranked(a) :: e.key in a.data && e.weight == a.data[e.key].count
  {
    var es := CountEntries(a);
    SortedMembers(es);
    forall e | e in Ranked(a) ensures e.key in a.data && e.weight == a.data[e.key].count {
      var i :| 0 <= i < |es| && es[i] == e;
    }
  }

  /** Distinct positions in `CountEntries` come with distinct keys. */
  lemma RankedDistinct(a: Agg)
    requires Valid(a)
    ensures forall i, j | 0 <= i < j < |Ranked(a)| :: Ranked(a)[i].key != Ranked(a)[j].key
  {
    var es := CountEntries(a);
    var r := Ranked(a);
    SortedMembers(es);
    forall i, j | 0 <= i < j < |r| ensures r[i].key != r[j].key {
      assert r[i] in r && r[j] in r;
      var p :| 0 <= p < |es| && es[p] == r[i];
      var q :| 0 <= q < |es| && es[q] == r[j];
      assert Before(r[i], r[j]);
      assert p != q;
    }
  }

  lemma RankedComplete(a: Agg)
    requires Valid(a)
    ensures forall k | k in a.data :: exists j | 0 <= j < |Ranked(a)| :: Ranked(a)[j].key == k
  {
    var es := CountEntries(a);
    var r := Ranked(a);
    SortedMembers(es);
    forall k | k in a.data ensures exists j | 0 <= j < |r| :: r[j].key == k {
      assert k in (set x | x in a.order);
      var p :| 0 <= p < |a.order| && a.order[p] == k;
      assert es[p] in r;
      var j :| 0 <= j < |r| && r[j] == es[p];
    }
  }

  /** `sorted(color_data.items(), key=-count)[:top_n]` as rows. */
  function TopColors(a: Agg, topN: int): (r: seq<ColorEntry>)
    requires Valid(a)
    ensures 0 <= topN ==> |r| == if topN <= |a.order| then topN else |a.order|
    ensures topN < 0 ==> |r| == if |a.order| + topN >= 0 then |a.order| + topN else 0
    ensures forall i | 0 <= i < |r| :: r[i].hex == Ranked(a)[i].key && r[i].hex in a.data
    ensures forall i | 0 <= i < |r| ::
      r[i].count == a.data[r[i].hex].count && r[i].properties == Prefix(a.data[r[i].hex].tags, 5)
  {
    var ranked := Ranked(a);
    RankedEntries(a);
    var top := Prefix(ranked, topN);
    seq(|top|, i requires 0 <= i < |top| => Row(a, ranked[i]))
  }

  /** Each row's count is the weight its ranked entry was sorted by. */
  lemma TopColorsWeights(a: Agg, topN: int)
    requires Valid(a)
    ensures |TopColors(a, topN)| <= |Ranked(a)|
    ensures forall i | 0 <= i < |TopColors(a, topN)| :: TopColors(a, topN)[i].count == Ranked(a)[i].weight
  {
    var r := TopColors(a, topN);
    var ranked := Ranked(a);
    RankedWeights(a);
    forall i | 0 <= i < |r| ensures r[i].count == ranked[i].weight {
      assert ranked[i] in ranked;
    }
  }

  /** No colour appears twice, and the rows are heaviest first. */
  lemma TopColorsRanked(a: Agg, topN: int)
    requires Valid(a)
    ensures var r := TopColors(a, topN);
      forall i, j | 0 <= i < j < |r| :: r[i].count >= r[j].count && r[i].hex != r[j].hex
  {
    var r := TopColors(a, topN);
    var ranked := Ranked(a);
    TopColorsWeights(a, topN);
    RankedDistinct(a);
    forall i, j | 0 <= i < j < |r| ensures r[i].count >= r[j].count && r[i].hex != r[j].hex {
      assert Before(ranked[i], ranked[j]);
    }
  }

  /** The property lists: at most five tags, all of them the colour's, and every
      tag of a colour that has no more than five. */
  lemma TopColorsProperties(a: Agg, topN: int)
    requires Valid(a)
    ensures forall i | 0 <= i < |TopColors(a, topN)| ::
      var row := TopColors(a, topN)[i];
      && |row.properties| <= 5
      && (set t | t in row.properties) <= Props(a.data[row.hex])
      && (|Props(a.data[row.hex])| <= 5 ==> (set t | t in row.properties) == Props(a.data[row.hex]))
  {
    var r := TopColors(a, topN);
    forall i | 0 <= i < |r|
      ensures |r[i].properties| <= 5
      ensures (set t | t in r[i].properties) <= Props(a.data[r[i].hex])
      ensures |Props(a.data[r[i].hex])| <= 5 ==> (set t | t in r[i].properties) == Props(a.data[r[i].hex])
    {
      var o := a.data[r[i].hex];
      var ps := r[i].properties;
      assert ps == Prefix(o.tags, 5);
      if |Props(o)| <= 5 {
        DistinctCard(o.tags);
        assert ps == o.tags;
      }
    }
  }

  /** Distinct tags are as many as their set. */
  lemma {:induction false} DistinctCard(s: seq<string>)
    requires Distinct(s)
    ensures |set t | t in s| == |s|
  {
    if |s| > 0 {
      var rest := s[1..];
      assert Distinct(rest);
      DistinctCard(rest);
      assert (set t | t in s) == (set t | t in rest) + {s[0]};
      assert s[0] !in (set t | t in rest);
    }
  }

  /** The cut keeps the heaviest colours: every colour left out weighs no more than
      any colour kept. */
  lemma TopColorsAreTop(a: Agg, topN: int, k: string)
    requires Valid(a) && k in a.data
    requires forall i | 0 <= i < |TopColors(a, topN)| :: TopColors(a, topN)[i].hex != k
    ensures forall i | 0 <= i < |TopColors(a, topN)| :: TopColors(a, topN)[i].count >= a.data[k].count
  {
    var r := TopColors(a, topN);
    var ranked := Ranked(a);
    TopColorsWeights(a, topN);
    RankedComplete(a);
    RankedWeights(a);
    var j :| 0 <= j < |ranked| && ranked[j].key == k;
    assert ranked[j] in ranked;
    assert forall i | 0 <= i < |r| :: ranked[i].key != k;
    assert j >= |r|;
    forall i | 0 <= i < |r| ensures r[i].count >= a.data[k].count {
      assert Before(ranked[i], ranked[j]);
    }
  }
}

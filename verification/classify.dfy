/** `_categorize_colors`: every aggregated colour goes to exactly one of three
    candidate lists (background, text, accent) with a weight, each list is
    stably sorted by weight, and the palette roles are read off the heads of the
    lists, with fixed defaults for the roles a list is too short to fill. */
module Classify {
  import opened Common
  import opened Hex
  import opened Aggregator
  import opened StableSort

  /** The colour of a key, read digit pair by digit pair. */
  function KeyRgb(k: string): Rgb
    requires IsKey(k)
  {
    KeyDigits(k)
  }

  /** `_hex_to_rgb` on a key always succeeds, with byte channels, and gives
      the colour the key spells. */
  lemma KeyRgbIsHexToRgb(k: string)
    requires IsKey(k)
    ensures HexToRgb(k) == Some(KeyRgb(k)) && InByteRange(KeyRgb(k))
    ensures FormatRgb(KeyRgb(k)) == k
  {
    HexToRgbOfLiteral(k);
    FormatOfKeyDigits(k);
  }

  /** `_brightness` times 1000: `0.299 r + 0.587 g + 0.114 b` in exact integers,
      so the thresholds 240, 30, 200 and 80 become 240000, 30000, 200000 and 80000. */
  function Brightness1000(c: Rgb): (b: int)
    ensures InByteRange(c) ==> 0 <= b <= 255000
    ensures c.r == c.g == c.b ==> b == 1000 * c.r
  {
    299 * c.r + 587 * c.g + 114 * c.b
  }

  datatype Bucket = Background | Text | Accent

  /** The list a colour is appended to, and the weight it carries there. */
  datatype Placement = Placement(bucket: Bucket, weight: nat)

  /** `any("background" in p for p in props)`: some tag contains the substring. */
  predicate MentionsBackground(tags: seq<string>) {
    exists t | t in tags :: Find(t, "background", 0).Some?
  }

  /** `any(p == "color" for p in props)`. */
  predicate IsColorTagged(tags: seq<string>) {
    "color" in tags
  }

  /** The decision for one colour of brightness `bright` (times 1000): near-white
      and near-black first, then by property, with background-tagged mid-tones
      counted twice among the accents. */
  function Place(bright: int, o: Obs): Placement {
    if bright > 240000 then Placement(Background, o.count)
    else if bright < 30000 then Placement(Text, o.count)
    else if MentionsBackground(o.tags) then
      (if bright > 200000 then Placement(Background, o.count) else Placement(Accent, 2 * o.count))
    else if IsColorTagged(o.tags) then
      (if bright < 80000 then Placement(Text, o.count) else Placement(Accent, o.count))
    else Placement(Accent, o.count)
  }

  /** Which colours end up where, stated list by list. */
  lemma PlaceBuckets(bright: int, o: Obs)
    ensures Place(bright, o).bucket == Background <==>
      bright > 240000 || (30000 <= bright && MentionsBackground(o.tags) && bright > 200000)
    ensures Place(bright, o).bucket == Text <==>
      bright < 30000 || (bright <= 240000 && !MentionsBackground(o.tags) && IsColorTagged(o.tags) && bright < 80000)
    ensures Place(bright, o).weight ==
      if Place(bright, o).bucket == Accent && MentionsBackground(o.tags) then 2 * o.count else o.count
  {
  }

  // ---------------------------------------------------------------------------
  // The heuristic as a first-match rule table

  datatype Cond = BrighterThan(t: int) | DarkerThan(t: int) | SomeTagContains(s: string) | SomeTagIs(s: string)

  /** A rule: when every condition holds, the colour goes to `bucket` with its
      count times `factor`. */
  datatype Row = Row(when: seq<Cond>, bucket: Bucket, factor: nat)

  predicate Holds(c: Cond, bright: int, tags: seq<string>) {
    match c
    case BrighterThan(t) => bright > t
    case DarkerThan(t) => bright < t
    case SomeTagContains(s) => exists p | p in tags :: Find(p, s, 0).Some?
    case SomeTagIs(s) => s in tags
  }

  predicate AllHold(cs: seq<Cond>, bright: int, tags: seq<string>) {
    |cs| == 0 || (Holds(cs[0], bright, tags) && AllHold(cs[1..], bright, tags))
  }

  /** The heuristic of the docstring and comments, one row per outcome, read top down. */
  const Rules: seq<Row> := [
    Row([BrighterThan(240000)], Background, 1),
    Row([DarkerThan(30000)], Text, 1),
    Row([SomeTagContains("background"), BrighterThan(200000)], Background, 1),
    Row([SomeTagContains("background")], Accent, 2),
    Row([SomeTagIs("color"), DarkerThan(80000)], Text, 1),
    Row([SomeTagIs("color")], Accent, 1),
    Row([], Accent, 1)
  ]

  /** The placement the first matching row gives (an accent when none matches). */
  function Decide(rows: seq<Row>, i: nat, bright: int, o: Obs): Placement
    decreases |rows| - i
  {
    if i >= |rows| then Placement(Accent, o.count)
    else if AllHold(rows[i].when, bright, o.tags) then Placement(rows[i].bucket, rows[i].factor * o.count)
    else Decide(rows, i + 1, bright, o)
  }

  /** The nested branches of `_categorize_colors` are the rule table read top down. */
  lemma PlaceFollowsRules(bright: int, o: Obs)
    ensures Place(bright, o) == Decide(Rules, 0, bright, o)
  {
    var t := o.tags;
    var mb := MentionsBackground(t);
    var ct := IsColorTagged(t);
    assert Holds(SomeTagContains("background"), bright, t) == mb;
    assert AllHold(Rules[0].when, bright, t) == (bright > 240000);
    assert AllHold(Rules[1].when, bright, t) == (bright < 30000);
    assert AllHold(Rules[2].when, bright, t) == (mb && bright > 200000) by {
      assert Rules[2].when[1..] == [BrighterThan(200000)];
      assert AllHold(Rules[2].when[1..], bright, t) == (bright > 200000);
    }
    assert AllHold(Rules[3].when, bright, t) == mb;
    assert AllHold(Rules[4].when, bright, t) == (ct && bright < 80000) by {
      assert Rules[4].when[1..] == [DarkerThan(80000)];
      assert AllHold(Rules[4].when[1..], bright, t) == (bright < 80000);
    }
    assert AllHold(Rules[5].when, bright, t) == ct;
    assert AllHold(Rules[6].when, bright, t);
    if bright > 240000 || bright < 30000 {
    } else {
      assert Decide(Rules, 0, bright, o) == Decide(Rules, 2, bright, o);
      if mb {
      } else {
        assert Decide(Rules, 2, bright, o) == Decide(Rules, 4, bright, o);
        if !ct {
          assert Decide(Rules, 4, bright, o) == Decide(Rules, 6, bright, o);
        }
      }
    }
  }

  // ---------------------------------------------------------------------------
  // The three candidate lists

  /** An aggregate whose every key is a normalized hex key, as `_parse_colors` builds. */
  predicate WellKeyed(a: Agg) {
    Valid(a) && forall k | k in a.data :: IsKey(k)
  }

  /** The placement of a key of the aggregate. */
  function Placed(a: Agg, k: string): Placement
    requires WellKeyed(a) && k in a.data
  {
    Place(Brightness1000(KeyRgb(k)), a.data[k])
  }

  lemma OrderInData(a: Agg, p: nat)
    requires Valid(a) && p < |a.order|
    ensures a.order[p] in a.data
  {
    InOrderInData(a);
  }

  /** The placement of every key, in insertion order. */
  function Placements(a: Agg): (ps: seq<Placement>)
    requires WellKeyed(a)
    ensures |ps| == |a.order|
    ensures forall i | 0 <= i < |ps| :: a.order[i] in a.data && ps[i] == Placed(a, a.order[i])
  {
    InOrderInData(a);
    seq(|a.order|, i requires 0 <= i < |a.order| => Placed(a, a.order[i]))
  }

  /** The list for `which` after the first `n` keys: one entry per key placed
      there, in insertion order, carrying the key's position and weight. */
  function BucketFrom(order: seq<string>, ps: seq<Placement>, which: Bucket, n: nat): (es: seq<Entry>)
    requires |ps| == |order| && n <= |order|
    ensures forall i | 0 <= i < |es| :: es[i].pos < n
    ensures forall i | 0 <= i < |es| ::
      es[i].key == order[es[i].pos] && ps[es[i].pos].bucket == which && ps[es[i].pos].weight == es[i].weight
    ensures forall i, j | 0 <= i < j < |es| :: es[i].pos < es[j].pos
    ensures forall p | 0 <= p < n && ps[p].bucket == which :: Entry(order[p], ps[p].weight, p) in es
  {
    if n == 0 then []
    else
      var es := BucketFrom(order, ps, which, n - 1);
      if ps[n - 1].bucket == which then
        var r := es + [Entry(order[n - 1], ps[n - 1].weight, n - 1)];
        assert forall i | 0 <= i < |es| :: r[i] == es[i];
        assert r[|es|] == Entry(order[n - 1], ps[n - 1].weight, n - 1);
        r
      else es
  }

  /** The candidate list `which` of `_categorize_colors`, before sorting. */
  function BucketOf(a: Agg, which: Bucket): seq<Entry>
    requires WellKeyed(a)
  {
    BucketFrom(a.order, Placements(a), which, |a.order|)
  }

  /** Every colour lands in exactly one list: its key is in the list for `which`
      exactly when `which` is its placement. */
  lemma ExactlyOneBucket(a: Agg, k: string, which: Bucket)
    requires WellKeyed(a) && k in a.data
    ensures (exists i | 0 <= i < |BucketOf(a, which)| :: BucketOf(a, which)[i].key == k)
        <==> Placed(a, k).bucket == which
  {
    var es := BucketOf(a, which);
    var ps := Placements(a);
    assert k in (set x | x in a.order);
    var p :| 0 <= p < |a.order| && a.order[p] == k;
    assert ps[p] == Placed(a, k);
    if Placed(a, k).bucket == which {
      assert Entry(k, ps[p].weight, p) in es;
      var i :| 0 <= i < |es| && es[i] == Entry(k, ps[p].weight, p);
    }
    forall i | 0 <= i < |es| && es[i].key == k ensures Placed(a, k).bucket == which {
      assert ps[es[i].pos] == Placed(a, a.order[es[i].pos]);
    }
  }

  /** No key occurs twice in a list. */
  lemma BucketKeysDistinct(a: Agg, which: Bucket)
    requires WellKeyed(a)
    ensures DistinctPos(BucketOf(a, which))
    ensures forall i, j | 0 <= i < j < |BucketOf(a, which)| :: BucketOf(a, which)[i].key != BucketOf(a, which)[j].key
  {
    var es := BucketOf(a, which);
    forall i, j | 0 <= i < j < |es| ensures es[i].key != es[j].key {
      assert es[i].pos < es[j].pos < |a.order|;
    }
  }

  // ---------------------------------------------------------------------------
  // Picking the roles

  /** `e` heads list `b` once the keys in `excluded` are set aside: no other
      remaining entry outweighs it or ties with it from an earlier position. */
  predicate Leads(b: seq<Entry>, e: Entry, excluded: set<string>) {
    e in b && e.key !in excluded && forall x | x in b && x.key !in excluded && x != e :: Before(e, x)
  }

  /** The sorted list's first three entries are the successive leaders. */
  lemma SortedLeaders(b: seq<Entry>)
    requires DistinctPos(b)
    requires forall i, j | 0 <= i < j < |b| :: b[i].key != b[j].key
    ensures var r := SortDesc(b);
      && (|r| > 0 ==> Leads(b, r[0], {}))
      && (|r| > 1 ==> Leads(b, r[1], {r[0].key}))
      && (|r| > 2 ==> Leads(b, r[2], {r[0].key, r[1].key}))
  {
    var r := SortDesc(b);
    SortedMembers(b);
    SortedKeysDistinct(b);
    if |r| > 0 { LeaderAt(b, r, 0, {}); }
    if |r| > 1 { LeaderAt(b, r, 1, {r[0].key}); }
    if |r| > 2 { LeaderAt(b, r, 2, {r[0].key, r[1].key}); }
  }

  /** Sorting a list with distinct keys keeps them distinct. */
  lemma SortedKeysDistinct(b: seq<Entry>)
    requires DistinctPos(b)
    requires forall i, j | 0 <= i < j < |b| :: b[i].key != b[j].key
    ensures forall i, j | 0 <= i < j < |SortDesc(b)| :: SortDesc(b)[i].key != SortDesc(b)[j].key
  {
    var r := SortDesc(b);
    SortedMembers(b);
    forall i, j | 0 <= i < j < |r| ensures r[i].key != r[j].key {
      assert r[i] in r && r[j] in r;
      var p :| 0 <= p < |b| && b[p] == r[i];
      var q :| 0 <= q < |b| && b[q] == r[j];
      assert Before(r[i], r[j]);
      assert p != q;
    }
  }

  /** With the keys of the first `n` sorted entries set aside, entry `n` leads. */
  lemma LeaderAt(b: seq<Entry>, r: seq<Entry>, n: nat, excluded: set<string>)
    requires StableSort.Sorted(r) && n < |r|
    requires forall x :: x in r <==> x in b
    requires forall i, j | 0 <= i < j < |r| :: r[i].key != r[j].key
    requires forall j | 0 <= j < |r| && j < n :: r[j].key in excluded
    requires forall x | x in excluded :: exists j | 0 <= j < n :: r[j].key == x
    ensures Leads(b, r[n], excluded)
  {
    assert r[n] in r;
    forall x | x in b && x.key !in excluded && x != r[n] ensures Before(r[n], x) {
      assert x in r;
      var j :| 0 <= j < |r| && r[j] == x;
      assert j > n;
    }
  }

  /** The suggested palette: five hex strings. */
  datatype Palette = Palette(background: string, text: string, primary: string, secondary: string, accent: string)

  /** The roles filled when a list is too short. */
  const Defaults: Palette := Palette("#ffffff", "#1f2937", "#3b82f6", "#10b981", "#f59e0b")

  /** The key at index `i` of a list, or `default` when the list is shorter. */
  function KeyAt(s: seq<Entry>, i: nat, default: string): string {
    if |s| > i then s[i].key else default
  }

  function Sorted(a: Agg, which: Bucket): seq<Entry>
    requires WellKeyed(a)
  {
    BucketKeysDistinct(a, which);
    SortDesc(BucketOf(a, which))
  }

  /** `_categorize_colors(color_data)`: the key at the head of each sorted list
      (the first three for the accents), or the role's default. */
  function Categorize(a: Agg): Palette
    requires WellKeyed(a)
  {
    var bg := Sorted(a, Background);
    var tx := Sorted(a, Text);
    var ac := Sorted(a, Accent);
    Palette(KeyAt(bg, 0, Defaults.background), KeyAt(tx, 0, Defaults.text),
            KeyAt(ac, 0, Defaults.primary), KeyAt(ac, 1, Defaults.secondary), KeyAt(ac, 2, Defaults.accent))
  }

  /** The first three entries of a sorted list are its successive leaders. */
  lemma SortedBucketLeaders(a: Agg, which: Bucket)
    requires WellKeyed(a)
    ensures var b := BucketOf(a, which);
      var r := Sorted(a, which);
      && |r| == |b|
      && (|r| > 0 ==> Leads(b, r[0], {}))
      && (|r| > 1 ==> Leads(b, r[1], {r[0].key}))
      && (|r| > 2 ==> Leads(b, r[2], {r[0].key, r[1].key}))
  {
    BucketKeysDistinct(a, which);
    SortedLeaders(BucketOf(a, which));
  }

  /** The background is the leading colour of the background list, or white when
      that list is empty; likewise the text colour and its default. */
  lemma BackgroundAndTextRoles(a: Agg)
    requires WellKeyed(a)
    ensures var p := Categorize(a);
      var bg := BucketOf(a, Background);
      && (|bg| == 0 ==> p.background == Defaults.background)
      && (|bg| > 0 ==> exists e | e in bg :: e.key == p.background && Leads(bg, e, {}))
    ensures var p := Categorize(a);
      var tx := BucketOf(a, Text);
      && (|tx| == 0 ==> p.text == Defaults.text)
      && (|tx| > 0 ==> exists e | e in tx :: e.key == p.text && Leads(tx, e, {}))
  {
    SortedBucketLeaders(a, Background);
    SortedBucketLeaders(a, Text);
    var bg := Sorted(a, Background);
    var tx := Sorted(a, Text);
    if |bg| > 0 { assert Leads(BucketOf(a, Background), bg[0], {}); }
    if |tx| > 0 { assert Leads(BucketOf(a, Text), tx[0], {}); }
  }

  /** Primary, secondary and accent are the first, second and third leaders of
      the accent list (each once the earlier roles are set aside), or their
      defaults when the list is too short. */
  lemma AccentRoles(a: Agg)
    requires WellKeyed(a)
    ensures var p := Categorize(a);
      var ac := BucketOf(a, Accent);
      && (|ac| == 0 ==> p.primary == Defaults.primary)
      && (|ac| > 0 ==> exists e | e in ac :: e.key == p.primary && Leads(ac, e, {}))
      && (|ac| <= 1 ==> p.secondary == Defaults.secondary)
      && (|ac| > 1 ==> exists e | e in ac :: e.key == p.secondary && Leads(ac, e, {p.primary}))
      && (|ac| <= 2 ==> p.accent == Defaults.accent)
      && (|ac| > 2 ==> exists e | e in ac :: e.key == p.accent && Leads(ac, e, {p.primary, p.secondary}))
  {
    SortedBucketLeaders(a, Accent);
    var b := BucketOf(a, Accent);
    var r := Sorted(a, Accent);
    if |r| > 0 { assert Leads(b, r[0], {}); }
    if |r| > 1 { assert Leads(b, r[1], {r[0].key}); }
    if |r| > 2 { assert Leads(b, r[2], {r[0].key, r[1].key}); }
  }

  // ---------------------------------------------------------------------------
  // Consequences

  /** No colours at all: the defaults, every role. */
  lemma EmptyGivesDefaults()
    ensures WellKeyed(Agg([], map[]))
    ensures Categorize(Agg([], map[])) == Defaults
  {
  }

  /** The three accent roles are three different colours whenever the accent
      list is long enough to fill them. */
  lemma AccentRolesDistinct(a: Agg)
    requires WellKeyed(a)
    ensures var p := Categorize(a);
      |BucketOf(a, Accent)| > 2 ==> p.primary != p.secondary && p.secondary != p.accent && p.primary != p.accent
  {
    AccentRoles(a);
  }

  /** Every suggested role that is not a default is a colour of the aggregate. */
  lemma RolesFromData(a: Agg)
    requires WellKeyed(a)
    ensures var p := Categorize(a);
      && (|BucketOf(a, Background)| > 0 ==> p.background in a.data)
      && (|BucketOf(a, Text)| > 0 ==> p.text in a.data)
      && (|BucketOf(a, Accent)| > 0 ==> p.primary in a.data)
      && (|BucketOf(a, Accent)| > 1 ==> p.secondary in a.data)
      && (|BucketOf(a, Accent)| > 2 ==> p.accent in a.data)
  {
    BackgroundAndTextRoles(a);
    AccentRoles(a);
    BucketKeysInData(a, Background);
    BucketKeysInData(a, Text);
    BucketKeysInData(a, Accent);
  }

  lemma BucketKeysInData(a: Agg, which: Bucket)
    requires WellKeyed(a)
    ensures forall e | e in BucketOf(a, which) :: e.key in a.data
  {
    var es := BucketOf(a, which);
    InOrderInData(a);
    forall e | e in es ensures e.key in a.data {
      var i :| 0 <= i < |es| && es[i] == e;
      assert es[i].pos < |a.order|;
    }
  }

  /** Brightness 240 exactly is not "too bright": `#f0f0f0` seen only by the
      regex pass is an accent, while `#f1f1f1` is a background. */
  lemma BrightnessBoundary()
    ensures Brightness1000(KeyRgb("#f0f0f0")) == 240000
    ensures Brightness1000(KeyRgb("#f1f1f1")) == 241000
    ensures Place(240000, Obs(1, ["regex"])) == Placement(Accent, 1)
    ensures Place(241000, Obs(1, ["regex"])) == Placement(Background, 1)
  {
    assert KeyRgb("#f0f0f0") == Rgb(240, 240, 240);
    assert KeyRgb("#f1f1f1") == Rgb(241, 241, 241);
    assert !MentionsBackground(["regex"]) by {
      assert Find("regex", "background", 0).None?;
    }
  }

  /** A page with a white body background, near-black headings and a blue button
      background, each colour written once and so counted by both passes. */
  function ButtonPage(): Agg {
    Agg(["#ffffff", "#111111", "#3366ff"],
        map["#ffffff" := Obs(2, ["background-color", "regex"]),
            "#111111" := Obs(2, ["color", "regex"]),
            "#3366ff" := Obs(2, ["background-color", "regex"])])
  }

  /** White goes to the background, the near-black to the text, the mid-tone blue
      (brightness about 104) to the accents with doubled weight; secondary and
      accent keep their defaults. */
  lemma ButtonPagePalette()
    ensures WellKeyed(ButtonPage())
    ensures Categorize(ButtonPage()) == Palette("#ffffff", "#111111", "#3366ff", "#10b981", "#f59e0b")
  {
    ButtonPageWellKeyed();
    ButtonPageBuckets();
    SortSingleton(Entry("#ffffff", 2, 0));
    SortSingleton(Entry("#111111", 2, 1));
    SortSingleton(Entry("#3366ff", 4, 2));
  }

  /** A one-entry list sorts to itself. */
  lemma SortSingleton(e: Entry)
    ensures DistinctPos([e]) && SortDesc([e]) == [e]
  {
    assert [e][1..] == [];
  }

  lemma ButtonPageBuckets()
    ensures WellKeyed(ButtonPage())
    ensures BucketOf(ButtonPage(), Background) == [Entry("#ffffff", 2, 0)]
    ensures BucketOf(ButtonPage(), Text) == [Entry("#111111", 2, 1)]
    ensures BucketOf(ButtonPage(), Accent) == [Entry("#3366ff", 4, 2)]
  {
    ButtonPagePlacements();
    var a := ButtonPage();
    var ps := [Placement(Background, 2), Placement(Text, 2), Placement(Accent, 4)];
    assert BucketOf(a, Background) == BucketFrom(a.order, ps, Background, 3);
    assert BucketOf(a, Text) == BucketFrom(a.order, ps, Text, 3);
    assert BucketOf(a, Accent) == BucketFrom(a.order, ps, Accent, 3);
    ThreeBuckets(a.order, ps);
  }

  /** The three lists of three keys placed one per list. */
  lemma ThreeBuckets(order: seq<string>, ps: seq<Placement>)
    requires |order| == 3
    requires |ps| == 3 && ps[0].bucket == Background && ps[1].bucket == Text && ps[2].bucket == Accent
    ensures BucketFrom(order, ps, Background, 3) == [Entry(order[0], ps[0].weight, 0)]
    ensures BucketFrom(order, ps, Text, 3) == [Entry(order[1], ps[1].weight, 1)]
    ensures BucketFrom(order, ps, Accent, 3) == [Entry(order[2], ps[2].weight, 2)]
  {
    assert BucketFrom(order, ps, Background, 0) == [];
    assert BucketFrom(order, ps, Text, 0) == [];
    assert BucketFrom(order, ps, Accent, 0) == [];
    assert BucketFrom(order, ps, Text, 1) == [];
    assert BucketFrom(order, ps, Accent, 1) == [];
    assert BucketFrom(order, ps, Accent, 2) == [];
    assert BucketFrom(order, ps, Background, 2) == BucketFrom(order, ps, Background, 1);
  }

  lemma ButtonPageWellKeyed()
    ensures WellKeyed(ButtonPage())
  {
    assert "#ffffff" != "#111111" && "#ffffff" != "#3366ff" && "#111111" != "#3366ff" by {
      assert "#ffffff"[1] != "#111111"[1] && "#ffffff"[1] != "#3366ff"[1] && "#111111"[1] != "#3366ff"[1];
    }
    assert IsKey("#ffffff") && IsKey("#111111") && IsKey("#3366ff");
    assert "background-color" != "regex" && "color" != "regex" by {
      assert "background-color"[0] != "regex"[0] && "color"[0] != "regex"[0];
    }
    TwoTagObs("background-color", "regex");
    TwoTagObs("color", "regex");
    ThreeKeys("#ffffff", "#111111", "#3366ff",
      Obs(2, ["background-color", "regex"]), Obs(2, ["color", "regex"]), Obs(2, ["background-color", "regex"]));
  }

  lemma TwoTagObs(t1: string, t2: string)
    requires t1 != t2
    ensures Distinct([t1, t2])
  {
  }

  /** Three distinct keys, each observed under distinct tags at least as often as
      it has tags, make a well-keyed aggregate. */
  lemma ThreeKeys(k1: string, k2: string, k3: string, o1: Obs, o2: Obs, o3: Obs)
    requires k1 != k2 && k1 != k3 && k2 != k3
    requires IsKey(k1) && IsKey(k2) && IsKey(k3)
    requires Distinct(o1.tags) && o1.count >= |o1.tags| >= 1
    requires Distinct(o2.tags) && o2.count >= |o2.tags| >= 1
    requires Distinct(o3.tags) && o3.count >= |o3.tags| >= 1
    ensures WellKeyed(Agg([k1, k2, k3], map[k1 := o1, k2 := o2, k3 := o3]))
  {
    var a := Agg([k1, k2, k3], map[k1 := o1, k2 := o2, k3 := o3]);
    assert a.data.Keys == {k1, k2, k3};
    assert (set k | k in a.order) == {k1, k2, k3};
  }

  lemma ButtonPagePlacements()
    ensures WellKeyed(ButtonPage())
    ensures Placements(ButtonPage()) == [Placement(Background, 2), Placement(Text, 2), Placement(Accent, 4)]
  {
    ButtonPageWellKeyed();
    var a := ButtonPage();
    ButtonPageTags();
    ButtonPageColours();
    assert Placed(a, "#ffffff") == Placement(Background, 2);
    assert Placed(a, "#111111") == Placement(Text, 2);
    assert Placed(a, "#3366ff") == Placement(Accent, 4);
    var ps := Placements(a);
    assert ps[0] == Placed(a, "#ffffff");
    assert ps[1] == Placed(a, "#111111");
    assert ps[2] == Placed(a, "#3366ff");
  }

  lemma ButtonPageTags()
    ensures MentionsBackground(["background-color", "regex"])
    ensures !MentionsBackground(["color", "regex"])
    ensures IsColorTagged(["color", "regex"])
  {
    assert Find("background-color", "background", 0) == Some(0);
    assert Find("color", "background", 0).None?;
    assert Find("regex", "background", 0).None?;
  }

  lemma ButtonPageColours()
    ensures Brightness1000(KeyRgb("#ffffff")) == 255000
    ensures Brightness1000(KeyRgb("#111111")) == 17000
    ensures Brightness1000(KeyRgb("#3366ff")) == 104193
  {
    assert KeyRgb("#ffffff") == Rgb(255, 255, 255);
    assert KeyRgb("#111111") == Rgb(17, 17, 17);
    assert KeyRgb("#3366ff") == Rgb(51, 102, 255);
  }
}

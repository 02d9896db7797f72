/** The aggregator of `_parse_colors` (`_add_color`): a fold of `(hex, tag)`
    events into a map from key to occurrence count and tag set. Python dicts
    keep insertion order, which decides ties later on, so the map travels with
    the sequence of its keys in first-insertion order. */
module Aggregator {
  import opened Common

  datatype Event = Event(key: string, tag: string)

  /** One colour's observations: the count, and its tags without repeats in
      first-seen order (the Python set of properties). */
  datatype Obs = Obs(count: nat, tags: seq<string>)

  /** The `color_data` dict: its keys in insertion order, and their entries. */
  datatype Agg = Agg(order: seq<string>, data: map<string, Obs>)

  function Props(o: Obs): set<string> {
    set t | t in o.tags
  }

  predicate Distinct<T(==)>(s: seq<T>) {
    forall i, j | 0 <= i < j < |s| :: s[i] != s[j]
  }

  /** Every entry has been observed at least once, under at least one tag and
      never more tags than observations; the order lists each key once. */
  predicate Valid(a: Agg) {
    && Distinct(a.order)
    && a.data.Keys == (set k | k in a.order)
    && (forall k | k in a.data :: Distinct(a.data[k].tags) && a.data[k].count >= |a.data[k].tags| >= 1)
  }

  /** The key an event is stored under: `hex_color.lower()`. */
  function KeyOf(e: Event): string {
    Lower(e.key)
  }

  /** `_add_color(hex_color, prop)`: one more observation of the key, under `prop`;
      every other entry and the position of existing keys stay as they were. */
  function AddColor(a: Agg, e: Event): (r: Agg)
    requires Valid(a)
    ensures Valid(r)
    ensures KeyOf(e) in r.data && e.tag in r.data[KeyOf(e)].tags
    ensures KeyOf(e) in a.data ==> r.data[KeyOf(e)].count == a.data[KeyOf(e)].count + 1
    ensures KeyOf(e) in a.data ==> Props(r.data[KeyOf(e)]) == Props(a.data[KeyOf(e)]) + {e.tag}
    ensures KeyOf(e) in a.data ==> r.order == a.order
    ensures KeyOf(e) !in a.data ==> r.data[KeyOf(e)] == Obs(1, [e.tag]) && r.order == a.order + [KeyOf(e)]
    ensures forall k | k in a.data && k != KeyOf(e) :: k in r.data && r.data[k] == a.data[k]
    ensures r.data.Keys == a.data.Keys + {KeyOf(e)}
  {
    var k := KeyOf(e);
    if k in a.data then
      var o := a.data[k];
      var tags := if e.tag in o.tags then o.tags else o.tags + [e.tag];
      assert Props(Obs(0, tags)) == Props(o) + {e.tag};
      Agg(a.order, a.data[k := Obs(o.count + 1, tags)])
    else
      Agg(a.order + [k], a.data[k := Obs(1, [e.tag])])
  }

  /** The aggregate after all events, folded in order. */
  function Aggregate(events: seq<Event>): (a: Agg)
    ensures Valid(a)
  {
    if |events| == 0 then Agg([], map[])
    else AddColor(Aggregate(events[..|events| - 1]), events[|events| - 1])
  }

  // ---------------------------------------------------------------------------
  // Reference definitions over the event sequence

  /** How many events are stored under `k`. */
  function Occurrences(events: seq<Event>, k: string): nat {
    if |events| == 0 then 0
    else Occurrences(events[..|events| - 1], k) + (if KeyOf(events[|events| - 1]) == k then 1 else 0)
  }

  /** The tags of the events stored under `k`. */
  function TagsSeen(events: seq<Event>, k: string): set<string> {
    set i | 0 <= i < |events| && KeyOf(events[i]) == k :: events[i].tag
  }

  /** Index of the first event stored under `k`, if any. */
  function FirstIndex(events: seq<Event>, k: string): Option<nat> {
    if |events| == 0 then None
    else
      match FirstIndex(events[..|events| - 1], k)
      case Some(i) => Some(i)
      case None => if KeyOf(events[|events| - 1]) == k then Some(|events| - 1) else None
  }

  lemma {:induction false} FirstIndexSpec(events: seq<Event>, k: string)
    ensures FirstIndex(events, k).Some? <==> Occurrences(events, k) > 0
    ensures FirstIndex(events, k).Some? ==>
      FirstIndex(events, k).value < |events| && KeyOf(events[FirstIndex(events, k).value]) == k
  {
    if |events| > 0 {
      FirstIndexSpec(events[..|events| - 1], k);
    }
  }

  lemma {:induction false} TagsSeenStep(events: seq<Event>, k: string)
    requires |events| > 0
    ensures TagsSeen(events, k) ==
      TagsSeen(events[..|events| - 1], k) + (if KeyOf(events[|events| - 1]) == k then {events[|events| - 1].tag} else {})
  {
    var n := |events| - 1;
    var p := events[..n];
    forall t | t in TagsSeen(events, k)
      ensures t in TagsSeen(p, k) + (if KeyOf(events[n]) == k then {events[n].tag} else {})
    {
      var i :| 0 <= i < |events| && KeyOf(events[i]) == k && events[i].tag == t;
      if i < n { assert p[i] == events[i]; }
    }
    forall t | t in TagsSeen(p, k) ensures t in TagsSeen(events, k) {
      var i :| 0 <= i < |p| && KeyOf(p[i]) == k && p[i].tag == t;
      assert events[i] == p[i];
    }
  }

  /** A key is present exactly when some event is stored under it. */
  lemma {:induction false} AggregateKeys(events: seq<Event>)
    ensures forall k :: k in Aggregate(events).data <==> Occurrences(events, k) > 0
  {
    if |events| > 0 {
      AggregateKeys(events[..|events| - 1]);
    }
  }

  /** Each key's count is the number of events stored under it, and its tags are
      the tags of those events. */
  lemma AggregateCounts(events: seq<Event>)
    ensures forall k | k in Aggregate(events).data ::
      Aggregate(events).data[k].count == Occurrences(events, k)
      && Props(Aggregate(events).data[k]) == TagsSeen(events, k)
  {
    forall k | k in Aggregate(events).data
      ensures Aggregate(events).data[k].count == Occurrences(events, k)
      && Props(Aggregate(events).data[k]) == TagsSeen(events, k)
    {
      CountAt(events, k);
    }
  }

  lemma {:induction false} CountAt(events: seq<Event>, k: string)
    requires k in Aggregate(events).data
    ensures Aggregate(events).data[k].count == Occurrences(events, k)
    ensures Props(Aggregate(events).data[k]) == TagsSeen(events, k)
  {
    var n := |events| - 1;
    var p := events[..n];
    var e := events[n];
    var a := Aggregate(p);
    var r := Aggregate(events);
    assert r == AddColor(a, e);
    TagsSeenStep(events, k);
    if k != KeyOf(e) {
      assert k in a.data && r.data[k] == a.data[k];
      CountAt(p, k);
    } else if k in a.data {
      CountAt(p, k);
    } else {
      NeverSeen(p, k);
      assert r.data[k] == Obs(1, [e.tag]);
      assert Props(Obs(1, [e.tag])) == {e.tag};
    }
  }

  /** A key the aggregate lacks has had no event. */
  lemma NeverSeen(events: seq<Event>, k: string)
    requires k !in Aggregate(events).data
    ensures Occurrences(events, k) == 0 && TagsSeen(events, k) == {}
  {
    AggregateKeys(events);
    if t :| t in TagsSeen(events, k) {
      var i :| 0 <= i < |events| && KeyOf(events[i]) == k && events[i].tag == t;
      OccurrencesPositive(events, k, i);
    }
  }

  /** Keys are listed in the order of their first event. */
  lemma {:induction false} AggregateOrder(events: seq<Event>)
    ensures forall i, j | 0 <= i < j < |Aggregate(events).order| ::
      FirstIndex(events, Aggregate(events).order[i]).Some?
      && FirstIndex(events, Aggregate(events).order[j]).Some?
      && FirstIndex(events, Aggregate(events).order[i]).value < FirstIndex(events, Aggregate(events).order[j]).value
  {
    if |events| > 0 {
      var n := |events| - 1;
      var p := events[..n];
      var e := events[n];
      AggregateOrder(p);
      AggregateKeys(p);
      var a := Aggregate(p);
      var r := Aggregate(events);
      assert r == AddColor(a, e);
      forall i, j | 0 <= i < j < |r.order|
        ensures FirstIndex(events, r.order[i]).Some? && FirstIndex(events, r.order[j]).Some?
             && FirstIndex(events, r.order[i]).value < FirstIndex(events, r.order[j]).value
      {
        assert r.order[i] == a.order[i] && r.order[i] in a.data;
        FirstIndexSpec(p, r.order[i]);
        if j < |a.order| {
          assert r.order[j] == a.order[j];
        } else {
          assert r.order[j] == KeyOf(e) && KeyOf(e) !in a.data;
          FirstIndexSpec(p, KeyOf(e));
        }
      }
    }
  }

  lemma {:induction false} OccurrencesPositive(events: seq<Event>, k: string, i: nat)
    requires i < |events| && KeyOf(events[i]) == k
    ensures Occurrences(events, k) > 0
  {
    if i < |events| - 1 {
      assert events[..|events| - 1][i] == events[i];
      OccurrencesPositive(events[..|events| - 1], k, i);
    }
  }

  /** Occurrences add up over concatenated event streams: the final counts do not
      depend on which pass or which text produced the events. */
  lemma {:induction false} OccurrencesAppend(xs: seq<Event>, ys: seq<Event>, k: string)
    ensures Occurrences(xs + ys, k) == Occurrences(xs, k) + Occurrences(ys, k)
    decreases |ys|
  {
    if |ys| > 0 {
      var zs := xs + ys;
      assert zs[..|zs| - 1] == xs + ys[..|ys| - 1];
      assert zs[|zs| - 1] == ys[|ys| - 1];
      OccurrencesAppend(xs, ys[..|ys| - 1], k);
    } else {
      assert xs + ys == xs;
    }
  }

  /** Regrouping two pairs of streams does not change any key's occurrences. */
  lemma OccurrencesRegroup(a: seq<Event>, b: seq<Event>, c: seq<Event>, d: seq<Event>, k: string)
    ensures Occurrences((a + b) + (c + d), k) == Occurrences(a + c, k) + Occurrences(b + d, k)
  {
    OccurrencesAppend(a + b, c + d, k);
    OccurrencesAppend(a, b, k);
    OccurrencesAppend(c, d, k);
    OccurrencesAppend(a, c, k);
    OccurrencesAppend(b, d, k);
  }

  // ---------------------------------------------------------------------------
  // Count accounting

  /** The sum of the counts of the keys listed in `order`. */
  function SumCounts(order: seq<string>, data: map<string, Obs>): nat
    requires forall i | 0 <= i < |order| :: order[i] in data
  {
    if |order| == 0 then 0 else data[order[0]].count + SumCounts(order[1..], data)
  }

  lemma InOrderInData(a: Agg)
    requires Valid(a)
    ensures forall i | 0 <= i < |a.order| :: a.order[i] in a.data
  {
    forall i | 0 <= i < |a.order| ensures a.order[i] in a.data {
      assert a.order[i] in (set k | k in a.order);
    }
  }

  function Total(a: Agg): nat
    requires Valid(a)
  {
    InOrderInData(a);
    SumCounts(a.order, a.data)
  }

  lemma {:induction false} SumFrame(order: seq<string>, data: map<string, Obs>, k: string, o: Obs)
    requires forall i | 0 <= i < |order| :: order[i] in data
    requires k !in order
    ensures SumCounts(order, data[k := o]) == SumCounts(order, data)
  {
    if |order| > 0 {
      SumFrame(order[1..], data, k, o);
    }
  }

  lemma {:induction false} SumBump(order: seq<string>, data: map<string, Obs>, k: string, o: Obs)
    requires forall i | 0 <= i < |order| :: order[i] in data
    requires Distinct(order) && k in order
    requires o.count == data[k].count + 1
    ensures SumCounts(order, data[k := o]) == SumCounts(order, data) + 1
  {
    if order[0] == k {
      assert k !in order[1..];
      SumFrame(order[1..], data, k, o);
    } else {
      SumBump(order[1..], data, k, o);
    }
  }

  lemma {:induction false} SumAppend(order: seq<string>, data: map<string, Obs>, k: string)
    requires forall i | 0 <= i < |order| :: order[i] in data
    requires k in data
    ensures SumCounts(order + [k], data) == SumCounts(order, data) + data[k].count
  {
    if |order| == 0 {
      assert order + [k] == [k];
    } else {
      assert (order + [k])[1..] == order[1..] + [k];
      SumAppend(order[1..], data, k);
    }
  }

  /** Each event adds exactly one to exactly one count: the counts sum to the
      number of events. */
  lemma {:induction false} TotalIsEventCount(events: seq<Event>)
    ensures Total(Aggregate(events)) == |events|
  {
    if |events| > 0 {
      var p := events[..|events| - 1];
      var e := events[|events| - 1];
      var a := Aggregate(p);
      TotalIsEventCount(p);
      var r := Aggregate(events);
      assert r == AddColor(a, e);
      var k := KeyOf(e);
      InOrderInData(a);
      if k in a.data {
        assert r.order == a.order;
        assert r.data == a.data[k := r.data[k]];
        assert k in a.order;
        SumBump(a.order, a.data, k, r.data[k]);
      } else {
        assert r.order == a.order + [k];
        assert r.data == a.data[k := Obs(1, [e.tag])];
        assert k !in a.order;
        SumFrame(a.order, a.data, k, Obs(1, [e.tag]));
        SumAppend(a.order, r.data, k);
      }
    }
  }
}

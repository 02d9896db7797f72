/** `list.sort(key=lambda x: -x[1])` and `sorted(…, key=…)` on lists built in
    dict insertion order. Python's sort is stable, so entries of equal weight
    keep their list order; each entry carries its insertion position, and the
    stable sort is the sort by weight descending, then position ascending. */
module StableSort {

  /** A candidate: its key, its weight, and its position in insertion order. */
  datatype Entry = Entry(key: string, weight: int, pos: nat)

  /** `a` comes before `b`: heavier, or as heavy and inserted earlier. */
  predicate Before(a: Entry, b: Entry) {
    a.weight > b.weight || (a.weight == b.weight && a.pos < b.pos)
  }

  predicate Sorted(s: seq<Entry>) {
    forall i, j | 0 <= i < j < |s| :: Before(s[i], s[j])
  }

  /** No two entries share an insertion position. */
  predicate DistinctPos(s: seq<Entry>) {
    forall i, j | 0 <= i < j < |s| :: s[i].pos != s[j].pos
  }

  function Insert(e: Entry, s: seq<Entry>): (r: seq<Entry>)
    requires Sorted(s)
    requires forall i | 0 <= i < |s| :: s[i].pos != e.pos
    ensures Sorted(r)
    ensures multiset(r) == multiset(s) + multiset{e}
    ensures |r| == |s| + 1
  {
    if |s| == 0 then [e]
    else if Before(e, s[0]) then
      assert forall i | 0 <= i < |s| :: Before(e, s[i]);
      SortedCons(e, s);
      [e] + s
    else
      var rest := Insert(e, s[1..]);
      InsertedAfterHead(e, s, rest);
      SortedCons(s[0], rest);
      assert s == [s[0]] + s[1..];
      assert multiset([s[0]] + rest) == multiset{s[0]} + multiset(rest);
      [s[0]] + rest
  }

  /** An entry that precedes every entry of a sorted sequence can head it. */
  lemma SortedCons(h: Entry, s: seq<Entry>)
    requires Sorted(s) && forall i | 0 <= i < |s| :: Before(h, s[i])
    ensures Sorted([h] + s)
  {
    var t := [h] + s;
    forall i, j | 0 <= i < j < |t| ensures Before(t[i], t[j]) {
      if i == 0 { assert t[j] == s[j - 1]; } else { assert t[i] == s[i - 1] && t[j] == s[j - 1]; }
    }
  }

  /** When `e` does not go first, the head of `s` precedes everything the
      insertion into the tail produced. */
  lemma InsertedAfterHead(e: Entry, s: seq<Entry>, rest: seq<Entry>)
    requires Sorted(s) && |s| > 0 && !Before(e, s[0]) && e.pos != s[0].pos
    requires multiset(rest) == multiset(s[1..]) + multiset{e}
    ensures forall i | 0 <= i < |rest| :: Before(s[0], rest[i])
  {
    forall i | 0 <= i < |rest| ensures Before(s[0], rest[i]) {
      assert rest[i] in multiset(rest);
      if rest[i] != e {
        assert rest[i] in multiset(s[1..]);
        var j :| 0 <= j < |s[1..]| && s[1..][j] == rest[i];
        assert s[j + 1] == rest[i];
      }
    }
  }

  /** The stable descending sort: sorted, and a permutation of the input. */
  function SortDesc(s: seq<Entry>): (r: seq<Entry>)
    requires DistinctPos(s)
    ensures Sorted(r)
    ensures multiset(r) == multiset(s)
    ensures |r| == |s|
  {
    if |s| == 0 then []
    else
      var rest := SortDesc(s[1..]);
      assert s == [s[0]] + s[1..];
      forall i | 0 <= i < |rest| ensures rest[i].pos != s[0].pos {
        assert rest[i] in multiset(s[1..]);
        var j :| 0 <= j < |s[1..]| && s[1..][j] == rest[i];
        assert s[j + 1] == rest[i];
      }
      Insert(s[0], rest)
  }

  /** The first entry of a sorted sequence outweighs every other, and among the
      entries of the same weight it was inserted first. */
  lemma SortedHead(s: seq<Entry>)
    requires Sorted(s) && |s| > 0
    ensures forall i | 0 < i < |s| :: s[0].weight >= s[i].weight
    ensures forall i | 0 < i < |s| :: s[0].weight == s[i].weight ==> s[0].pos < s[i].pos
  {
  }

  /** Sorting only reorders: every input entry is in the output and conversely. */
  lemma SortedMembers(s: seq<Entry>)
    requires DistinctPos(s)
    ensures forall x :: x in SortDesc(s) <==> x in s
  {
    var r := SortDesc(s);
    forall x ensures x in r <==> x in s {
      assert x in r <==> x in multiset(r);
      assert x in s <==> x in multiset(s);
    }
  }
}

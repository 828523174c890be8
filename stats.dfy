/**
 * The category recap of both dashboards: `suggestions.reduce` into an object
 * that maps each category present to its number of suggestions, shown next
 * to the total `suggestions.length`.
 */
module Stats {
  import opened Suggestions

  /** The number of suggestions filed under category `k`. */
  function Count(items: seq<Suggestion>, k: string): nat
    decreases |items|
  {
    if items == [] then 0
    else Count(items[..|items| - 1], k) + (if items[|items| - 1].kategori == k then 1 else 0)
  }

  /** The accumulator after folding `items` from the left: `acc[k] = (acc[k] || 0) + 1` for each item's category. */
  function StatsOf(items: seq<Suggestion>): (r: map<string, nat>)
    ensures |r| <= |items|
    ensures forall k :: k in r ==> r[k] >= 1
    decreases |items|
  {
    if items == [] then map[]
    else
      var acc := StatsOf(items[..|items| - 1]);
      var k := items[|items| - 1].kategori;
      acc[k := (if k in acc then acc[k] else 0) + 1]
  }

  /** The reduce itself, statement by statement. */
  method CategoryStats(items: seq<Suggestion>) returns (stats: map<string, nat>)
    ensures stats == StatsOf(items)
    ensures forall k :: k in stats <==> Count(items, k) > 0
    ensures forall k :: k in stats ==> stats[k] == Count(items, k)
  {
    stats := map[];
    var i := 0;
    while i < |items|
      invariant 0 <= i <= |items|
      invariant stats == StatsOf(items[..i])
    {
      var k := items[i].kategori;
      assert items[..i + 1][..i] == items[..i];
      stats := stats[k := (if k in stats then stats[k] else 0) + 1];
      i := i + 1;
    }
    assert items[..|items|] == items;
    StatsOfCounts(items);
  }

  /** The recap lists exactly the categories that occur, each with its number of suggestions. */
  lemma {:induction false} StatsOfCounts(items: seq<Suggestion>)
    ensures forall k :: k in StatsOf(items) <==> Count(items, k) > 0
    ensures forall k :: k in StatsOf(items) ==> StatsOf(items)[k] == Count(items, k)
    decreases |items|
  {
    if items != [] {
      StatsOfCounts(items[..|items| - 1]);
    }
  }

  /** A category has a positive count exactly when some suggestion carries it. */
  lemma {:induction false} CountPositive(items: seq<Suggestion>, k: string)
    ensures Count(items, k) > 0 <==> exists i :: 0 <= i < |items| && items[i].kategori == k
    decreases |items|
  {
    if items != [] {
      var init := items[..|items| - 1];
      CountPositive(init, k);
      assert forall i :: 0 <= i < |init| ==> init[i] == items[i];
    }
  }

  /** Some key of a non-empty map. */
  ghost function AnyKey(m: map<string, nat>): string
    requires m != map[]
  {
    var k :| k in m; k
  }

  /** The sum of the counts in a recap. */
  ghost function SumValues(m: map<string, nat>): nat
    decreases |m|
  {
    if m == map[] then 0
    else
      var k := AnyKey(m);
      assert |m - {k}| == |m| - 1 by { assert (m - {k}).Keys == m.Keys - {k}; }
      m[k] + SumValues(m - {k})
  }

  /** The sum does not depend on which key is taken out first. */
  lemma {:induction false} SumValuesRemove(m: map<string, nat>, k: string)
    requires k in m
    ensures SumValues(m) == m[k] + SumValues(m - {k})
    decreases |m|
  {
    var j := AnyKey(m);
    if j != k {
      assert |m - {j}| == |m| - 1 by { assert (m - {j}).Keys == m.Keys - {j}; }
      assert |m - {k}| == |m| - 1 by { assert (m - {k}).Keys == m.Keys - {k}; }
      SumValuesRemove(m - {j}, k);
      SumValuesRemove(m - {k}, j);
      assert m - {j} - {k} == m - {k} - {j};
    }
  }

  /** The counts of the recap add up to the displayed total `suggestions.length`. */
  lemma {:induction false} StatsTotal(items: seq<Suggestion>)
    ensures SumValues(StatsOf(items)) == |items|
    decreases |items|
  {
    if items != [] {
      var init := items[..|items| - 1];
      StatsTotal(init);
      var acc := StatsOf(init);
      var k := items[|items| - 1].kategori;
      var next := StatsOf(items);
      SumValuesRemove(next, k);
      assert next - {k} == acc - {k};
      if k in acc {
        SumValuesRemove(acc, k);
      } else {
        assert acc - {k} == acc;
      }
    }
  }

  /** The recap of two "Fasilitas" suggestions and one "Akademik" suggestion. */
  lemma StatsExample(a: Suggestion, b: Suggestion, c: Suggestion)
    requires a.kategori == "Fasilitas" && b.kategori == "Fasilitas" && c.kategori == "Akademik"
    ensures StatsOf([a, b, c]) == map["Fasilitas" := 2, "Akademik" := 1]
  {
    assert [a, b, c][..2] == [a, b];
    assert [a, b][..1] == [a];
    assert [a][..0] == [];
    assert StatsOf([a]) == map["Fasilitas" := 1];
    assert StatsOf([a, b]) == map["Fasilitas" := 2];
    assert StatsOf([a, b, c]) == map["Fasilitas" := 2][c.kategori := 1];
  }
}

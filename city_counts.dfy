/** The per-city report of the `/api/cities-by-llm` routes: `groupby("City").size()` followed by
    `sort_values("count", ascending=False)`. */
module CityCounts {
  import Sorting

  datatype CityCount = CityCount(city: string, count: nat)

  /** Sum of the counts. */
  function Total(groups: seq<CityCount>): nat {
    if groups == [] then 0 else groups[0].count + Total(groups[1..])
  }

  /** Some group is the group of `c`. */
  predicate HasCity(groups: seq<CityCount>, c: string) {
    exists i :: 0 <= i < |groups| && groups[i].city == c
  }

  predicate DistinctCities(groups: seq<CityCount>) {
    forall i, j :: 0 <= i < j < |groups| ==> groups[i].city != groups[j].city
  }

  /** What the report promises about `cities`, the City values of the rows it counts: each
      value once, with its number of rows, and all the rows accounted for. */
  ghost predicate IsCityReport(r: seq<CityCount>, cities: seq<string>) {
    && DistinctCities(r)
    && (forall i :: 0 <= i < |r| ==> r[i].count == multiset(cities)[r[i].city] && r[i].count > 0)
    && (forall c :: c in cities ==> HasCity(r, c))
    && Total(r) == |cities|
  }

  /** Counts never increase along the report. */
  ghost predicate ByCountDescending(r: seq<CityCount>) {
    forall i, j :: 0 <= i < j < |r| ==> r[i].count >= r[j].count
  }

  /** One more row for city `c`. */
  function Bump(groups: seq<CityCount>, c: string): (r: seq<CityCount>)
    ensures Total(r) == Total(groups) + 1
  {
    if groups == [] then [CityCount(c, 1)]
    else if groups[0].city == c then [CityCount(c, groups[0].count + 1)] + groups[1..]
    else [groups[0]] + Bump(groups[1..], c)
  }

  /** The count held for `c`, or 0. */
  function CountFor(groups: seq<CityCount>, c: string): nat {
    if groups == [] then 0
    else (if groups[0].city == c then groups[0].count else 0) + CountFor(groups[1..], c)
  }

  /** Bump keeps every group in its place, with its city, and appends a group for `c` when
      there is none. */
  lemma {:induction false} BumpPositions(groups: seq<CityCount>, c: string)
    ensures |Bump(groups, c)| == if HasCity(groups, c) then |groups| else |groups| + 1
    ensures forall i :: 0 <= i < |groups| ==> Bump(groups, c)[i].city == groups[i].city
    ensures !HasCity(groups, c) ==> Bump(groups, c)[|groups|] == CityCount(c, 1)
  {
    if groups != [] && groups[0].city != c {
      BumpPositions(groups[1..], c);
      var r := Bump(groups, c);
      var rest := Bump(groups[1..], c);
      assert r == [groups[0]] + rest;
      if HasCity(groups, c) {
        var k :| 0 <= k < |groups| && groups[k].city == c;
        assert groups[1..][k - 1].city == c;
      }
    } else if groups != [] {
      assert HasCity(groups, c) by { assert groups[0].city == c; }
    }
  }

  /** Bump keeps one group per city and adds the group of `c`. */
  lemma BumpShape(groups: seq<CityCount>, c: string)
    requires DistinctCities(groups)
    ensures DistinctCities(Bump(groups, c))
    ensures forall i :: 0 <= i < |Bump(groups, c)| ==> Bump(groups, c)[i].city == c || HasCity(groups, Bump(groups, c)[i].city)
    ensures HasCity(Bump(groups, c), c)
  {
    BumpPositions(groups, c);
    var r := Bump(groups, c);
    forall i | 0 <= i < |r| ensures r[i].city == c || HasCity(groups, r[i].city) {
      if i < |groups| {
        assert groups[i].city == r[i].city;
      }
    }
    if HasCity(groups, c) {
      var k :| 0 <= k < |groups| && groups[k].city == c;
      assert r[k].city == c;
    } else {
      assert r[|groups|].city == c;
    }
  }

  /** Bump changes only the group of `c`, which it creates or increments. */
  lemma {:induction false} BumpGroups(groups: seq<CityCount>, c: string)
    requires DistinctCities(groups)
    ensures forall g :: g in Bump(groups, c) ==> g.city == c || g in groups
    ensures forall g :: g in groups && g.city != c ==> g in Bump(groups, c)
    ensures forall g :: g in Bump(groups, c) && g.city == c ==> g.count == 1 + CountFor(groups, c)
  {
    if groups != [] {
      if groups[0].city == c {
        CountForAbsent(groups[1..], c);
      } else {
        BumpGroups(groups[1..], c);
        assert Bump(groups, c) == [groups[0]] + Bump(groups[1..], c);
      }
    }
  }

  lemma {:induction false} CountForAbsent(groups: seq<CityCount>, c: string)
    requires forall i :: 0 <= i < |groups| ==> groups[i].city != c
    ensures CountFor(groups, c) == 0
  {
    if groups != [] {
      CountForAbsent(groups[1..], c);
    }
  }

  /** In a report, the count held for a value is its number of occurrences. */
  lemma {:induction false} CountForReport(groups: seq<CityCount>, c: string)
    requires DistinctCities(groups)
    ensures forall g :: g in groups && g.city == c ==> g.count == CountFor(groups, c)
  {
    if groups != [] {
      assert DistinctCities(groups[1..]);
      CountForReport(groups[1..], c);
      if groups[0].city == c {
        CountForAbsent(groups[1..], c);
      }
    }
  }

  /** `groupby(...).size()`: one group per distinct value, in order of first appearance. */
  function Tally(cities: seq<string>): (r: seq<CityCount>)
    ensures IsCityReport(r, cities)
  {
    if cities == [] then []
    else
      var init := cities[..|cities| - 1];
      var c := cities[|cities| - 1];
      assert cities == init + [c];
      var r := Bump(Tally(init), c);
      TallyStep(init, c, Tally(init), r);
      r
  }

  lemma TallyStep(init: seq<string>, c: string, g: seq<CityCount>, r: seq<CityCount>)
    requires IsCityReport(g, init)
    requires r == Bump(g, c)
    ensures IsCityReport(r, init + [c])
  {
    BumpShape(g, c);
    TallyStepCounts(init, c, g, r);
    TallyStepCovers(init, c, g, r);
  }

  /** After Bump, each group holds its number of occurrences. */
  lemma TallyStepCounts(init: seq<string>, c: string, g: seq<CityCount>, r: seq<CityCount>)
    requires IsCityReport(g, init)
    requires r == Bump(g, c)
    ensures forall i :: 0 <= i < |r| ==> r[i].count == multiset(init + [c])[r[i].city] && r[i].count > 0
  {
    assert multiset(init + [c]) == multiset(init) + multiset{c};
    BumpGroups(g, c);
    CountForReport(g, c);
    if !HasCity(g, c) {
      CountForAbsent(g, c);
    }
    forall i | 0 <= i < |r| ensures r[i].count == multiset(init + [c])[r[i].city] && r[i].count > 0 {
      assert r[i] in r;
      if r[i].city == c {
        if HasCity(g, c) {
          var k :| 0 <= k < |g| && g[k].city == c;
          assert g[k] in g;
        }
      } else {
        var k :| 0 <= k < |g| && g[k] == r[i];
      }
    }
  }

  /** After Bump, every occurring value has its group. */
  lemma TallyStepCovers(init: seq<string>, c: string, g: seq<CityCount>, r: seq<CityCount>)
    requires IsCityReport(g, init)
    requires r == Bump(g, c)
    ensures forall x :: x in init + [c] ==> HasCity(r, x)
  {
    BumpShape(g, c);
    BumpGroups(g, c);
    forall x | x in init + [c] ensures HasCity(r, x) {
      if x != c {
        assert x in init;
        var k :| 0 <= k < |g| && g[k].city == x;
        assert g[k] in r;
        var m :| 0 <= m < |r| && r[m] == g[k];
      }
    }
  }

  predicate MoreFrequent(a: CityCount, b: CityCount) {
    a.count >= b.count
  }

  lemma MoreFrequentIsTotalPreorder()
    ensures Sorting.IsTotalPreorder(MoreFrequent)
  {
  }

  /** The report: the groups sorted by decreasing count. */
  function ByCountDesc(cities: seq<string>): (r: seq<CityCount>)
    ensures IsCityReport(r, cities)
    ensures ByCountDescending(r)
  {
    var groups := Tally(cities);
    var r := Sorting.InsertionSort(groups, MoreFrequent);
    MoreFrequentIsTotalPreorder();
    Sorting.InsertionSortSorted(groups, MoreFrequent);
    ReportPermutation(groups, r, cities);
    r
  }

  /** Sorting a report by count keeps it a report of the same values. */
  lemma ReportPermutation(g: seq<CityCount>, r: seq<CityCount>, cities: seq<string>)
    requires IsCityReport(g, cities)
    requires r == Sorting.InsertionSort(g, MoreFrequent)
    ensures IsCityReport(r, cities)
  {
    forall i | 0 <= i < |r| ensures r[i] in g {
      assert r[i] in multiset(r);
    }
    forall i, j | 0 <= i < j < |r| ensures r[i].city != r[j].city {
      PermutationKeepsDistinct(g, r, i, j);
    }
    forall c | c in cities ensures HasCity(r, c) {
      var k :| 0 <= k < |g| && g[k].city == c;
      assert g[k] in multiset(r);
      var m :| 0 <= m < |r| && r[m] == g[k];
    }
    SortKeepsTotal(g);
  }

  /** A reordering of groups with distinct cities holds no group twice. */
  lemma PermutationKeepsDistinct(g: seq<CityCount>, r: seq<CityCount>, i: nat, j: nat)
    requires DistinctCities(g) && multiset(r) == multiset(g)
    requires i < j < |r|
    ensures r[i] != r[j]
  {
    if r[i] == r[j] {
      var x := r[i];
      assert r == r[..j] + [r[j]] + r[j + 1..];
      assert x in r[..j];
      assert multiset(r) == multiset(r[..j]) + multiset{x} + multiset(r[j + 1..]);
      DistinctOnce(g, x);
      assert false;
    }
  }

  lemma {:induction false} DistinctOnce(g: seq<CityCount>, x: CityCount)
    requires DistinctCities(g)
    ensures multiset(g)[x] <= 1
  {
    if g != [] {
      assert g == [g[0]] + g[1..];
      DistinctOnce(g[1..], x);
      if g[0] == x {
        assert x !in g[1..];
      }
    }
  }

  lemma {:induction false} InsertKeepsTotal(x: CityCount, s: seq<CityCount>)
    ensures Total(Sorting.Insert(x, s, MoreFrequent)) == x.count + Total(s)
  {
    if s != [] && !MoreFrequent(x, s[0]) {
      InsertKeepsTotal(x, s[1..]);
      assert Sorting.Insert(x, s, MoreFrequent) == [s[0]] + Sorting.Insert(x, s[1..], MoreFrequent);
    }
  }

  lemma {:induction false} SortKeepsTotal(s: seq<CityCount>)
    ensures Total(Sorting.InsertionSort(s, MoreFrequent)) == Total(s)
  {
    if s != [] {
      SortKeepsTotal(s[1..]);
      InsertKeepsTotal(s[0], Sorting.InsertionSort(s[1..], MoreFrequent));
    }
  }

  /** A report of rows that all hold the same value is that one value with the row count. */
  lemma ReportOfOneCity(r: seq<CityCount>, cities: seq<string>, c: string)
    requires IsCityReport(r, cities)
    requires cities != [] && forall i :: 0 <= i < |cities| ==> cities[i] == c
    ensures r == [CityCount(c, |cities|)]
  {
    OneValueMultiset(cities, c);
    assert cities[0] in cities;
    assert HasCity(r, c);
    var k :| 0 <= k < |r| && r[k].city == c;
    assert r[k].count == |cities|;
    TotalAtLeast(r, k);
    assert |r| == 1;
  }

  /** With positive counts, the total is at least one per group beyond the count of `r[k]`. */
  lemma {:induction false} TotalAtLeast(r: seq<CityCount>, k: int)
    requires forall i :: 0 <= i < |r| ==> r[i].count > 0
    requires -1 <= k < |r|
    ensures Total(r) >= |r| + (if k >= 0 then r[k].count - 1 else 0)
  {
    if r != [] {
      TotalAtLeast(r[1..], if k > 0 then k - 1 else -1);
    }
  }

  lemma {:induction false} OneValueMultiset(cities: seq<string>, c: string)
    requires forall i :: 0 <= i < |cities| ==> cities[i] == c
    ensures multiset(cities)[c] == |cities|
  {
    if cities != [] {
      assert cities == [cities[0]] + cities[1..];
      OneValueMultiset(cities[1..], c);
    }
  }
}

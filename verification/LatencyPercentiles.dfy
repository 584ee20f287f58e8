/** Retry latencies on the dashboard: samples grouped by metric name, each group summarised by
    its median and its 95th percentile under the nearest-rank rule, with p an exact rational. */
module LatencyPercentiles {
  datatype Sample = Sample(name: string, value: real)

  datatype Summary = Summary(count: nat, p50: real, p95: real)

  // ----- sorting

  function Insert(x: real, s: seq<real>): (r: seq<real>)
    ensures |r| == |s| + 1
  {
    if s == [] || x <= s[0] then [x] + s else [s[0]] + Insert(x, s[1..])
  }

  function Ordered(s: seq<real>): (r: seq<real>)
    ensures |r| == |s|
  {
    if s == [] then [] else Insert(s[0], Ordered(s[1..]))
  }

  ghost predicate Ascending(s: seq<real>) {
    forall i, j :: 0 <= i < j < |s| ==> s[i] <= s[j]
  }

  lemma {:induction false} InsertKeeps(x: real, s: seq<real>)
    ensures multiset(Insert(x, s)) == multiset{x} + multiset(s)
  {
    if s == [] || x <= s[0] {
    } else {
      InsertKeeps(x, s[1..]);
      assert s == [s[0]] + s[1..];
    }
  }

  lemma {:induction false} InsertAscends(x: real, s: seq<real>)
    requires Ascending(s)
    ensures Ascending(Insert(x, s))
  {
    if s == [] || x <= s[0] {
    } else {
      InsertAscends(x, s[1..]);
      InsertKeeps(x, s[1..]);
      LeastGoesFirst(x, s, Insert(x, s[1..]));
    }
  }

  lemma LeastGoesFirst(x: real, s: seq<real>, rest: seq<real>)
    requires s != [] && Ascending(s) && s[0] < x
    requires Ascending(rest) && multiset(rest) == multiset{x} + multiset(s[1..])
    ensures Ascending([s[0]] + rest)
  {
    forall j | 0 <= j < |rest| ensures s[0] <= rest[j] {
      assert rest[j] in multiset(rest);
      assert rest[j] == x || rest[j] in s[1..];
    }
  }

  /** Sorting keeps the samples, with their multiplicities, and puts them in order. */
  lemma {:induction false} OrderedSorts(s: seq<real>)
    ensures Ascending(Ordered(s))
    ensures multiset(Ordered(s)) == multiset(s)
  {
    if s == [] {
    } else {
      OrderedSorts(s[1..]);
      InsertAscends(s[0], Ordered(s[1..]));
      InsertKeeps(s[0], Ordered(s[1..]));
      assert s == [s[0]] + s[1..];
    }
  }

  lemma HeadIsLeast(s: seq<real>, x: real)
    requires s != [] && Ascending(s) && x in multiset(s)
    ensures s[0] <= x
  {
    assert x in s;
  }

  /** There is only one way to put the same samples in order. */
  lemma {:induction false} AscendingIsUnique(a: seq<real>, b: seq<real>)
    requires Ascending(a) && Ascending(b)
    requires multiset(a) == multiset(b)
    ensures a == b
  {
    hide Ascending;
    SameLength(a, b);
    if a != [] {
      HeadsAgree(a, b);
      TailKeeps(a);
      TailKeeps(b);
      AscendingIsUnique(a[1..], b[1..]);
      assert a == [a[0]] + a[1..] && b == [b[0]] + b[1..];
    }
  }

  lemma SameLength(a: seq<real>, b: seq<real>)
    requires multiset(a) == multiset(b)
    ensures |a| == |b|
  {
    assert |a| == |multiset(a)| == |multiset(b)| == |b|;
  }

  lemma HeadsAgree(a: seq<real>, b: seq<real>)
    requires a != [] && b != [] && Ascending(a) && Ascending(b)
    requires multiset(a) == multiset(b)
    ensures a[0] == b[0]
  {
    hide Ascending;
    assert a[0] in multiset(b) && b[0] in multiset(a);
    HeadIsLeast(a, b[0]);
    HeadIsLeast(b, a[0]);
  }

  lemma TailKeeps(s: seq<real>)
    requires s != [] && Ascending(s)
    ensures Ascending(s[1..]) && multiset(s[1..]) == multiset(s) - multiset{s[0]}
  {
    assert s == [s[0]] + s[1..];
  }

  // ----- counting samples

  function Count(s: seq<real>, p: real -> bool): nat {
    if s == [] then 0 else (if p(s[0]) then 1 else 0) + Count(s[1..], p)
  }

  function AtMost(x: real): real -> bool {
    v => v <= x
  }

  function Under(x: real): real -> bool {
    v => v < x
  }

  lemma {:induction false} CountInsert(x: real, s: seq<real>, p: real -> bool)
    ensures Count(Insert(x, s), p) == (if p(x) then 1 else 0) + Count(s, p)
  {
    var r := Insert(x, s);
    if s == [] || x <= s[0] {
      assert r[1..] == s;
    } else {
      assert r[1..] == Insert(x, s[1..]);
      CountInsert(x, s[1..], p);
    }
  }

  lemma {:induction false} CountOrdered(s: seq<real>, p: real -> bool)
    ensures Count(Ordered(s), p) == Count(s, p)
  {
    if s == [] {
    } else {
      CountOrdered(s[1..], p);
      CountInsert(s[0], Ordered(s[1..]), p);
    }
  }

  /** If exactly an initial part of `s` may satisfy `p`, the count is bounded by its length;
      if all of it does, the count reaches its length. */
  lemma {:induction false} CountPrefix(s: seq<real>, k: nat, p: real -> bool)
    requires k <= |s|
    ensures (forall i :: 0 <= i < k ==> p(s[i])) ==> Count(s, p) >= k
    ensures (forall i :: k <= i < |s| ==> !p(s[i])) ==> Count(s, p) <= k
  {
    if s == [] {
    } else if k == 0 {
      CountPrefix(s[1..], 0, p);
      if forall i :: 0 <= i < |s| ==> !p(s[i]) {
        assert forall i :: 0 <= i < |s[1..]| ==> s[1..][i] == s[i + 1];
      }
    } else {
      CountPrefix(s[1..], k - 1, p);
      assert forall i :: 0 <= i < |s[1..]| ==> s[1..][i] == s[i + 1];
    }
  }

  // ----- nearest rank

  /** The rank of the p-th percentile of n samples, p = num / den: the ceiling of p * n. */
  function Rank(num: nat, den: nat, n: nat): nat
    requires 0 < num <= den
  {
    (num * n + den - 1) / den
  }

  lemma Scale(den: nat, x: int, y: int)
    requires x <= y
    ensures den * x <= den * y
  {
  }

  lemma Cancel(den: nat, x: int, y: int)
    requires den * x < den * y
    ensures x < y
  {
    if y <= x {
      Scale(den, y, x);
    }
  }

  lemma RankIsCeiling(num: nat, den: nat, n: nat)
    requires 0 < num <= den && 0 < n
    ensures den * (Rank(num, den, n) - 1) < num * n <= den * Rank(num, den, n)
    ensures 1 <= Rank(num, den, n) <= n
  {
    var top := num * n + den - 1;
    var r := top / den;
    assert top == den * r + top % den;
    assert den * (r - 1) == den * r - den;
    assert 1 <= num * n by {
      assert 1 * n <= num * n;
    }
    assert num * n <= den * n;
    Cancel(den, r - 1, n);
  }

  function Percentile(values: seq<real>, num: nat, den: nat): real
    requires 0 < num <= den && values != []
  {
    RankIsCeiling(num, den, |values|);
    Ordered(values)[Rank(num, den, |values|) - 1]
  }

  /** What a nearest-rank percentile means for the samples in whatever order they came: it is
      one of them, at least ceil(p * n) of them are no greater, and fewer are strictly below. */
  lemma PercentileSplitsTheSamples(values: seq<real>, num: nat, den: nat)
    requires 0 < num <= den && values != []
    ensures Percentile(values, num, den) in values
    ensures Count(values, AtMost(Percentile(values, num, den))) >= Rank(num, den, |values|)
    ensures Count(values, Under(Percentile(values, num, den))) < Rank(num, den, |values|)
  {
    RankIsCeiling(num, den, |values|);
    SplitAt(values, Rank(num, den, |values|) - 1);
  }

  lemma SplitAt(values: seq<real>, k: nat)
    requires k < |values|
    ensures Ordered(values)[k] in values
    ensures Count(values, AtMost(Ordered(values)[k])) >= k + 1
    ensures Count(values, Under(Ordered(values)[k])) <= k
  {
    hide *;
    OrderedSorts(values);
    assert Ordered(values)[k] in multiset(values);
    CountOrdered(values, AtMost(Ordered(values)[k]));
    CountOrdered(values, Under(Ordered(values)[k]));
    SplitSorted(Ordered(values), k);
  }

  lemma SplitSorted(s: seq<real>, k: nat)
    requires k < |s| && Ascending(s)
    ensures Count(s, AtMost(s[k])) >= k + 1
    ensures Count(s, Under(s[k])) <= k
  {
    hide Count;
    CountPrefix(s, k + 1, AtMost(s[k]));
    CountPrefix(s, k, Under(s[k]));
  }

  lemma RankGrows(num: nat, den: nat, num': nat, den': nat, n: nat)
    requires 0 < num <= den && 0 < num' <= den' && 0 < n
    requires num * den' <= num' * den
    ensures Rank(num, den, n) <= Rank(num', den', n)
  {
    RankIsCeiling(num, den, n);
    RankIsCeiling(num', den', n);
    CeilingsAscend(num * n, den, Rank(num, den, n), num' * n, den', Rank(num', den', n)) by {
      Regroup(num, n, den');
      Regroup(num', n, den);
      assert (num * den') * n <= (num' * den) * n;
    }
  }

  lemma Regroup(x: int, y: int, z: int)
    ensures (x * y) * z == (x * z) * y
  {
  }

  /** x / den <= x' / den', so the least integers at or above the two are in the same order */
  lemma CeilingsAscend(x: int, den: nat, r: int, x': int, den': nat, r': int)
    requires 0 < den && 0 < den'
    requires den * (r - 1) < x && x' <= den' * r'
    requires x * den' <= x' * den
    ensures r <= r'
  {
    assert (den * (r - 1)) * den' < x * den';
    assert x' * den <= (den' * r') * den;
    assert (den * (r - 1)) * den' == (den * den') * (r - 1);
    assert (den' * r') * den == (den * den') * r';
    Cancel(den * den', r - 1, r');
  }

  /** A larger p never gives a smaller percentile. */
  lemma PercentilesAscend(values: seq<real>, num: nat, den: nat, num': nat, den': nat)
    requires 0 < num <= den && 0 < num' <= den' && values != []
    requires num * den' <= num' * den
    ensures Percentile(values, num, den) <= Percentile(values, num', den')
  {
    RankIsCeiling(num, den, |values|);
    RankIsCeiling(num', den', |values|);
    RankGrows(num, den, num', den', |values|);
    OrderedSorts(values);
  }

  // ----- grouping by metric name

  function ValuesOf(rows: seq<Sample>, name: string): seq<real> {
    if rows == [] then []
    else
      var before := ValuesOf(rows[..|rows| - 1], name);
      var last := rows[|rows| - 1];
      if last.name == name then before + [last.value] else before
  }

  /** Grouping neither loses nor invents a sample: each occurs in its group as often as among the rows. */
  lemma {:induction false} GroupingKeepsEverySample(rows: seq<Sample>, name: string, v: real)
    ensures multiset(ValuesOf(rows, name))[v] == multiset(rows)[Sample(name, v)]
  {
    if rows == [] {
    } else {
      var front, last := rows[..|rows| - 1], rows[|rows| - 1];
      GroupingKeepsEverySample(front, name, v);
      assert rows == front + [last];
    }
  }

  lemma GroupIsEmptyIff(rows: seq<Sample>, name: string)
    ensures ValuesOf(rows, name) == [] <==> forall r :: r in rows ==> r.name != name
  {
    if r :| r in rows && r.name == name {
      GroupingKeepsEverySample(rows, name, r.value);
      assert r == Sample(name, r.value) && r in multiset(rows);
      assert multiset(ValuesOf(rows, name))[r.value] > 0;
    } else if ValuesOf(rows, name) != [] {
      SomeRowIsGrouped(rows, name, ValuesOf(rows, name)[0]);
    }
  }

  lemma SomeRowIsGrouped(rows: seq<Sample>, name: string, v: real)
    requires v in ValuesOf(rows, name)
    ensures Sample(name, v) in rows
  {
    GroupingKeepsEverySample(rows, name, v);
    assert v in multiset(ValuesOf(rows, name));
    assert Sample(name, v) in multiset(rows);
  }

  function Summarised(values: seq<real>): Summary
    requires values != []
  {
    Summary(|values|, Percentile(values, 1, 2), Percentile(values, 19, 20))
  }

  lemma GroupsAgree(rows: seq<Sample>, shuffled: seq<Sample>, name: string)
    requires multiset(rows) == multiset(shuffled)
    ensures multiset(ValuesOf(rows, name)) == multiset(ValuesOf(shuffled, name))
  {
    forall v: real
      ensures multiset(ValuesOf(rows, name))[v] == multiset(ValuesOf(shuffled, name))[v]
    {
      GroupingKeepsEverySample(rows, name, v);
      GroupingKeepsEverySample(shuffled, name, v);
    }
  }

  /** The database may return the rows in any order: the summary of a metric is the same. */
  lemma SummaryIgnoresRowOrder(rows: seq<Sample>, shuffled: seq<Sample>, name: string)
    requires multiset(rows) == multiset(shuffled)
    requires ValuesOf(rows, name) != []
    ensures ValuesOf(shuffled, name) != []
    ensures Summarised(ValuesOf(rows, name)) == Summarised(ValuesOf(shuffled, name))
  {
    hide *;
    GroupsAgree(rows, shuffled, name);
    SameSamplesSameSummary(ValuesOf(rows, name), ValuesOf(shuffled, name));
  }

  lemma SameSamplesSameSummary(a: seq<real>, b: seq<real>)
    requires multiset(a) == multiset(b) && a != []
    ensures b != [] && Summarised(a) == Summarised(b)
  {
    hide Ordered, Ascending, Rank;
    SameLength(a, b);
    OrderedSorts(a);
    OrderedSorts(b);
    AscendingIsUnique(Ordered(a), Ordered(b));
  }

  ghost predicate IsGrouping(byName: map<string, seq<real>>, rows: seq<Sample>) {
    && (forall name :: ValuesOf(rows, name) == if name in byName then byName[name] else [])
    && (forall name :: name in byName ==> byName[name] != [])
  }

  /** First loop: append each value to its metric's list. */
  method GroupByName(rows: seq<Sample>) returns (byName: map<string, seq<real>>)
    ensures forall name :: name in byName <==> exists r :: r in rows && r.name == name
    ensures forall name :: name in byName ==> byName[name] == ValuesOf(rows, name) != []
  {
    byName := map[];
    for i := 0 to |rows|
      invariant IsGrouping(byName, rows[..i])
    {
      var row := rows[i];
      assert rows[..i + 1][..i] == rows[..i];
      var values := if row.name in byName then byName[row.name] else [];
      byName := byName[row.name := values + [row.value]];
    }
    assert rows[..|rows|] == rows;
    forall name ensures name in byName <==> exists r :: r in rows && r.name == name {
      GroupIsEmptyIff(rows, name);
    }
  }

  /** Second loop: summarise each list. */
  method CollectLatencies(rows: seq<Sample>) returns (latencies: map<string, Summary>)
    ensures forall name :: name in latencies <==> exists r :: r in rows && r.name == name
    ensures forall name :: name in latencies ==>
      var values := ValuesOf(rows, name);
      && values != [] && latencies[name] == Summarised(values)
      && latencies[name].count == |values|
      && latencies[name].p50 == Percentile(values, 1, 2) && latencies[name].p95 == Percentile(values, 19, 20)
    ensures forall name :: name in latencies ==> latencies[name].p50 <= latencies[name].p95
  {
    hide ValuesOf, Percentile;
    var byName := GroupByName(rows);
    latencies := map[];
    var left := byName.Keys;
    while left != {}
      invariant left <= byName.Keys && latencies.Keys == byName.Keys - left
      invariant forall name :: name in latencies ==>
        latencies[name] == Summarised(byName[name]) && latencies[name].p50 <= latencies[name].p95
      decreases |left|
    {
      var name :| name in left;
      PercentilesAscend(byName[name], 1, 2, 19, 20);
      latencies := latencies[name := Summarised(byName[name])];
      left := left - {name};
    }
  }
}

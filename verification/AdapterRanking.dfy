/** The dashboard's adapter table: retry outcomes summed per adapter id, the twenty largest
    listed by count and then by id, and the rest binned as "other". */
module AdapterRanking {
  import opened Sequences
  import opened Wrappers

  /** What a row's labels parse to; an object without a usable adapter id is Named(""). */
  datatype Labels = Unparsable | NotAnObject | Named(id: string)

  datatype Row = Row(labels: Labels, total: int)

  datatype AdapterCount = AdapterCount(id: string, count: int)

  const LISTED: nat := 20

  // ----- the order of the table

  /** Strings compare character by character, as Python's do. */
  predicate Precedes(a: string, b: string) {
    if b == [] then false
    else if a == [] then true
    else a[0] < b[0] || (a[0] == b[0] && Precedes(a[1..], b[1..]))
  }

  /** count descending, id ascending */
  predicate Outranks(a: AdapterCount, b: AdapterCount) {
    a.count > b.count || (a.count == b.count && Precedes(a.id, b.id))
  }

  ghost predicate SmallerAt(a: string, b: string, k: nat) {
    k < |a| && k < |b| && a[..k] == b[..k] && a[k] < b[k]
  }

  /** a begins b, or is smaller at the first place where they differ. */
  ghost predicate ComesFirst(a: string, b: string) {
    (a <= b && a != b) || exists k: nat :: SmallerAt(a, b, k)
  }

  lemma SmallerLater(a: string, b: string, k: nat)
    requires a != [] && b != [] && a[0] == b[0]
    ensures SmallerAt(a, b, k + 1) <==> SmallerAt(a[1..], b[1..], k)
  {
    if k < |a| - 1 && k < |b| - 1 {
      assert a[..k + 1] == [a[0]] + a[1..][..k] && b[..k + 1] == [b[0]] + b[1..][..k];
      assert a[..k + 1][1..] == a[1..][..k] && b[..k + 1][1..] == b[1..][..k];
    }
  }

  lemma SmallerNow(a: string, b: string, k: nat)
    requires a == [] || b == [] || a[0] != b[0]
    ensures SmallerAt(a, b, k) <==> k == 0 && a != [] && b != [] && a[0] < b[0]
  {
    if 0 < k && k < |a| && k < |b| {
      assert a[..k][0] != b[..k][0];
    }
  }

  lemma {:induction false} PrecedesIff(a: string, b: string)
    ensures Precedes(a, b) <==> ComesFirst(a, b)
  {
    if a != [] && b != [] && a[0] == b[0] {
      var x, y := a[1..], b[1..];
      assert a == [a[0]] + x && b == [b[0]] + y;
      PrecedesIff(x, y);
      forall k: nat ensures SmallerAt(a, b, k + 1) <==> SmallerAt(x, y, k) {
        SmallerLater(a, b, k);
      }
      assert !SmallerAt(a, b, 0);
      hide SmallerAt;
      if k: nat :| SmallerAt(x, y, k) {
        assert SmallerAt(a, b, k + 1);
      }
      if k: nat :| SmallerAt(a, b, k) {
        assert SmallerAt(x, y, k - 1) by { assert SmallerAt(a, b, k - 1 + 1); }
      }
    } else {
      SmallerNow(a, b, 0);
      forall k: nat ensures SmallerAt(a, b, k) <==> k == 0 && a != [] && b != [] && a[0] < b[0] {
        SmallerNow(a, b, k);
      }
    }
  }

  lemma {:induction false} PrecedesIsTotal(a: string, b: string)
    ensures a == b || Precedes(a, b) || Precedes(b, a)
    ensures !(Precedes(a, b) && Precedes(b, a))
    ensures a == b ==> !Precedes(a, b)
  {
    if a != [] && b != [] && a[0] == b[0] {
      PrecedesIsTotal(a[1..], b[1..]);
      assert a == [a[0]] + a[1..] && b == [b[0]] + b[1..];
    }
  }

  lemma {:induction false} PrecedesIsTransitive(a: string, b: string, c: string)
    requires Precedes(a, b) && Precedes(b, c)
    ensures Precedes(a, c)
  {
    if a != [] && a[0] == b[0] && b[0] == c[0] {
      PrecedesIsTransitive(a[1..], b[1..], c[1..]);
    }
  }

  lemma OutranksIsTotal(a: AdapterCount, b: AdapterCount)
    ensures a == b || Outranks(a, b) || Outranks(b, a)
    ensures !(Outranks(a, b) && Outranks(b, a))
    ensures !Outranks(a, a)
  {
    PrecedesIsTotal(a.id, b.id);
    PrecedesIsTotal(a.id, a.id);
  }

  lemma OutranksIsTransitive(a: AdapterCount, b: AdapterCount, c: AdapterCount)
    requires Outranks(a, b) && Outranks(b, c)
    ensures Outranks(a, c)
  {
    if a.count == b.count == c.count {
      PrecedesIsTransitive(a.id, b.id, c.id);
    }
  }

  ghost predicate Ranked(s: seq<AdapterCount>) {
    forall i, j :: 0 <= i < j < |s| ==> Outranks(s[i], s[j])
  }

  ghost predicate IsRankingOf(s: seq<AdapterCount>, counts: map<string, int>) {
    && Ranked(s)
    && (forall x :: x in s <==> x.id in counts && counts[x.id] == x.count)
  }

  function Insert(x: AdapterCount, s: seq<AdapterCount>): seq<AdapterCount> {
    if s == [] || Outranks(x, s[0]) then [x] + s else [s[0]] + Insert(x, s[1..])
  }

  lemma {:induction false} InsertKeeps(x: AdapterCount, s: seq<AdapterCount>)
    ensures forall y :: y in Insert(x, s) <==> y == x || y in s
    ensures Sum(Insert(x, s)) == x.count + Sum(s)
  {
    if s == [] || Outranks(x, s[0]) {
      assert ([x] + s)[1..] == s;
    } else {
      InsertKeeps(x, s[1..]);
      assert Insert(x, s)[1..] == Insert(x, s[1..]);
      assert s == [s[0]] + s[1..];
    }
  }

  lemma {:induction false} InsertRanks(x: AdapterCount, s: seq<AdapterCount>)
    requires Ranked(s) && x !in s
    ensures Ranked(Insert(x, s))
  {
    if s == [] {
    } else if Outranks(x, s[0]) {
      forall j | 0 <= j < |s| ensures Outranks(x, s[j]) {
        if j > 0 {
          OutranksIsTransitive(x, s[0], s[j]);
        }
      }
    } else {
      var rest := Insert(x, s[1..]);
      InsertRanks(x, s[1..]);
      InsertKeeps(x, s[1..]);
      OutranksIsTotal(x, s[0]);
      forall j | 0 <= j < |rest| ensures Outranks(s[0], rest[j]) {
        assert rest[j] in rest;
        assert rest[j] == x || rest[j] in s[1..];
      }
    }
  }

  /** Adding an adapter to the counts adds its row to the table. */
  lemma InsertExtends(s: seq<AdapterCount>, counts: map<string, int>, id: string, n: int)
    requires IsRankingOf(s, counts) && id !in counts
    ensures IsRankingOf(Insert(AdapterCount(id, n), s), counts[id := n])
  {
    hide Outranks, Insert;
    InsertRanks(AdapterCount(id, n), s);
    InsertKeeps(AdapterCount(id, n), s);
  }

  lemma EmptyIff(s: seq<AdapterCount>)
    ensures s == [] <==> forall x :: x !in s
  {
    if s != [] {
      assert s[0] in s;
    }
  }

  /** There is only one such table. */
  lemma {:induction false} RankedIsUnique(a: seq<AdapterCount>, b: seq<AdapterCount>)
    requires Ranked(a) && Ranked(b)
    requires forall x :: x in a <==> x in b
    ensures a == b
  {
    hide Outranks;
    EmptyIff(a);
    EmptyIff(b);
    if a != [] {
      assert a[0] in b && b[0] in a;
      HeadOutranks(a, b[0]);
      HeadOutranks(b, a[0]);
      OutranksIsTotal(a[0], b[0]);
      TailIsTheRest(a);
      TailIsTheRest(b);
      RankedIsUnique(a[1..], b[1..]);
      assert a == [a[0]] + a[1..] && b == [b[0]] + b[1..];
    }
  }

  lemma HeadOutranks(s: seq<AdapterCount>, x: AdapterCount)
    requires Ranked(s) && x in s
    ensures x == s[0] || Outranks(s[0], x)
  {
    hide Outranks;
    var i :| 0 <= i < |s| && s[i] == x;
    assert i == 0 || Outranks(s[0], s[i]);
  }

  lemma TailIsTheRest(s: seq<AdapterCount>)
    requires Ranked(s) && s != []
    ensures Ranked(s[1..])
    ensures forall x :: x in s[1..] <==> x in s && x != s[0]
  {
    hide Outranks;
    OutranksIsTotal(s[0], s[0]);
    assert s == [s[0]] + s[1..];
    forall x | x in s[1..] ensures x != s[0] {
      var i :| 0 <= i < |s[1..]| && s[1..][i] == x;
      assert Outranks(s[0], s[i + 1]);
    }
  }

  lemma EmptyTable()
    ensures IsRankingOf([], map[])
  {
  }

  /** `sorted(counts.items())` */
  ghost function Ranking(counts: map<string, int>): (s: seq<AdapterCount>)
    ensures IsRankingOf(s, counts)
    decreases |counts|
  {
    if counts == map[] then []
    else
      assert counts.Keys != {};
      var id :| id in counts;
      var rest := counts - {id};
      assert rest[id := counts[id]] == counts;
      assert |counts| == |rest| + 1 by {
        assert rest.Keys == counts.Keys - {id};
      }
      InsertExtends(Ranking(rest), rest, id, counts[id]);
      Insert(AdapterCount(id, counts[id]), Ranking(rest))
  }

  lemma RankingIsUnique(s: seq<AdapterCount>, counts: map<string, int>)
    requires IsRankingOf(s, counts)
    ensures s == Ranking(counts)
  {
    hide Outranks, Ranking;
    RankedIsUnique(s, Ranking(counts));
  }

  // ----- summing per adapter

  function Sum(s: seq<AdapterCount>): int {
    if s == [] then 0 else s[0].count + Sum(s[1..])
  }

  predicate HasAdapter(row: Row) {
    row.labels.Named? && row.labels.id != ""
  }

  function Lookup(counts: map<string, int>, id: string): int {
    if id in counts then counts[id] else 0
  }

  function Counts(rows: seq<Row>): map<string, int> {
    if rows == [] then map[]
    else
      var counts, last := Counts(rows[..|rows| - 1]), rows[|rows| - 1];
      if HasAdapter(last) then counts[last.labels.id := Lookup(counts, last.labels.id) + last.total]
      else counts
  }

  /** everything the rows attribute to some adapter */
  function Attributed(rows: seq<Row>): int {
    if rows == [] then 0
    else
      var last := rows[|rows| - 1];
      Attributed(rows[..|rows| - 1]) + if HasAdapter(last) then last.total else 0
  }

  function Share(row: Row, id: string): int {
    if HasAdapter(row) && row.labels.id == id then row.total else 0
  }

  function Total(rows: seq<Row>, id: string): int {
    if rows == [] then 0 else Total(rows[..|rows| - 1], id) + Share(rows[|rows| - 1], id)
  }

  lemma {:induction false} CountsAreTotals(rows: seq<Row>, id: string)
    ensures id in Counts(rows) <==> exists row :: row in rows && row.labels == Named(id) && id != ""
    ensures id in Counts(rows) ==> Counts(rows)[id] == Total(rows, id)
    ensures id !in Counts(rows) ==> Total(rows, id) == 0
  {
    if rows == [] {
    } else {
      var front, last := rows[..|rows| - 1], rows[|rows| - 1];
      CountsAreTotals(front, id);
      assert rows == front + [last];
    }
  }

  lemma {:induction false} TotalWithout(rows: seq<Row>, i: nat, id: string)
    requires i < |rows|
    ensures Total(rows, id) == Total(rows[..i] + rows[i + 1..], id) + Share(rows[i], id)
  {
    var n := |rows| - 1;
    if i == n {
      assert rows[..i] + rows[i + 1..] == rows[..n];
    } else {
      var front := rows[..n];
      TotalWithout(front, i, id);
      var without := rows[..i] + rows[i + 1..];
      assert without[..|without| - 1] == front[..i] + front[i + 1..];
      assert without[|without| - 1] == rows[n];
    }
  }

  lemma {:induction false} TotalIgnoresOrder(rows: seq<Row>, shuffled: seq<Row>, id: string)
    requires multiset(rows) == multiset(shuffled)
    ensures Total(rows, id) == Total(shuffled, id)
    decreases |rows|
  {
    assert |rows| == |multiset(rows)| == |multiset(shuffled)| == |shuffled|;
    if rows != [] {
      var front, last := rows[..|rows| - 1], rows[|rows| - 1];
      assert rows == front + [last];
      assert last in multiset(shuffled);
      var i :| 0 <= i < |shuffled| && shuffled[i] == last;
      TakingOut(shuffled, i);
      TotalWithout(shuffled, i, id);
      TotalIgnoresOrder(front, shuffled[..i] + shuffled[i + 1..], id);
    }
  }

  lemma CountsIgnoreOrder(rows: seq<Row>, shuffled: seq<Row>)
    requires multiset(rows) == multiset(shuffled)
    ensures Counts(rows) == Counts(shuffled)
  {
    hide Counts, Total;
    forall row: Row ensures row in rows <==> row in shuffled {
      assert row in multiset(rows) <==> row in multiset(shuffled);
    }
    forall id: string
      ensures id in Counts(rows) <==> id in Counts(shuffled)
      ensures id in Counts(rows) ==> Counts(rows)[id] == Counts(shuffled)[id]
    {
      CountsAreTotals(rows, id);
      CountsAreTotals(shuffled, id);
      TotalIgnoresOrder(rows, shuffled, id);
    }
  }

  lemma SumAfterUpdate(counts: map<string, int>, id: string, n: int)
    ensures Sum(Ranking(counts[id := n])) == Sum(Ranking(counts)) - Lookup(counts, id) + n
  {
    hide Outranks, Ranking, Insert, Sum, IsRankingOf;
    var rest := counts - {id};
    InsertExtends(Ranking(rest), rest, id, n);
    InsertKeeps(AdapterCount(id, n), Ranking(rest));
    assert rest[id := n] == counts[id := n];
    RankingIsUnique(Insert(AdapterCount(id, n), Ranking(rest)), counts[id := n]);
    if id in counts {
      InsertExtends(Ranking(rest), rest, id, counts[id]);
      InsertKeeps(AdapterCount(id, counts[id]), Ranking(rest));
      assert rest[id := counts[id]] == counts;
      RankingIsUnique(Insert(AdapterCount(id, counts[id]), Ranking(rest)), counts);
    } else {
      assert rest == counts;
    }
  }

  /** The table accounts for everything the rows attribute to an adapter. */
  lemma {:induction false} RankingConserves(rows: seq<Row>)
    ensures Sum(Ranking(Counts(rows))) == Attributed(rows)
  {
    hide Ranking, Outranks, Lookup;
    if rows == [] {
      RankingIsUnique([], map[]);
    } else {
      var last := rows[|rows| - 1];
      var counts := Counts(rows[..|rows| - 1]);
      RankingConserves(rows[..|rows| - 1]);
      if HasAdapter(last) {
        SumAfterUpdate(counts, last.labels.id, Lookup(counts, last.labels.id) + last.total);
      }
    }
  }

  // ----- binning

  function Top(ranked: seq<AdapterCount>): seq<AdapterCount> {
    if |ranked| <= LISTED then ranked else ranked[..LISTED]
  }

  function Binned(ranked: seq<AdapterCount>): seq<AdapterCount> {
    if |ranked| <= LISTED then [] else ranked[LISTED..]
  }

  ghost function Report(rows: seq<Row>): seq<AdapterCount> {
    var ranked := Ranking(Counts(rows));
    var other := Sum(Binned(ranked));
    Top(ranked) + if other > 0 then [AdapterCount("other", other)] else []
  }

  lemma {:induction false} SumOfParts(a: seq<AdapterCount>, b: seq<AdapterCount>)
    ensures Sum(a + b) == Sum(a) + Sum(b)
  {
    if a == [] {
      assert a + b == b;
    } else {
      SumOfParts(a[1..], b);
      assert (a + b)[1..] == a[1..] + b;
    }
  }

  lemma {:induction false} SumOfNonNegatives(s: seq<AdapterCount>)
    requires forall x :: x in s ==> x.count >= 0
    ensures Sum(s) >= 0
  {
    if s != [] {
      SumOfNonNegatives(s[1..]);
    }
  }

  /** The table and its bin account for the attributed total exactly when the binned counts do
      not sum to less than nothing: a negative bin is dropped without a trace. */
  lemma ConservationIff(rows: seq<Row>)
    ensures Sum(Report(rows)) == Attributed(rows) <==> Sum(Binned(Ranking(Counts(rows)))) >= 0
  {
    hide Ranking, Counts, Attributed;
    RankingConserves(rows);
    var ranked := Ranking(Counts(rows));
    SumOfParts(Top(ranked), Binned(ranked));
    assert ranked == Top(ranked) + Binned(ranked);
    var other := Sum(Binned(ranked));
    SumOfParts(Top(ranked), [AdapterCount("other", other)]);
    assert Top(ranked) + [] == Top(ranked);
  }

  lemma {:induction false} TotalsAreNonNegative(rows: seq<Row>, id: string)
    requires forall row :: row in rows ==> row.total >= 0
    ensures Total(rows, id) >= 0
  {
    if rows != [] {
      TotalsAreNonNegative(rows[..|rows| - 1], id);
    }
  }

  /** In particular nothing is lost when the rows only count upwards. */
  lemma CountersAreConserved(rows: seq<Row>)
    requires forall row :: row in rows ==> row.total >= 0
    ensures Sum(Report(rows)) == Attributed(rows)
  {
    hide Ranking, Counts, Total, Report, Attributed, Outranks;
    var ranked := Ranking(Counts(rows));
    forall x | x in Binned(ranked) ensures x.count >= 0 {
      assert x in ranked;
      CountsAreTotals(rows, x.id);
      TotalsAreNonNegative(rows, x.id);
    }
    SumOfNonNegatives(Binned(ranked));
    ConservationIff(rows);
  }

  /** At most twenty adapters and one bin; every adapter among the rows is listed with its total,
      or twenty others that outrank it are. */
  lemma ListedOutrankBinned(rows: seq<Row>, row: Row)
    requires row in rows && HasAdapter(row)
    ensures |Report(rows)| <= 21
    ensures var adapter := AdapterCount(row.labels.id, Total(rows, row.labels.id));
            || adapter in Report(rows)
            || (|Report(rows)| >= 20
                && forall i :: 0 <= i < 20 ==> Outranks(Report(rows)[i], adapter))
  {
    hide Ranking, Counts, Total, Outranks, Sum;
    var adapter := AdapterCount(row.labels.id, Total(rows, row.labels.id));
    CountsAreTotals(rows, row.labels.id);
    var ranked := Ranking(Counts(rows));
    assert adapter in ranked;
    var j :| 0 <= j < |ranked| && ranked[j] == adapter;
    if j < LISTED {
      assert Top(ranked)[j] == adapter;
    } else {
      forall i | 0 <= i < LISTED ensures Outranks(Report(rows)[i], adapter) {
        assert Outranks(ranked[i], ranked[j]);
        assert Report(rows)[i] == ranked[i];
      }
    }
  }

  /** What the last row of a table of more than twenty adapters is: the sum of the others under
      the name "other", if that is positive. */
  lemma BinIsOther(rows: seq<Row>)
    ensures var ranked := Ranking(Counts(rows));
            var report := Report(rows);
            && (|ranked| <= 20 ==> report == ranked)
            && (|ranked| > 20 ==>
                  report == if Sum(ranked[20..]) > 0 then ranked[..20] + [AdapterCount("other", Sum(ranked[20..]))]
                            else ranked[..20])
  {
    hide Ranking, Counts, Sum;
    var ranked := Ranking(Counts(rows));
    EmptySum();
    assert Top(ranked) + [] == Top(ranked);
  }

  lemma EmptySum()
    ensures Sum([]) == 0
  {
  }

  /** The database may group and return the rows in any order. */
  lemma ReportIgnoresRowOrder(rows: seq<Row>, shuffled: seq<Row>)
    requires multiset(rows) == multiset(shuffled)
    ensures Report(rows) == Report(shuffled)
  {
    hide Counts, Ranking, Sum, Top, Binned;
    CountsIgnoreOrder(rows, shuffled);
  }

  // ----- the collector

  ghost predicate SomeNotAnObject(rows: seq<Row>) {
    exists row :: row in rows && row.labels.NotAnObject?
  }

  /** Loop over the rows; labels that parse to something without `get` abort the whole section. */
  method SumPerAdapter(rows: seq<Row>) returns (counts: Option<map<string, int>>)
    ensures counts.None? <==> SomeNotAnObject(rows)
    ensures counts.Some? ==> counts.value == Counts(rows)
  {
    var sums: map<string, int> := map[];
    for i := 0 to |rows|
      invariant sums == Counts(rows[..i])
      invariant !SomeNotAnObject(rows[..i])
    {
      var row := rows[i];
      assert rows[..i + 1][..i] == rows[..i];
      if row.labels.NotAnObject? {
        assert row in rows;
        return None;
      }
      if row.labels.Named? && row.labels.id != "" {
        sums := sums[row.labels.id := Lookup(sums, row.labels.id) + row.total];
      }
    }
    assert rows[..|rows|] == rows;
    counts := Some(sums);
  }

  method SortItems(counts: map<string, int>) returns (ranked: seq<AdapterCount>)
    ensures ranked == Ranking(counts)
  {
    hide Outranks, Insert, Ranking, IsRankingOf;
    ranked := [];
    ghost var done: map<string, int> := map[];
    var left := counts.Keys;
    EmptyTable();
    while left != {}
      invariant left <= counts.Keys && done == counts - left
      invariant IsRankingOf(ranked, done)
      decreases |left|
    {
      var id :| id in left;
      InsertExtends(ranked, done, id, counts[id]);
      ranked := Insert(AdapterCount(id, counts[id]), ranked);
      done := done[id := counts[id]];
      left := left - {id};
    }
    assert done == counts;
    RankingIsUnique(ranked, counts);
  }

  method BinAdapters(rows: seq<Row>) returns (report: Option<seq<AdapterCount>>)
    ensures report.None? <==> SomeNotAnObject(rows)
    ensures report.Some? ==> report.value == Report(rows)
  {
    hide Outranks, Ranking, Counts;
    var counts := SumPerAdapter(rows);
    if counts.None? {
      return None;
    }
    var ranked := SortItems(counts.value);
    var other := 0;
    var i := LISTED;
    while i < |ranked|
      invariant |ranked| <= LISTED ==> i == LISTED
      invariant |ranked| > LISTED ==> LISTED <= i <= |ranked|
      invariant other + Sum(if i < |ranked| then ranked[i..] else []) == Sum(Binned(ranked))
    {
      other := other + ranked[i].count;
      assert ranked[i..][1..] == ranked[i + 1..];
      i := i + 1;
    }
    var table := Top(ranked);
    if other > 0 {
      table := table + [AdapterCount("other", other)];
    }
    report := Some(table);
  }
}

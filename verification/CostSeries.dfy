/** The cost-by-service chart: seven named services and an "Other" fold (ui/routes/dashboard.py,
  * fetch_cost_series).  Amounts are reals; a bucket is the day number of a date. */
module CostSeries {
  import opened Ledger

  datatype Row = Row(bucket: int, service: string, eur: real)

  const OTHER := "Other"

  /** How many services keep their own series. */
  const NAMED := 7

  function ByService(rows: seq<Row>): (items: seq<Item<string>>)
    ensures |items| == |rows|
    ensures forall i :: 0 <= i < |rows| ==> items[i] == Item(rows[i].service, rows[i].eur)
  {
    seq(|rows|, i requires 0 <= i < |rows| => Item(rows[i].service, rows[i].eur))
  }

  function ByBucket(rows: seq<Row>): (items: seq<Item<int>>)
    ensures |items| == |rows|
    ensures forall i :: 0 <= i < |rows| ==> items[i] == Item(rows[i].bucket, rows[i].eur)
  {
    seq(|rows|, i requires 0 <= i < |rows| => Item(rows[i].bucket, rows[i].eur))
  }

  /** The name a service is charted under. */
  function NameOf(top: seq<string>, service: string): string { if service in top then service else OTHER }

  /** One bucket's rows, under the names they are charted by. */
  function InBucket(rows: seq<Row>, top: seq<string>, bucket: int): seq<Item<string>> {
    if rows == [] then []
    else
      (if rows[0].bucket == bucket then [Item(NameOf(top, rows[0].service), rows[0].eur)] else [])
      + InBucket(rows[1..], top, bucket)
  }

  // ----- ranking the services ----------------------------------------------------------------------

  /** x goes in front of the first entry that is not larger: equal totals keep their order. */
  function Insert(x: Item<string>, s: seq<Item<string>>): seq<Item<string>> {
    if s == [] || s[0].amount <= x.amount then [x] + s else [s[0]] + Insert(x, s[1..])
  }

  /** Stable sort, largest amount first. */
  function Ranked(s: seq<Item<string>>): seq<Item<string>> {
    if s == [] then [] else Insert(s[0], Ranked(s[1..]))
  }

  predicate Descending(s: seq<Item<string>>) {
    forall i, j :: 0 <= i < j < |s| ==> s[i].amount >= s[j].amount
  }

  predicate DistinctKeys(s: seq<Item<string>>) {
    forall i, j :: 0 <= i < j < |s| ==> s[i].key != s[j].key
  }

  lemma {:induction false} InsertFacts(x: Item<string>, s: seq<Item<string>>)
    requires Descending(s) && DistinctKeys(s)
    requires forall i :: 0 <= i < |s| ==> s[i].key != x.key
    ensures Descending(Insert(x, s)) && DistinctKeys(Insert(x, s))
    ensures |Insert(x, s)| == |s| + 1
    ensures forall y :: y in Insert(x, s) <==> y == x || y in s
  {
    if s != [] && s[0].amount > x.amount {
      InsertFacts(x, s[1..]);
      assert forall y :: y in s <==> y == s[0] || y in s[1..];
      Ahead(s[0], Insert(x, s[1..]));
    } else {
      Ahead(x, s);
    }
  }

  lemma Ahead(x: Item<string>, t: seq<Item<string>>)
    requires Descending(t) && DistinctKeys(t) && forall y :: y in t ==> y.amount <= x.amount && y.key != x.key
    ensures Descending([x] + t) && DistinctKeys([x] + t) && forall y :: y in [x] + t <==> y == x || y in t
  {
    assert forall i :: 0 <= i < |t| ==> t[i] in t;
  }

  lemma {:induction false} RankedFacts(s: seq<Item<string>>)
    requires DistinctKeys(s)
    ensures Descending(Ranked(s)) && DistinctKeys(Ranked(s)) && |Ranked(s)| == |s|
    ensures forall y :: y in Ranked(s) <==> y in s
  {
    if s != [] {
      RankedFacts(s[1..]);
      assert forall y :: y in s <==> y == s[0] || y in s[1..];
      var t := Ranked(s[1..]);
      forall i | 0 <= i < |t| ensures t[i].key != s[0].key {
        assert t[i] in t;
      }
      InsertFacts(s[0], t);
    }
  }

  function Services(rows: seq<Row>): seq<string> { Keys(ByService(rows)) }

  function ServiceTotal(rows: seq<Row>, service: string): real { KeySum(ByService(rows), service) }

  function Totals(rows: seq<Row>): (items: seq<Item<string>>)
    ensures |items| == |Services(rows)|
    ensures forall i :: 0 <= i < |items| ==>
              items[i] == Item(Services(rows)[i], ServiceTotal(rows, Services(rows)[i]))
    ensures DistinctKeys(items)
  {
    var keys := Services(rows);
    seq(|keys|, i requires 0 <= i < |keys| => Item(keys[i], ServiceTotal(rows, keys[i])))
  }

  /** The services with a series of their own, largest total first. */
  function Top(rows: seq<Row>): seq<string> {
    RankedFacts(Totals(rows));
    var ranked := Ranked(Totals(rows));
    var n := if |ranked| < NAMED then |ranked| else NAMED;
    seq(n, i requires 0 <= i < n => ranked[i].key)
  }

  function SeriesNames(rows: seq<Row>): seq<string> {
    Top(rows) + if |Services(rows)| > |Top(rows)| then [OTHER] else []
  }

  /** The i-th ranked entry is a service with its total... */
  lemma RankHolds(rows: seq<Row>, i: nat)
    requires i < |Ranked(Totals(rows))|
    ensures var r := Ranked(Totals(rows))[i];
            r.key in Services(rows) && r.amount == ServiceTotal(rows, r.key)
  {
    RankedFacts(Totals(rows));
    assert Ranked(Totals(rows))[i] in Totals(rows);
  }

  /** ...and every service is ranked. */
  lemma RankOf(rows: seq<Row>, service: string) returns (i: nat)
    requires service in Services(rows)
    ensures i < |Ranked(Totals(rows))| && Ranked(Totals(rows))[i] == Item(service, ServiceTotal(rows, service))
  {
    RankedFacts(Totals(rows));
    var k :| 0 <= k < |Services(rows)| && Services(rows)[k] == service;
    assert Totals(rows)[k] in Ranked(Totals(rows));
    i :| 0 <= i < |Ranked(Totals(rows))| && Ranked(Totals(rows))[i] == Totals(rows)[k];
  }

  /** The named services are distinct, at most seven, all of them when there are no more than seven. */
  lemma TopFacts(rows: seq<Row>)
    ensures Distinct(Top(rows))
    ensures |Top(rows)| == if |Services(rows)| < 7 then |Services(rows)| else 7
    ensures forall s :: s in Top(rows) ==> s in Services(rows)
    ensures |Services(rows)| <= NAMED ==> forall s :: s in Services(rows) ==> s in Top(rows)
  {
    hide Ranked, Totals, Services, ServiceTotal;
    RankedFacts(Totals(rows));
    forall i | 0 <= i < |Top(rows)| ensures Top(rows)[i] in Services(rows) {
      RankHolds(rows, i);
    }
    forall s | |Services(rows)| <= NAMED && s in Services(rows) ensures s in Top(rows) {
      var i := RankOf(rows, s);
      assert Top(rows)[i] == s;
    }
  }

  /** No named service costs less than a folded one. */
  lemma NamedCostMost(rows: seq<Row>, named: string, folded: string)
    requires named in Top(rows) && folded in Services(rows) && folded !in Top(rows)
    ensures ServiceTotal(rows, named) >= ServiceTotal(rows, folded)
  {
    hide Ranked, Totals, Services, ServiceTotal;
    RankedFacts(Totals(rows));
    var i :| 0 <= i < |Top(rows)| && Top(rows)[i] == named;
    RankHolds(rows, i);
    var j := RankOf(rows, folded);
    assert forall k :: 0 <= k < |Top(rows)| ==> Top(rows)[k] == Ranked(Totals(rows))[k].key && Top(rows)[k] != folded;
  }

  /** The named services are ranked by cost, equal ones in the order they turn up in. */
  lemma TopIsRanked(rows: seq<Row>, i: nat, j: nat)
    requires i < j < |Top(rows)|
    ensures ServiceTotal(rows, Top(rows)[i]) >= ServiceTotal(rows, Top(rows)[j])
    ensures ServiceTotal(rows, Top(rows)[i]) == ServiceTotal(rows, Top(rows)[j]) ==>
              exists a, b :: 0 <= a < b < |Services(rows)| && Services(rows)[a] == Top(rows)[i] && Services(rows)[b] == Top(rows)[j]
  {
    hide Ranked, Totals, Services, ServiceTotal;
    var items := Totals(rows);
    RankedFacts(items);
    RankHolds(rows, i);
    RankHolds(rows, j);
    var x, y := Ranked(items)[i], Ranked(items)[j];
    if x.amount == y.amount {
      TiesKeepTheirOrder(items, i, j);
      var a, b :| 0 <= a < b < |items| && items[a] == x && items[b] == y;
      assert Services(rows)[a] == Top(rows)[i] && Services(rows)[b] == Top(rows)[j];
    }
  }

  predicate InThisOrder(s: seq<Item<string>>, x: Item<string>, y: Item<string>) {
    exists a, b :: 0 <= a < b < |s| && s[a] == x && s[b] == y
  }

  lemma {:induction false} TiesKeepTheirOrder(s: seq<Item<string>>, i: nat, j: nat)
    requires DistinctKeys(s) && i < j < |Ranked(s)| && Ranked(s)[i].amount == Ranked(s)[j].amount
    ensures InThisOrder(s, Ranked(s)[i], Ranked(s)[j])
  {
    var first, t := s[0], Ranked(s[1..]);
    RankedFacts(s[1..]);
    var at := InsertedAt(first, t);
    assert Ranked(s) == Insert(first, t);
    var x, y := Ranked(s)[i], Ranked(s)[j];
    WithInserted(t, at, first, i);
    WithInserted(t, at, first, j);
    hide *;
    if i == at {
      assert y == t[j-1] && y in t;
      FirstThen(s, y);
    } else {
      assert j != at;
      RestIsDistinct(s);
      TiesKeepTheirOrder(s[1..], if i < at then i else i - 1, if j < at then j else j - 1);
      ThenAlso(s, x, y);
    }
  }

  lemma WithInserted(t: seq<Item<string>>, at: nat, x: Item<string>, i: nat)
    requires at <= |t| && i <= |t|
    ensures (t[..at] + [x] + t[at..])[i] == if i < at then t[i] else if i == at then x else t[i-1]
  {
  }

  lemma RestIsDistinct(s: seq<Item<string>>)
    requires s != [] && DistinctKeys(s)
    ensures DistinctKeys(s[1..])
  {
  }

  lemma FirstThen(s: seq<Item<string>>, y: Item<string>)
    requires s != [] && y in s[1..]
    ensures InThisOrder(s, s[0], y)
  {
    var b :| 0 <= b < |s[1..]| && s[1..][b] == y;
    assert s[b+1] == y;
  }

  lemma ThenAlso(s: seq<Item<string>>, x: Item<string>, y: Item<string>)
    requires s != [] && InThisOrder(s[1..], x, y)
    ensures InThisOrder(s, x, y)
  {
    var a, b :| 0 <= a < b < |s[1..]| && s[1..][a] == x && s[1..][b] == y;
    assert s[a+1] == x && s[b+1] == y;
  }

  /** Where an entry is inserted: in front of all that are not larger. */
  lemma {:induction false} InsertedAt(x: Item<string>, s: seq<Item<string>>) returns (at: nat)
    requires Descending(s)
    ensures at <= |s| && Insert(x, s) == s[..at] + [x] + s[at..]
    ensures (forall i :: 0 <= i < at ==> s[i].amount > x.amount) && (at < |s| ==> s[at].amount <= x.amount)
  {
    if s == [] || s[0].amount <= x.amount {
      at := 0;
    } else {
      at := InsertedAt(x, s[1..]);
      at := at + 1;
    }
  }

  // ----- the chart data ----------------------------------------------------------------------------

  function InsertDay(x: int, s: seq<int>): seq<int> {
    if s == [] || x < s[0] then [x] + s else if x == s[0] then s else [s[0]] + InsertDay(x, s[1..])
  }

  /** The buckets, each once, in order. */
  function Buckets(rows: seq<Row>): seq<int> {
    if rows == [] then [] else InsertDay(rows[0].bucket, Buckets(rows[1..]))
  }

  predicate Ascending(s: seq<int>) { forall i, j :: 0 <= i < j < |s| ==> s[i] < s[j] }

  lemma {:induction false} InsertDayFacts(x: int, s: seq<int>)
    requires Ascending(s)
    ensures Ascending(InsertDay(x, s)) && forall y :: y in InsertDay(x, s) <==> y == x || y in s
  {
    if s != [] && s[0] < x {
      InsertDayFacts(x, s[1..]);
      var t := InsertDay(x, s[1..]);
      assert forall y :: y in s <==> y == s[0] || y in s[1..];
      PutInFront(s[0], t);
    } else if s != [] && x < s[0] {
      PutInFront(x, s);
    }
  }

  lemma PutInFront(x: int, t: seq<int>)
    requires Ascending(t) && forall y :: y in t ==> x < y
    ensures Ascending([x] + t) && forall y :: y in [x] + t <==> y == x || y in t
  {
    assert forall i :: 0 <= i < |t| ==> t[i] in t;
  }

  lemma {:induction false} BucketsFacts(rows: seq<Row>)
    ensures Ascending(Buckets(rows)) && Distinct(Buckets(rows))
    ensures forall y :: y in Buckets(rows) <==> exists i :: 0 <= i < |rows| && rows[i].bucket == y
  {
    if rows != [] {
      BucketsFacts(rows[1..]);
      InsertDayFacts(rows[0].bucket, Buckets(rows[1..]));
      forall y ensures y in Buckets(rows) <==> exists i :: 0 <= i < |rows| && rows[i].bucket == y {
        if y in Buckets(rows[1..]) {
          var i :| 0 <= i < |rows[1..]| && rows[1..][i].bucket == y;
          assert rows[i+1].bucket == y;
        }
        if i :| 0 < i < |rows| && rows[i].bucket == y {
          assert rows[1..][i-1].bucket == y;
        }
      }
    }
  }

  /** The exact amount charted for a name in a bucket, before rounding. */
  function Cell(rows: seq<Row>, bucket: int, name: string): real {
    KeySum(InBucket(rows, Top(rows), bucket), name)
  }

  /** What the rows of a bucket cost together, by a test on their service. */
  function Spent(rows: seq<Row>, bucket: int, p: string -> bool): real {
    if rows == [] then 0.0
    else (if rows[0].bucket == bucket && p(rows[0].service) then rows[0].eur else 0.0) + Spent(rows[1..], bucket, p)
  }

  /** The cell of a named service holds that service's rows of the bucket; the cell of the fold holds those of
    * every service without a series of its own, and those of a named service that is itself called "Other". */
  lemma CellIs(rows: seq<Row>, bucket: int, name: string)
    ensures name in Top(rows) && name != "Other" ==>
              Cell(rows, bucket, name) == Spent(rows, bucket, (s: string) => s == name)
    ensures Cell(rows, bucket, "Other") == Spent(rows, bucket, (s: string) => s == "Other" || s !in Top(rows))
    ensures name !in Top(rows) && name != "Other" ==> Cell(rows, bucket, name) == 0.0
  {
    hide Top;
    SumUnderName(rows, Top(rows), bucket, name);
    SumUnderName(rows, Top(rows), bucket, "Other");
  }

  lemma {:induction false} SumUnderName(rows: seq<Row>, top: seq<string>, bucket: int, name: string)
    ensures name in top && name != "Other" ==>
              KeySum(InBucket(rows, top, bucket), name) == Spent(rows, bucket, (s: string) => s == name)
    ensures name == "Other" ==>
              KeySum(InBucket(rows, top, bucket), name) == Spent(rows, bucket, (s: string) => s == "Other" || s !in top)
    ensures name !in top && name != "Other" ==> KeySum(InBucket(rows, top, bucket), name) == 0.0
  {
    if rows != [] {
      SumUnderName(rows[1..], top, bucket, name);
      var item := Item(NameOf(top, rows[0].service), rows[0].eur);
      KeySumConcat(if rows[0].bucket == bucket then [item] else [], InBucket(rows[1..], top, bucket), name);
      assert [item][1..] == [];
    }
  }

  datatype Chart = Chart(buckets: seq<int>, names: seq<string>, data: seq<seq<real>>, total: real, serviceCount: nat)

  lemma {:induction false} InBucketGrows(rows: seq<Row>, i: nat, top: seq<string>, bucket: int)
    requires i < |rows|
    ensures InBucket(rows[..i+1], top, bucket)
         == if rows[i].bucket == bucket
            then InBucket(rows[..i], top, bucket) + [Item(NameOf(top, rows[i].service), rows[i].eur)]
            else InBucket(rows[..i], top, bucket)
  {
    if i == 0 {
      assert rows[..1] == [rows[0]];
    } else {
      InBucketGrows(rows[1..], i - 1, top, bucket);
      assert rows[..i+1][1..] == rows[1..][..i] && rows[..i][1..] == rows[1..][..i-1];
    }
  }

  lemma CellGrows(rows: seq<Row>, i: nat, top: seq<string>, bucket: int, name: string)
    requires i < |rows|
    ensures KeySum(InBucket(rows[..i+1], top, bucket), name)
         == KeySum(InBucket(rows[..i], top, bucket), name)
          + if rows[i].bucket == bucket && NameOf(top, rows[i].service) == name then rows[i].eur else 0.0
  {
    hide KeySum, InBucket;
    InBucketGrows(rows, i, top, bucket);
    Extend(InBucket(rows[..i], top, bucket), Item(NameOf(top, rows[i].service), rows[i].eur));
  }

  function Get(cells: map<(int, string), real>, bucket: int, name: string): real {
    if (bucket, name) in cells then cells[(bucket, name)] else 0.0
  }

  method FillCells(rows: seq<Row>, top: seq<string>) returns (cells: map<(int, string), real>)
    ensures forall b, name :: Get(cells, b, name) == KeySum(InBucket(rows, top, b), name)
  {
    hide NameOf;
    cells := map[];
    for i := 0 to |rows|
      invariant forall b, name :: Get(cells, b, name) == KeySum(InBucket(rows[..i], top, b), name)
    {
      var bucket, name := rows[i].bucket, NameOf(top, rows[i].service);
      ghost var before := cells;
      cells := cells[(bucket, name) := Get(cells, bucket, name) + rows[i].eur];
      forall b, n ensures Get(cells, b, n) == KeySum(InBucket(rows[..i+1], top, b), n) {
        CellGrows(rows, i, top, b, n);
        assert Get(before, b, n) == KeySum(InBucket(rows[..i], top, b), n);
      }
    }
    assert rows[..|rows|] == rows;
  }

  method FetchCostSeries(rows: seq<Row>, round: real -> real) returns (c: Chart)
    ensures c.buckets == Buckets(rows) && c.names == SeriesNames(rows)
    ensures |c.data| == |c.names| && forall n :: 0 <= n < |c.names| ==> |c.data[n]| == |c.buckets|
    ensures forall n, b :: 0 <= n < |c.names| && 0 <= b < |c.buckets| ==>
              c.data[n][b] == round(Cell(rows, c.buckets[b], c.names[n]))
    ensures c.total == round(Total(ByService(rows))) && c.serviceCount == |Services(rows)|
  {
    hide Ranked, InBucket, Buckets, KeySum, Keys, Total;
    var buckets := Buckets(rows);
    var order, totals := Accumulate(ByService(rows));
    var items := seq(|order|, i requires 0 <= i < |order| && order[i] in totals => Item(order[i], totals[order[i]]));
    assert items == Totals(rows);
    RankedFacts(items);
    var ranked := Ranked(items);
    var top := seq(if |ranked| < NAMED then |ranked| else NAMED, i requires 0 <= i < |ranked| => ranked[i].key);
    assert top == Top(rows);
    var names := top + if |order| > |top| then [OTHER] else [];
    var cells := FillCells(rows, top);
    var data := Tabulate(rows, cells, names, buckets, round);
    var sum := SumValues(order, totals, ByService(rows));
    SumOverKeys(order, ByService(rows));
    c := Chart(buckets, names, data, round(sum), |order|);
  }

  method Tabulate(rows: seq<Row>, cells: map<(int, string), real>, names: seq<string>, buckets: seq<int>,
                  round: real -> real) returns (data: seq<seq<real>>)
    requires forall b, name :: Get(cells, b, name) == Cell(rows, b, name)
    ensures |data| == |names|
    ensures forall k :: 0 <= k < |names| ==> |data[k]| == |buckets|
    ensures forall k, b :: 0 <= k < |names| && 0 <= b < |buckets| ==> data[k][b] == round(Cell(rows, buckets[b], names[k]))
  {
    hide Cell;
    data := [];
    for n := 0 to |names|
      invariant |data| == n
      invariant forall k :: 0 <= k < n ==> |data[k]| == |buckets|
      invariant forall k, b :: 0 <= k < n && 0 <= b < |buckets| ==> data[k][b] == round(Cell(rows, buckets[b], names[k]))
    {
      data := data + [seq(|buckets|, b requires 0 <= b < |buckets| => round(Get(cells, buckets[b], names[n])))];
    }
  }

  method SumValues(order: seq<string>, totals: map<string, real>, ghost items: seq<Item<string>>) returns (sum: real)
    requires forall k :: k in order ==> k in totals && totals[k] == KeySum(items, k)
    ensures sum == SumKeys(order, items)
  {
    sum := 0.0;
    for i := 0 to |order|
      invariant sum + SumKeys(order[i..], items) == SumKeys(order, items)
    {
      sum := sum + totals[order[i]];
      assert order[i..][1..] == order[i+1..];
    }
  }

  // ----- conservation ------------------------------------------------------------------------------

  /** A service called "Other" has its own series and there is a fold of the same name. */
  predicate Clash(rows: seq<Row>) { OTHER in Top(rows) && |Services(rows)| > NAMED }

  lemma {:induction false} InBucketTotal(rows: seq<Row>, top: seq<string>, bucket: int)
    ensures Total(InBucket(rows, top, bucket)) == KeySum(ByBucket(rows), bucket)
  {
    hide NameOf;
    if rows != [] {
      InBucketTotal(rows[1..], top, bucket);
      assert ByBucket(rows)[1..] == ByBucket(rows[1..]);
      var rest := InBucket(rows[1..], top, bucket);
      if rows[0].bucket == bucket {
        assert InBucket(rows, top, bucket)[1..] == rest;
      } else {
        assert InBucket(rows, top, bucket) == rest;
      }
    }
  }

  lemma {:induction false} InBucketNames(rows: seq<Row>, top: seq<string>, bucket: int, item: Item<string>) returns (i: nat)
    requires item in InBucket(rows, top, bucket)
    ensures i < |rows| && item.key == NameOf(top, rows[i].service)
  {
    hide NameOf;
    if rows[0].bucket == bucket && item == Item(NameOf(top, rows[0].service), rows[0].eur) {
      i := 0;
    } else {
      i := InBucketNames(rows[1..], top, bucket, item);
      i := i + 1;
    }
  }

  /** Every charted name is covered by the series. */
  lemma NamesCover(rows: seq<Row>, bucket: int)
    ensures Covers(SeriesNames(rows), InBucket(rows, Top(rows), bucket))
    ensures Clash(rows) ==> Covers(Top(rows), InBucket(rows, Top(rows), bucket))
  {
    hide Top, InBucket;
    TopFacts(rows);
    var items := InBucket(rows, Top(rows), bucket);
    forall k | 0 <= k < |items|
      ensures items[k].key in SeriesNames(rows) && (Clash(rows) ==> items[k].key in Top(rows))
    {
      var i := InBucketNames(rows, Top(rows), bucket, items[k]);
      assert ByService(rows)[i].key in Services(rows);
    }
  }

  /** In every bucket the charted series add up to the bucket's rows; when a service named "Other" is
    * among the named ones and others are folded, its cell is counted once too often. */
  lemma BucketIsConserved(rows: seq<Row>, bucket: int)
    ensures SumKeys(SeriesNames(rows), InBucket(rows, Top(rows), bucket))
         == KeySum(ByBucket(rows), bucket) + if Clash(rows) then Cell(rows, bucket, OTHER) else 0.0
  {
    hide InBucket, Top;
    var items, top := InBucket(rows, Top(rows), bucket), Top(rows);
    TopFacts(rows);
    NamesCover(rows, bucket);
    InBucketTotal(rows, top, bucket);
    if Clash(rows) {
      SumOverKeys(top, items);
      SumKeysConcat(top, [OTHER], items);
      assert SumKeys([OTHER], items) == KeySum(items, OTHER) + SumKeys([], items);
    } else {
      SumOverKeys(SeriesNames(rows), items);
    }
  }

  /** So every bucket is conserved iff no named service is called "Other" while others are folded,
    * or nothing at all is charted under that name. */
  lemma ConservedIff(rows: seq<Row>)
    ensures (forall b :: SumKeys(SeriesNames(rows), InBucket(rows, Top(rows), b)) == KeySum(ByBucket(rows), b)) <==>
            !Clash(rows) || forall b :: Cell(rows, b, OTHER) == 0.0
  {
    hide *;
    if !Clash(rows) || forall b :: Cell(rows, b, OTHER) == 0.0 {
      forall b ensures SumKeys(SeriesNames(rows), InBucket(rows, Top(rows), b)) == KeySum(ByBucket(rows), b) {
        BucketIsConserved(rows, b);
      }
    } else {
      var b :| Cell(rows, b, OTHER) != 0.0;
      BucketIsConserved(rows, b);
    }
  }

  /** A service called "Other" that costs more than any other one clashes with the fold. */
  lemma LargestOtherClashes(rows: seq<Row>)
    requires OTHER in Services(rows) && |Services(rows)| > NAMED
    requires forall s :: s in Services(rows) && s != OTHER ==> ServiceTotal(rows, s) < ServiceTotal(rows, OTHER)
    ensures Clash(rows)
  {
    TopFacts(rows);
    if OTHER !in Top(rows) {
      NamedCostMost(rows, Top(rows)[0], OTHER);
    }
  }

  lemma {:induction false} KeysOfDistinct(items: seq<Item<string>>)
    requires DistinctKeys(items)
    ensures |Keys(items)| == |items| && forall i :: 0 <= i < |items| ==> Keys(items)[i] == items[i].key
  {
    if items != [] {
      hide Keys;
      var before, last := items[..|items|-1], items[|items|-1];
      KeysOfDistinct(before);
      ExtendKeys(before, last);
      assert items == before + [last];
    }
  }

  lemma {:induction false} SumOfDistinct(items: seq<Item<string>>, i: nat)
    requires DistinctKeys(items) && i < |items|
    ensures KeySum(items, items[i].key) == items[i].amount
  {
    if i == 0 {
      NoSuchKey(items[1..], items[0].key);
    } else {
      SumOfDistinct(items[1..], i - 1);
    }
  }

  lemma {:induction false} InBucketNonNegative(rows: seq<Row>, top: seq<string>, bucket: int)
    requires forall i :: 0 <= i < |rows| ==> 0.0 <= rows[i].eur
    ensures NonNegative(InBucket(rows, top, bucket))
  {
    if rows != [] { InBucketNonNegative(rows[1..], top, bucket); }
  }

  /** Eight services billed on one day, the dearest of them called "Other". */
  const EIGHT := [Row(0, OTHER, 100.0), Row(0, "A", 1.0), Row(0, "B", 1.0), Row(0, "C", 1.0),
                  Row(0, "D", 1.0), Row(0, "E", 1.0), Row(0, "F", 1.0), Row(0, "G", 1.0)]

  lemma EightClash()
    ensures Clash(EIGHT)
  {
    hide Top, Keys, KeySum;
    KeysOfDistinct(ByService(EIGHT));
    forall i | 0 <= i < 8 ensures ServiceTotal(EIGHT, EIGHT[i].service) == EIGHT[i].eur {
      SumOfDistinct(ByService(EIGHT), i);
    }
    assert Services(EIGHT)[0] == OTHER;
    LargestOtherClashes(EIGHT);
  }

  /** The bars then show at least that service's whole cost too much. */
  lemma OtherCountedTwice()
    ensures SumKeys(SeriesNames(EIGHT), InBucket(EIGHT, Top(EIGHT), 0)) >= KeySum(ByBucket(EIGHT), 0) + 100.0
  {
    EightClash();
    BucketIsConserved(EIGHT, 0);
    hide SumKeys, SeriesNames, Top, Clash;
    var top, rest := Top(EIGHT), InBucket(EIGHT[1..], Top(EIGHT), 0);
    InBucketNonNegative(EIGHT[1..], top, 0);
    KeySumNonNegative(rest, OTHER);
    assert InBucket(EIGHT, top, 0) == [Item(OTHER, 100.0)] + rest;
    hide InBucket;
    KeySumConcat([Item(OTHER, 100.0)], rest, OTHER);
    ExtendSum([], Item(OTHER, 100.0), OTHER);
    assert [] + [Item(OTHER, 100.0)] == [Item(OTHER, 100.0)];
  }

  /** All buckets together account for every row. */
  lemma BucketsAreExhaustive(rows: seq<Row>)
    ensures SumKeys(Buckets(rows), ByBucket(rows)) == Total(ByService(rows))
  {
    BucketsFacts(rows);
    forall i | 0 <= i < |rows| ensures ByBucket(rows)[i].key in Buckets(rows) {
      assert rows[i].bucket in Buckets(rows);
    }
    SumOverKeys(Buckets(rows), ByBucket(rows));
    SameTotal(rows);
  }

  lemma {:induction false} SameTotal(rows: seq<Row>)
    ensures Total(ByBucket(rows)) == Total(ByService(rows))
  {
    if rows != [] {
      SameTotal(rows[1..]);
      assert ByBucket(rows)[1..] == ByBucket(rows[1..]) && ByService(rows)[1..] == ByService(rows[1..]);
    }
  }

  /** "Other" is a series exactly when more than seven services exist, or a named service is called so. */
  lemma OtherIsChartedIff(rows: seq<Row>)
    ensures OTHER in SeriesNames(rows) <==> |Services(rows)| > NAMED || OTHER in Top(rows)
  {
    TopFacts(rows);
  }

  // ----- rounding ----------------------------------------------------------------------------------

  predicate Close(x: real, y: real, error: real) { -error <= x - y <= error }

  ghost predicate RoundsToCents(round: real -> real) {
    forall x :: Close(round(x), x, 0.005)
  }

  function RoundedSum(names: seq<string>, items: seq<Item<string>>, round: real -> real): real {
    if names == [] then 0.0 else round(KeySum(items, names[0])) + RoundedSum(names[1..], items, round)
  }

  lemma {:induction false} RoundingError(names: seq<string>, items: seq<Item<string>>, round: real -> real)
    requires RoundsToCents(round)
    ensures Close(RoundedSum(names, items, round), SumKeys(names, items), 0.005 * |names| as real)
  {
    if names != [] {
      RoundingError(names[1..], items, round);
      assert Close(round(KeySum(items, names[0])), KeySum(items, names[0]), 0.005);
    }
  }

  /** What a bar shows differs from the bucket's rows by at most half a cent per series. */
  lemma BarIsWithinHalfACentPerSeries(rows: seq<Row>, bucket: int, round: real -> real)
    requires RoundsToCents(round) && !Clash(rows)
    ensures Close(RoundedSum(SeriesNames(rows), InBucket(rows, Top(rows), bucket), round),
                  KeySum(ByBucket(rows), bucket), 0.005 * |SeriesNames(rows)| as real)
  {
    BucketIsConserved(rows, bucket);
    RoundingError(SeriesNames(rows), InBucket(rows, Top(rows), bucket), round);
  }
}

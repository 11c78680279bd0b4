/** The console's two usage reports (apps/control-plane/src/server/usage-service.ts) over the rollup table. */
module UsageReports {
  import opened Text
  import opened Calendar
  import opened Metering

  /** What the reports filter by. An empty id filters nothing. */
  datatype Query = Query(orgId: Id, startBucket: string, endBucket: string, keyId: Id, paddockId: Id)

  predicate Selects(q: Query, k: RollupKey) {
    && k.orgId == q.orgId && !Before(k.period, q.startBucket) && !Before(q.endBucket, k.period)
    && (q.keyId == "" || k.keyId == q.keyId) && (q.paddockId == "" || k.paddockId == q.paddockId)
  }

  datatype Pair = Pair(keyId: Id, paddockId: Id)

  /** A row of the matrix's GROUP BY. */
  datatype Group = Group(pair: Pair, dim: Dim, total: int)

  predicate InCell(k: RollupKey, pair: Pair, dim: Dim) {
    k.keyId == pair.keyId && k.paddockId == pair.paddockId && k.dim == dim
  }

  function CellOf(q: Query, pair: Pair, dim: Dim): RollupKey -> bool {
    k => Selects(q, k) && InCell(k, pair, dim)
  }

  function CellTotal(table: seq<Row>, q: Query, pair: Pair, dim: Dim): int {
    Sum(table, CellOf(q, pair, dim))
  }

  predicate HasGroup(groups: seq<Group>, pair: Pair, dim: Dim) {
    exists i :: 0 <= i < |groups| && groups[i].pair == pair && groups[i].dim == dim
  }

  predicate HasCell(table: seq<Row>, q: Query, pair: Pair, dim: Dim) {
    exists j :: 0 <= j < |table| && Selects(q, table[j].k) && InCell(table[j].k, pair, dim)
  }

  predicate HasPair(table: seq<Row>, q: Query, pair: Pair) {
    exists j :: 0 <= j < |table| && Selects(q, table[j].k) && Pair(table[j].k.keyId, table[j].k.paddockId) == pair
  }

  /** What the matrix's query answers, in an order SQL leaves open: one row a group, with its sum. */
  predicate Grouping(groups: seq<Group>, table: seq<Row>, q: Query) {
    && (forall i, j :: 0 <= i < j < |groups| ==> groups[i].pair != groups[j].pair || groups[i].dim != groups[j].dim)
    && (forall i :: 0 <= i < |groups| ==>
          groups[i].total == CellTotal(table, q, groups[i].pair, groups[i].dim)
          && HasCell(table, q, groups[i].pair, groups[i].dim))
    && (forall j :: 0 <= j < |table| && Selects(q, table[j].k) ==>
          HasGroup(groups, Pair(table[j].k.keyId, table[j].k.paddockId), table[j].k.dim))
  }

  datatype MatrixRow = MatrixRow(pair: Pair, dims: map<Dim, int>)

  function ZeroDims(): map<Dim, int> {
    map d | d in DIMS :: 0
  }

  /** `Map.get`: the position of a pair's row among the values, or their count. */
  function Lookup(matrix: seq<MatrixRow>, pair: Pair): (i: nat)
    ensures i <= |matrix|
    ensures i < |matrix| ==> matrix[i].pair == pair
    ensures forall j :: 0 <= j < i ==> matrix[j].pair != pair
  {
    if matrix == [] || matrix[0].pair == pair then 0 else 1 + Lookup(matrix[1..], pair)
  }

  /** The total the query gave a cell, or zero. */
  function Cell(groups: seq<Group>, pair: Pair, dim: Dim): int {
    if groups == [] then 0
    else
      var last := groups[|groups| - 1];
      if last.pair == pair && last.dim == dim then last.total else Cell(groups[..|groups| - 1], pair, dim)
  }

  // ---- The pivot ----

  /** The matrix's rows belong to different pairs and have one entry for each dimension. */
  predicate Well(matrix: seq<MatrixRow>) {
    && (forall i, j :: 0 <= i < j < |matrix| ==> matrix[i].pair != matrix[j].pair)
    && (forall i :: 0 <= i < |matrix| ==> matrix[i].dims.Keys == DIMS)
  }

  predicate Listed(matrix: seq<MatrixRow>, pair: Pair) {
    Lookup(matrix, pair) < |matrix|
  }

  function Entry(matrix: seq<MatrixRow>, pair: Pair, dim: Dim): int
    requires Well(matrix) && dim in DIMS
  {
    var i := Lookup(matrix, pair);
    if i < |matrix| then matrix[i].dims[dim] else 0
  }

  function WithRow(matrix: seq<MatrixRow>, pair: Pair): seq<MatrixRow> {
    if Listed(matrix, pair) then matrix else matrix + [MatrixRow(pair, ZeroDims())]
  }

  /** One group put into the matrix. */
  function Put(matrix: seq<MatrixRow>, r: Group): seq<MatrixRow> {
    var m, i := WithRow(matrix, r.pair), Lookup(matrix, r.pair);
    if r.dim in DIMS then m[i := m[i].(dims := m[i].dims[r.dim := r.total])] else m
  }

  function Pivoted(groups: seq<Group>): seq<MatrixRow> {
    if groups == [] then [] else Put(Pivoted(groups[..|groups| - 1]), groups[|groups| - 1])
  }

  /** The loop of `usageMatrix`. The Map keeps its values in insertion order. */
  method Pivot(groups: seq<Group>) returns (matrix: seq<MatrixRow>)
    ensures matrix == Pivoted(groups)
  {
    matrix := [];
    for n := 0 to |groups|
      invariant matrix == Pivoted(groups[..n])
    {
      assert groups[..n + 1][..n] == groups[..n];
      var r := groups[n];
      var i := Lookup(matrix, r.pair);
      if i == |matrix| {
        matrix := matrix + [MatrixRow(r.pair, ZeroDims())];
      }
      if r.dim in DIMS {
        matrix := matrix[i := matrix[i].(dims := matrix[i].dims[r.dim := r.total])];
      }
    }
    assert groups[..|groups|] == groups;
  }

  lemma {:induction false} WithRowAt(matrix: seq<MatrixRow>, r: Pair, p: Pair)
    ensures Lookup(WithRow(matrix, r), p) ==
      if p == r || Listed(matrix, p) then Lookup(matrix, p) else |WithRow(matrix, r)|
  {
    var m := WithRow(matrix, r);
    var i, j := Lookup(matrix, p), Lookup(m, p);
    assert forall k :: 0 <= k < |matrix| ==> m[k] == matrix[k];
    assert !Listed(matrix, r) ==> m[|matrix|].pair == r;
    assert i < |matrix| ==> m[i].pair == p;
    assert j < |matrix| ==> matrix[j].pair == p;
  }

  lemma {:induction false} PutWell(matrix: seq<MatrixRow>, r: Group)
    requires Well(matrix)
    ensures Well(Put(matrix, r))
  {
    var m, out := WithRow(matrix, r.pair), Put(matrix, r);
    assert Well(m);
    assert forall k :: 0 <= k < |m| ==> out[k].pair == m[k].pair && out[k].dims.Keys == DIMS;
  }

  lemma {:induction false} PutLookup(matrix: seq<MatrixRow>, r: Group, p: Pair)
    requires Well(matrix)
    ensures Listed(Put(matrix, r), p) <==> p == r.pair || Listed(matrix, p)
    ensures Listed(Put(matrix, r), p) ==> Lookup(Put(matrix, r), p) == Lookup(matrix, p)
  {
    PutWell(matrix, r);
    WithRowAt(matrix, r.pair, p);
    var m, out := WithRow(matrix, r.pair), Put(matrix, r);
    assert forall k :: 0 <= k < |m| ==> out[k].pair == m[k].pair;
    var j, i := Lookup(m, p), Lookup(out, p);
  }

  lemma {:induction false} PutEntry(matrix: seq<MatrixRow>, r: Group, p: Pair, d: Dim)
    requires Well(matrix) && d in DIMS
    ensures Well(Put(matrix, r))
    ensures Entry(Put(matrix, r), p, d) == if p == r.pair && d == r.dim then r.total else Entry(matrix, p, d)
  {
    PutWell(matrix, r);
    PutLookup(matrix, r, p);
  }

  lemma {:induction false} PivotedCells(groups: seq<Group>, p: Pair, d: Dim)
    requires d in DIMS
    ensures Well(Pivoted(groups)) && Entry(Pivoted(groups), p, d) == Cell(groups, p, d)
    ensures Listed(Pivoted(groups), p) <==> exists i :: 0 <= i < |groups| && groups[i].pair == p
  {
    if groups != [] {
      var front, last := groups[..|groups| - 1], groups[|groups| - 1];
      PivotedCells(front, p, d);
      PutEntry(Pivoted(front), last, p, d);
      PutLookup(Pivoted(front), last, p);
      assert forall i :: 0 <= i < |front| ==> groups[i] == front[i];
    }
  }

  lemma {:induction false} NoCell(groups: seq<Group>, pair: Pair, dim: Dim)
    requires forall i :: 0 <= i < |groups| ==> groups[i].pair != pair || groups[i].dim != dim
    ensures Cell(groups, pair, dim) == 0
  {
    if groups != [] {
      NoCell(groups[..|groups| - 1], pair, dim);
    }
  }

  lemma {:induction false} CellIsGroup(groups: seq<Group>, i: nat)
    requires i < |groups|
    requires forall i, j :: 0 <= i < j < |groups| ==> groups[i].pair != groups[j].pair || groups[i].dim != groups[j].dim
    ensures Cell(groups, groups[i].pair, groups[i].dim) == groups[i].total
  {
    if i < |groups| - 1 {
      CellIsGroup(groups[..|groups| - 1], i);
    }
  }

  // ---- Sums over the table ----

  lemma {:induction false} SumNone(rows: seq<Row>, p: RollupKey -> bool)
    requires forall i :: 0 <= i < |rows| ==> !p(rows[i].k)
    ensures Sum(rows, p) == 0
  {
    if rows != [] {
      SumNone(rows[1..], p);
    }
  }

  /** The sum over a disjoint union of conditions is the sum of the sums. */
  lemma {:induction false} SumUnion(rows: seq<Row>, a: RollupKey -> bool, b: RollupKey -> bool, c: RollupKey -> bool)
    requires forall i :: 0 <= i < |rows| ==> !(a(rows[i].k) && b(rows[i].k)) && c(rows[i].k) == (a(rows[i].k) || b(rows[i].k))
    ensures Sum(rows, c) == Sum(rows, a) + Sum(rows, b)
  {
    if rows != [] {
      SumUnion(rows[1..], a, b, c);
    }
  }

  function Under<L(==)>(p: RollupKey -> bool, of: RollupKey -> L, l: L): RollupKey -> bool {
    k => p(k) && of(k) == l
  }

  function Within<L(==)>(p: RollupKey -> bool, of: RollupKey -> L, ls: seq<L>): RollupKey -> bool {
    k => p(k) && of(k) in ls
  }

  /** The sums of `p` under each of the labels, added up. */
  function LabelSums<L(==)>(rows: seq<Row>, p: RollupKey -> bool, of: RollupKey -> L, labels: seq<L>): int {
    if labels == [] then 0
    else Sum(rows, Under(p, of, labels[0])) + LabelSums(rows, p, of, labels[1..])
  }

  lemma {:induction false} SumByLabel<L>(rows: seq<Row>, p: RollupKey -> bool, of: RollupKey -> L, labels: seq<L>)
    requires forall i, j :: 0 <= i < j < |labels| ==> labels[i] != labels[j]
    ensures LabelSums(rows, p, of, labels) == Sum(rows, Within(p, of, labels))
  {
    if labels == [] {
      SumNone(rows, Within(p, of, labels));
    } else {
      SumByLabel(rows, p, of, labels[1..]);
      assert labels == [labels[0]] + labels[1..];
      SumUnion(rows, Under(p, of, labels[0]), Within(p, of, labels[1..]), Within(p, of, labels));
    }
  }

  // ---- The reports agree with the table and with each other ----

  lemma {:induction false} GroupPairs(groups: seq<Group>, table: seq<Row>, q: Query, pair: Pair)
    requires Grouping(groups, table, q)
    ensures HasPair(table, q, pair) <==> exists i :: 0 <= i < |groups| && groups[i].pair == pair
  {
    if i :| 0 <= i < |groups| && groups[i].pair == pair {
      assert HasCell(table, q, groups[i].pair, groups[i].dim);
    }
    if HasPair(table, q, pair) {
      var j :| 0 <= j < |table| && Selects(q, table[j].k) && Pair(table[j].k.keyId, table[j].k.paddockId) == pair;
      assert HasGroup(groups, pair, table[j].k.dim);
    }
  }

  /** Every entry of the matrix is the sum over the selected rows of its pair and dimension. */
  lemma {:induction false} MatrixIsTheTable(groups: seq<Group>, table: seq<Row>, q: Query, pair: Pair, dim: Dim)
    requires Grouping(groups, table, q) && dim in DIMS
    ensures Well(Pivoted(groups))
    ensures Listed(Pivoted(groups), pair) <==> HasPair(table, q, pair)
    ensures Entry(Pivoted(groups), pair, dim) == CellTotal(table, q, pair, dim)
  {
    PivotedCells(groups, pair, dim);
    GroupPairs(groups, table, q, pair);
    if i: nat :| i < |groups| && groups[i].pair == pair && groups[i].dim == dim {
      CellIsGroup(groups, i);
    } else {
      NoCell(groups, pair, dim);
      SumNone(table, CellOf(q, pair, dim));
    }
  }

  datatype DailyPoint = DailyPoint(day: string, value: int)

  function OfDim(q: Query, dim: Dim): RollupKey -> bool {
    k => Selects(q, k) && k.dim == dim
  }

  function DayIn(k: RollupKey): string {
    Take(k.period, 10)
  }

  function PairIn(k: RollupKey): Pair {
    Pair(k.keyId, k.paddockId)
  }

  function DayTotal(table: seq<Row>, q: Query, dim: Dim, day: string): int {
    Sum(table, (k: RollupKey) => Selects(q, k) && k.dim == dim && DayIn(k) == day)
  }

  predicate HasDay(table: seq<Row>, q: Query, dim: Dim, day: string) {
    exists j :: 0 <= j < |table| && Selects(q, table[j].k) && table[j].k.dim == dim && DayIn(table[j].k) == day
  }

  /** What the daily query answers: `substring(period from 1 for 10)`, ascending, with its sums. */
  ghost predicate Series(points: seq<DailyPoint>, table: seq<Row>, q: Query, dim: Dim) {
    && (forall i, j :: 0 <= i < j < |points| ==> Before(points[i].day, points[j].day))
    && (forall i :: 0 <= i < |points| ==>
          points[i].value == DayTotal(table, q, dim, points[i].day) && HasDay(table, q, dim, points[i].day))
    && (forall j :: 0 <= j < |table| && Selects(q, table[j].k) && table[j].k.dim == dim ==>
          exists i :: 0 <= i < |points| && points[i].day == DayIn(table[j].k))
  }

  function SeriesTotal(points: seq<DailyPoint>): int {
    if points == [] then 0 else points[0].value + SeriesTotal(points[1..])
  }

  function MatrixTotal(matrix: seq<MatrixRow>, dim: Dim): int
    requires dim in DIMS && forall i :: 0 <= i < |matrix| ==> matrix[i].dims.Keys == DIMS
  {
    if matrix == [] then 0 else matrix[0].dims[dim] + MatrixTotal(matrix[1..], dim)
  }

  function Days(points: seq<DailyPoint>): (days: seq<string>)
    ensures |days| == |points| && forall i :: 0 <= i < |days| ==> days[i] == points[i].day
  {
    if points == [] then [] else [points[0].day] + Days(points[1..])
  }

  function Pairs(matrix: seq<MatrixRow>): (pairs: seq<Pair>)
    ensures |pairs| == |matrix| && forall i :: 0 <= i < |pairs| ==> pairs[i] == matrix[i].pair
  {
    if matrix == [] then [] else [matrix[0].pair] + Pairs(matrix[1..])
  }

  lemma {:induction false} SumSame(rows: seq<Row>, a: RollupKey -> bool, b: RollupKey -> bool)
    requires forall i :: 0 <= i < |rows| ==> a(rows[i].k) == b(rows[i].k)
    ensures Sum(rows, a) == Sum(rows, b)
  {
    if rows != [] {
      SumSame(rows[1..], a, b);
    }
  }

  lemma {:induction false} SeriesAsLabels(points: seq<DailyPoint>, table: seq<Row>, q: Query, dim: Dim)
    requires forall i :: 0 <= i < |points| ==> points[i].value == DayTotal(table, q, dim, points[i].day)
    ensures SeriesTotal(points) == LabelSums(table, OfDim(q, dim), DayIn, Days(points))
  {
    if points != [] {
      SeriesAsLabels(points[1..], table, q, dim);
      assert Days(points)[1..] == Days(points[1..]);
      SumSame(table, (k: RollupKey) => Selects(q, k) && k.dim == dim && DayIn(k) == points[0].day,
        Under(OfDim(q, dim), DayIn, points[0].day));
    }
  }

  lemma {:induction false} MatrixAsLabels(matrix: seq<MatrixRow>, table: seq<Row>, q: Query, dim: Dim)
    requires dim in DIMS && forall i :: 0 <= i < |matrix| ==> matrix[i].dims.Keys == DIMS
    requires forall i :: 0 <= i < |matrix| ==> matrix[i].dims[dim] == CellTotal(table, q, matrix[i].pair, dim)
    ensures MatrixTotal(matrix, dim) == LabelSums(table, OfDim(q, dim), PairIn, Pairs(matrix))
  {
    if matrix != [] {
      MatrixAsLabels(matrix[1..], table, q, dim);
      assert Pairs(matrix)[1..] == Pairs(matrix[1..]);
      forall i | 0 <= i < |table|
        ensures InCell(table[i].k, matrix[0].pair, dim) <==> table[i].k.dim == dim && PairIn(table[i].k) == matrix[0].pair
      {
        var k, pair := table[i].k, matrix[0].pair;
        assert PairIn(k) == pair <==> k.keyId == pair.keyId && k.paddockId == pair.paddockId;
      }
      SumSame(table, CellOf(q, matrix[0].pair, dim),
        Under(OfDim(q, dim), PairIn, matrix[0].pair));
    }
  }

  lemma {:induction false} SeriesSum(points: seq<DailyPoint>, table: seq<Row>, q: Query, dim: Dim)
    requires Series(points, table, q, dim)
    ensures SeriesTotal(points) == Sum(table, OfDim(q, dim))
  {
    var p, days := OfDim(q, dim), Days(points);
    SeriesAsLabels(points, table, q, dim);
    forall i, j | 0 <= i < j < |points| ensures days[i] != days[j] {
      BeforeIrreflexive(points[i].day);
      assert Before(points[i].day, points[j].day);
    }
    SumByLabel(table, p, DayIn, days);
    forall j | 0 <= j < |table| && p(table[j].k) ensures DayIn(table[j].k) in days {
      var i :| 0 <= i < |points| && points[i].day == DayIn(table[j].k);
      assert days[i] == DayIn(table[j].k);
    }
    SumSame(table, Within(p, DayIn, days), p);
  }

  lemma {:induction false} MatrixSum(groups: seq<Group>, table: seq<Row>, q: Query, dim: Dim)
    requires Grouping(groups, table, q) && dim in DIMS
    ensures Well(Pivoted(groups))
    ensures MatrixTotal(Pivoted(groups), dim) == Sum(table, OfDim(q, dim))
  {
    var p, matrix := OfDim(q, dim), Pivoted(groups);
    PivotedCells(groups, Pair("", ""), dim);
    forall i | 0 <= i < |matrix| ensures matrix[i].dims[dim] == CellTotal(table, q, matrix[i].pair, dim) {
      MatrixIsTheTable(groups, table, q, matrix[i].pair, dim);
      assert Lookup(matrix, matrix[i].pair) == i;
    }
    MatrixAsLabels(matrix, table, q, dim);
    SumByLabel(table, p, PairIn, Pairs(matrix));
    forall j | 0 <= j < |table| && p(table[j].k) ensures PairIn(table[j].k) in Pairs(matrix) {
      MatrixIsTheTable(groups, table, q, PairIn(table[j].k), dim);
      assert HasPair(table, q, PairIn(table[j].k));
      assert Pairs(matrix)[Lookup(matrix, PairIn(table[j].k))] == PairIn(table[j].k);
    }
    SumSame(table, Within(p, PairIn, Pairs(matrix)), p);
  }

  /** The two reports of one query add up to the same total, whatever the table holds. */
  lemma {:induction false} ReportsAgree(groups: seq<Group>, points: seq<DailyPoint>, table: seq<Row>, q: Query, dim: Dim)
    requires Grouping(groups, table, q) && Series(points, table, q, dim) && dim in DIMS
    ensures Well(Pivoted(groups))
    ensures SeriesTotal(points) == MatrixTotal(Pivoted(groups), dim)
  {
    SeriesSum(points, table, q, dim);
    MatrixSum(groups, table, q, dim);
  }
}

/**
 * The row-sequence operators plan nodes stand for, and the facts about them that
 * the optimizer's rules rest on: a filtered product is a join, a listing sorted by
 * key and position is unique, and probing such a listing finds the matches in
 * table order.
 */
module Relations {
  import opened Expressions

  datatype JoinType = INNER | LEFT | RIGHT | OUTER

  datatype OrderType = DEFAULT | ASC | DESC

  datatype AggType = CountStar | CountAgg | SumAgg | MinAgg | MaxAgg

  // ---------------------------------------------------------------- filter and projection

  predicate Holds(e: Expr, row: Row) {
    Eval(e, row) == Bool(true)
  }

  function FilterRows(e: Expr, rows: seq<Row>): (r: seq<Row>)
    ensures |r| <= |rows|
  {
    if rows == [] then []
    else (if Holds(e, rows[0]) then [rows[0]] else []) + FilterRows(e, rows[1..])
  }

  function EvalAll(es: seq<Expr>, row: Row): Row {
    seq(|es|, i requires 0 <= i < |es| => Eval(es[i], row))
  }

  function MapRows(es: seq<Expr>, rows: seq<Row>): seq<Row> {
    seq(|rows|, i requires 0 <= i < |rows| => EvalAll(es, rows[i]))
  }

  lemma Associate<T>(a: seq<T>, b: seq<T>, c: seq<T>)
    ensures (a + b) + c == a + (b + c)
  {
  }

  lemma {:induction false} FilterConcat(e: Expr, a: seq<Row>, b: seq<Row>)
    ensures FilterRows(e, a + b) == FilterRows(e, a) + FilterRows(e, b)
  {
    if a == [] {
      assert a + b == b;
    } else {
      FilterConcat(e, a[1..], b);
      assert (a + b)[0] == a[0] && (a + b)[1..] == a[1..] + b;
      var head := if Holds(e, a[0]) then [a[0]] else [];
      Associate(head, FilterRows(e, a[1..]), FilterRows(e, b));
    }
  }

  // ---------------------------------------------------------------- joins

  /** The positions 0, 1, ..., n - 1. */
  function Positions(n: nat): (r: seq<nat>)
    ensures |r| == n && forall i :: 0 <= i < n ==> r[i] == i
  {
    seq(n, i => i)
  }

  /** The first `n` right positions whose row satisfies the join predicate together with `l`. */
  function MatchesUpTo(e: Expr, l: Row, right: seq<Row>, n: nat): (r: seq<nat>)
    requires n <= |right|
    ensures forall i :: 0 <= i < |r| ==> r[i] < n
  {
    if n == 0 then []
    else MatchesUpTo(e, l, right, n - 1) + (if EvalJoin(e, l, right[n - 1]) == Bool(true) then [n - 1] else [])
  }

  /** What a nested-loop join pairs `l` with. */
  function Matches(e: Expr, l: Row, right: seq<Row>): (r: seq<nat>)
    ensures forall i :: 0 <= i < |r| ==> r[i] < |right|
  {
    MatchesUpTo(e, l, right, |right|)
  }

  predicate InRange(pick: seq<nat>, n: nat) {
    forall i :: 0 <= i < |pick| ==> pick[i] < n
  }

  function Pair(l: Row, right: seq<Row>, pick: seq<nat>): (r: seq<Row>)
    requires InRange(pick, |right|)
    ensures |r| == |pick|
  {
    seq(|pick|, i requires 0 <= i < |pick| => l + right[pick[i]])
  }

  /** The rows one left row contributes: its pairs, or itself padded in an outer join. */
  function JoinRow(join: JoinType, l: Row, right: seq<Row>, pick: seq<nat>, rightCount: nat): seq<Row>
    requires InRange(pick, |right|)
  {
    if pick == [] && (join.LEFT? || join.OUTER?) then [l + Nulls(rightCount)] else Pair(l, right, pick)
  }

  predicate PicksOk(left: seq<Row>, right: seq<Row>, picks: seq<seq<nat>>) {
    |picks| == |left| && forall i :: 0 <= i < |picks| ==> InRange(picks[i], |right|)
  }

  function JoinLeft(join: JoinType, left: seq<Row>, right: seq<Row>, picks: seq<seq<nat>>, rightCount: nat): seq<Row>
    requires PicksOk(left, right, picks)
  {
    if left == [] then []
    else JoinRow(join, left[0], right, picks[0], rightCount)
         + JoinLeft(join, left[1..], right, picks[1..], rightCount)
  }

  predicate Picked(picks: seq<seq<nat>>, j: nat) {
    exists i :: 0 <= i < |picks| && j in picks[i]
  }

  /** The right rows no left row picked, padded on the left. */
  function Unpicked(right: seq<Row>, picks: seq<seq<nat>>, leftCount: nat, n: nat): seq<Row>
    requires n <= |right|
  {
    if n == 0 then []
    else Unpicked(right, picks, leftCount, n - 1)
         + (if Picked(picks, n - 1) then [] else [Nulls(leftCount) + right[n - 1]])
  }

  /** Every join node: `picks[i]` lists the right positions the i-th left row is paired with. */
  function JoinRows(join: JoinType, left: seq<Row>, right: seq<Row>, picks: seq<seq<nat>>, leftCount: nat,
                    rightCount: nat): seq<Row>
    requires PicksOk(left, right, picks)
  {
    JoinLeft(join, left, right, picks, rightCount)
    + (if join.RIGHT? || join.OUTER? then Unpicked(right, picks, leftCount, |right|) else [])
  }

  function LoopPicks(e: Expr, left: seq<Row>, right: seq<Row>): (r: seq<seq<nat>>)
    ensures PicksOk(left, right, r)
    ensures forall i :: 0 <= i < |left| ==> r[i] == Matches(e, left[i], right)
  {
    seq(|left|, i requires 0 <= i < |left| => Matches(e, left[i], right))
  }

  // ---------------------------------------------------------------- hash join

  /** The right positions of each key, nulls left out, in insertion order. */
  function HashTable(key: Expr, right: seq<Row>, n: nat): (r: map<Value, seq<nat>>)
    requires n <= |right|
    ensures forall v :: v in r ==> InRange(r[v], n)
  {
    if n == 0 then map[]
    else
      var t := HashTable(key, right, n - 1);
      var v := Eval(key, right[n - 1]);
      if v == Null then t else t[v := (if v in t then t[v] else []) + [n - 1]]
  }

  function Bucket(t: map<Value, seq<nat>>, v: Value): seq<nat> {
    if v in t then t[v] else []
  }

  function HashPicks(leftKey: Expr, rightKey: Expr, left: seq<Row>, right: seq<Row>): (r: seq<seq<nat>>)
    ensures PicksOk(left, right, r)
  {
    var t := HashTable(rightKey, right, |right|);
    seq(|left|, i requires 0 <= i < |left| => Bucket(t, Eval(leftKey, left[i])))
  }

  /** All keys in the column are of one kind and none is null. */
  predicate Keyed(rows: seq<Row>, col: nat) {
    (forall i :: 0 <= i < |rows| ==> ValueAt(rows[i], col).Int?)
    || (forall i :: 0 <= i < |rows| ==> ValueAt(rows[i], col).Bool?)
  }

  // ---------------------------------------------------------------- sorting

  /** `v` sorts before `w`: null first, then by value. */
  predicate SortsBefore(v: Value, w: Value) {
    (v.Null? && !w.Null?) || Less(v, w)
  }

  predicate RowBefore(orders: seq<(OrderType, Expr)>, a: Row, b: Row) {
    if orders == [] then false
    else
      var v, w := Eval(orders[0].1, a), Eval(orders[0].1, b);
      if SortsBefore(v, w) then !orders[0].0.DESC?
      else if SortsBefore(w, v) then orders[0].0.DESC?
      else RowBefore(orders[1..], a, b)
  }

  /** Puts position `p` behind every listed one that it does not sort before. */
  function InsertPosition(orders: seq<(OrderType, Expr)>, rows: seq<Row>, listed: seq<nat>, p: nat): (r: seq<nat>)
    requires p < |rows| && InRange(listed, |rows|)
    ensures InRange(r, |rows|) && |r| == |listed| + 1
  {
    if listed == [] then [p]
    else if RowBefore(orders, rows[p], rows[listed[|listed| - 1]])
    then InsertPosition(orders, rows, listed[..|listed| - 1], p) + [listed[|listed| - 1]]
    else listed + [p]
  }

  /** Stable insertion sort of the first `n` positions. */
  function SortPositions(orders: seq<(OrderType, Expr)>, rows: seq<Row>, n: nat): (r: seq<nat>)
    requires n <= |rows|
    ensures InRange(r, |rows|) && |r| == n
  {
    if n == 0 then [] else InsertPosition(orders, rows, SortPositions(orders, rows, n - 1), n - 1)
  }

  function AtPositions(rows: seq<Row>, order: seq<nat>): (r: seq<Row>)
    requires InRange(order, |rows|)
    ensures |r| == |order|
  {
    seq(|order|, i requires 0 <= i < |order| => rows[order[i]])
  }

  function SortRows(orders: seq<(OrderType, Expr)>, rows: seq<Row>): (r: seq<Row>)
    ensures |r| == |rows|
  {
    AtPositions(rows, SortPositions(orders, rows, |rows|))
  }

  // ---------------------------------------------------------------- index listings

  /** Strict order by key, ties by position. */
  predicate ListedBefore(rows: seq<Row>, col: nat, p: nat, q: nat)
    requires p < |rows| && q < |rows|
  {
    Less(ValueAt(rows[p], col), ValueAt(rows[q], col))
    || (ValueAt(rows[p], col) == ValueAt(rows[q], col) && p < q)
  }

  ghost predicate Ascending(rows: seq<Row>, col: nat, order: seq<nat>) {
    && InRange(order, |rows|)
    && forall i, j :: 0 <= i < j < |order| ==> ListedBefore(rows, col, order[i], order[j])
  }

  /** `order` lists every position once, by key and then by position. */
  ghost predicate Lists(rows: seq<Row>, col: nat, order: seq<nat>) {
    && Ascending(rows, col, order)
    && forall p :: 0 <= p < |rows| ==> p in order
  }

  lemma ListedTotal(rows: seq<Row>, col: nat, p: nat, q: nat)
    requires Keyed(rows, col) && p < |rows| && q < |rows| && p != q
    ensures ListedBefore(rows, col, p, q) <==> !ListedBefore(rows, col, q, p)
  {
    assert ValueAt(rows[p], col).Int? || ValueAt(rows[p], col).Bool?;
  }

  lemma ListedTransitive(rows: seq<Row>, col: nat, p: nat, q: nat, r: nat)
    requires Keyed(rows, col) && p < |rows| && q < |rows| && r < |rows|
    requires ListedBefore(rows, col, p, q) && ListedBefore(rows, col, q, r)
    ensures ListedBefore(rows, col, p, r)
  {
  }

  /** Two ascending listings of the same positions are the same listing. */
  lemma {:induction false} ListingUnique(rows: seq<Row>, col: nat, a: seq<nat>, b: seq<nat>)
    requires Keyed(rows, col) && Ascending(rows, col, a) && Ascending(rows, col, b)
    requires forall p :: p in a <==> p in b
    ensures a == b
  {
    if a == [] {
      HasMember(b);
    } else {
      assert a[0] in b && b != [];
      assert b[0] in a;
      FirstAgrees(rows, col, a, b);
      TailMembers(rows, col, a);
      TailMembers(rows, col, b);
      ListingUnique(rows, col, a[1..], b[1..]);
      assert a == [a[0]] + a[1..] && b == [b[0]] + b[1..];
    }
  }

  lemma HasMember(b: seq<nat>)
    ensures b == [] || exists p :: p in b
  {
    if b != [] {
      assert b[0] in b;
    }
  }

  lemma FirstAgrees(rows: seq<Row>, col: nat, a: seq<nat>, b: seq<nat>)
    requires Keyed(rows, col) && Ascending(rows, col, a) && Ascending(rows, col, b)
    requires a != [] && b != [] && a[0] in b && b[0] in a
    ensures a[0] == b[0]
  {
    if a[0] != b[0] {
      assert ListedBefore(rows, col, a[0], b[0]);
      assert ListedBefore(rows, col, b[0], a[0]);
      ListedTotal(rows, col, a[0], b[0]);
    }
  }

  lemma TailMembers(rows: seq<Row>, col: nat, a: seq<nat>)
    requires Keyed(rows, col) && Ascending(rows, col, a) && a != []
    ensures Ascending(rows, col, a[1..])
    ensures forall p :: p in a[1..] <==> p in a && p != a[0]
  {
    forall p | p in a[1..] ensures p != a[0] {
      var i :| 0 <= i < |a| - 1 && a[1..][i] == p;
      assert ListedBefore(rows, col, a[0], a[i + 1]);
    }
    assert a == [a[0]] + a[1..];
  }

  // ---------------------------------------------------------------- sorting by one key column

  function ByColumn(order: OrderType, col: nat, ty: TypeId): seq<(OrderType, Expr)> {
    [(order, Column(0, col, ty))]
  }

  lemma ByColumnBefore(order: OrderType, col: nat, ty: TypeId, rows: seq<Row>, p: nat, q: nat)
    requires Keyed(rows, col) && q < p < |rows| && !order.DESC?
    ensures RowBefore(ByColumn(order, col, ty), rows[p], rows[q]) <==> ListedBefore(rows, col, p, q)
  {
    assert ByColumn(order, col, ty)[1..] == [];
  }

  lemma {:induction false} InsertAscending(order: OrderType, col: nat, ty: TypeId, rows: seq<Row>, listed: seq<nat>,
                                           p: nat)
    requires Keyed(rows, col) && p < |rows| && !order.DESC? && Ascending(rows, col, listed) && InRange(listed, p)
    ensures var r := InsertPosition(ByColumn(order, col, ty), rows, listed, p);
            Ascending(rows, col, r) && forall q :: q in r <==> q in listed || q == p
  {
    var os := ByColumn(order, col, ty);
    if listed != [] {
      var last := listed[|listed| - 1];
      var front := listed[..|listed| - 1];
      assert listed == front + [last];
      ByColumnBefore(order, col, ty, rows, p, last);
      if RowBefore(os, rows[p], rows[last]) {
        InsertAscending(order, col, ty, rows, front, p);
        AppendAscending(rows, col, InsertPosition(os, rows, front, p), last);
      } else {
        ListedTotal(rows, col, p, last);
        forall q | q in listed ensures ListedBefore(rows, col, q, p) {
          if q != last {
            ListedTransitive(rows, col, q, last, p);
          }
        }
        AppendAscending(rows, col, listed, p);
      }
    }
  }

  lemma AppendAscending(rows: seq<Row>, col: nat, listed: seq<nat>, p: nat)
    requires Ascending(rows, col, listed) && p < |rows|
    requires forall q :: q in listed ==> ListedBefore(rows, col, q, p)
    ensures Ascending(rows, col, listed + [p])
  {
  }

  lemma {:induction false} SortAscending(order: OrderType, col: nat, ty: TypeId, rows: seq<Row>, n: nat)
    requires Keyed(rows, col) && n <= |rows| && !order.DESC?
    ensures var r := SortPositions(ByColumn(order, col, ty), rows, n);
            Ascending(rows, col, r) && forall q: nat :: q in r <==> q < n
  {
    if n > 0 {
      hide Ascending, Keyed, RowBefore, InsertPosition, ByColumn;
      SortAscending(order, col, ty, rows, n - 1);
      var before := SortPositions(ByColumn(order, col, ty), rows, n - 1);
      forall i | 0 <= i < |before| ensures before[i] < n - 1 {
        assert before[i] in before;
      }
      InsertAscending(order, col, ty, rows, before, n - 1);
    }
  }

  /** Sorting a table by its key column yields exactly the rows in index order. */
  lemma SortIsListing(order: OrderType, col: nat, ty: TypeId, rows: seq<Row>, listing: seq<nat>)
    requires Keyed(rows, col) && !order.DESC? && Lists(rows, col, listing)
    ensures SortRows(ByColumn(order, col, ty), rows) == AtPositions(rows, listing)
  {
    var sorted := SortPositions(ByColumn(order, col, ty), rows, |rows|);
    SortAscending(order, col, ty, rows, |rows|);
    forall p: nat ensures p in sorted <==> p in listing {
      if p in listing {
        var i :| 0 <= i < |listing| && listing[i] == p;
      }
    }
    ListingUnique(rows, col, sorted, listing);
  }

  // ---------------------------------------------------------------- probing an index

  /** What an index lookup returns: the listed positions whose key equals `v`, in listing order. */
  function Probe(rows: seq<Row>, col: nat, listing: seq<nat>, v: Value): (r: seq<nat>)
    requires InRange(listing, |rows|)
    ensures InRange(r, |rows|)
  {
    if listing == [] then []
    else (if CompareValues(Equal, v, ValueAt(rows[listing[0]], col)) == Bool(true) then [listing[0]] else [])
         + Probe(rows, col, listing[1..], v)
  }

  function IndexPicks(key: Expr, left: seq<Row>, right: seq<Row>, col: nat, listing: seq<nat>): (r: seq<seq<nat>>)
    requires InRange(listing, |right|)
    ensures PicksOk(left, right, r)
  {
    seq(|left|, i requires 0 <= i < |left| => Probe(right, col, listing, Eval(key, left[i])))
  }

  /** `p` is a position whose key equals `v`. */
  predicate KeyIs(rows: seq<Row>, col: nat, v: Value, p: nat)
    requires p < |rows|
  {
    CompareValues(Equal, v, ValueAt(rows[p], col)) == Bool(true)
  }

  lemma {:induction false} ProbeAscending(rows: seq<Row>, col: nat, listing: seq<nat>, v: Value)
    requires Ascending(rows, col, listing)
    ensures var r := Probe(rows, col, listing, v);
            && Ascending(rows, col, r)
            && (forall p :: p in r <==> p in listing && p < |rows| && KeyIs(rows, col, v, p))
  {
    if listing != [] {
      var rest := listing[1..];
      assert listing == [listing[0]] + rest;
      assert forall i, j :: 0 <= i < j < |rest| ==> rest[i] == listing[i + 1] && rest[j] == listing[j + 1];
      ProbeAscending(rows, col, rest, v);
      var r := Probe(rows, col, rest, v);
      hide Probe;
      forall p | p in rest ensures ListedBefore(rows, col, listing[0], p) {
        var i :| 0 <= i < |rest| && rest[i] == p;
        assert listing[i + 1] == p;
      }
    }
  }

  /** An equality predicate between a left and a right column, in either operand order. */
  predicate IsEquality(e: Expr, leftCol: nat, rightCol: nat) {
    && e.Compare? && e.cmp.Equal? && e.left.Column? && e.right.Column?
    && ((e.left.tupleIdx == 0 && e.left.colIdx == leftCol && e.right.tupleIdx == 1 && e.right.colIdx == rightCol)
        || (e.left.tupleIdx == 1 && e.left.colIdx == rightCol && e.right.tupleIdx == 0 && e.right.colIdx == leftCol))
  }

  lemma EqualityTest(e: Expr, leftCol: nat, rightCol: nat, l: Row, r: Row)
    requires IsEquality(e, leftCol, rightCol)
    ensures EvalJoin(e, l, r) == Bool(true)
            <==> CompareValues(Equal, ValueAt(l, leftCol), ValueAt(r, rightCol)) == Bool(true)
    ensures EvalJoin(e, l, r) == Bool(true)
            <==> ValueAt(l, leftCol) == ValueAt(r, rightCol) && ValueAt(l, leftCol) != Null
  {
  }

  lemma {:induction false} MatchesAscending(e: Expr, leftCol: nat, rightCol: nat, l: Row, right: seq<Row>, n: nat)
    requires IsEquality(e, leftCol, rightCol) && n <= |right|
    ensures var r := MatchesUpTo(e, l, right, n);
            && Ascending(right, rightCol, r)
            && (forall p: nat :: p in r <==> p < n && KeyIs(right, rightCol, ValueAt(l, leftCol), p))
  {
    if n > 0 {
      MatchesAscending(e, leftCol, rightCol, l, right, n - 1);
      EqualityTest(e, leftCol, rightCol, l, right[n - 1]);
      var r := MatchesUpTo(e, l, right, n - 1);
      if EvalJoin(e, l, right[n - 1]) == Bool(true) {
        forall q | q in r ensures ListedBefore(right, rightCol, q, n - 1) {
          assert KeyIs(right, rightCol, ValueAt(l, leftCol), q);
        }
        AppendAscending(right, rightCol, r, n - 1);
      }
    }
  }

  /** Probing the index finds the loop join's matches, in the loop join's order. */
  lemma ProbeIsLoop(e: Expr, leftCol: nat, rightCol: nat, l: Row, right: seq<Row>, listing: seq<nat>)
    requires IsEquality(e, leftCol, rightCol) && Keyed(right, rightCol) && Lists(right, rightCol, listing)
    ensures Probe(right, rightCol, listing, ValueAt(l, leftCol)) == Matches(e, l, right)
  {
    MatchesAscending(e, leftCol, rightCol, l, right, |right|);
    ProbeAscending(right, rightCol, listing, ValueAt(l, leftCol));
    ListingUnique(right, rightCol, Probe(right, rightCol, listing, ValueAt(l, leftCol)), Matches(e, l, right));
  }

  lemma IndexPicksAreLoopPicks(e: Expr, leftCol: nat, rightCol: nat, ty: TypeId, left: seq<Row>, right: seq<Row>,
                               listing: seq<nat>)
    requires IsEquality(e, leftCol, rightCol) && Keyed(right, rightCol) && Lists(right, rightCol, listing)
    ensures IndexPicks(Column(0, leftCol, ty), left, right, rightCol, listing) == LoopPicks(e, left, right)
  {
    forall i | 0 <= i < |left|
      ensures Probe(right, rightCol, listing, Eval(Column(0, leftCol, ty), left[i])) == Matches(e, left[i], right)
    {
      ProbeIsLoop(e, leftCol, rightCol, left[i], right, listing);
    }
  }

  lemma {:induction false} BucketIsLoop(e: Expr, leftCol: nat, rightCol: nat, ty: TypeId, l: Row, right: seq<Row>,
                                        n: nat)
    requires IsEquality(e, leftCol, rightCol) && n <= |right|
    ensures Null !in HashTable(Column(0, rightCol, ty), right, n)
    ensures Bucket(HashTable(Column(0, rightCol, ty), right, n), ValueAt(l, leftCol)) == MatchesUpTo(e, l, right, n)
  {
    if n > 0 {
      BucketIsLoop(e, leftCol, rightCol, ty, l, right, n - 1);
      EqualityTest(e, leftCol, rightCol, l, right[n - 1]);
    }
  }

  lemma HashPicksAreLoopPicks(e: Expr, leftCol: nat, rightCol: nat, lty: TypeId, rty: TypeId, left: seq<Row>,
                              right: seq<Row>)
    requires IsEquality(e, leftCol, rightCol)
    ensures HashPicks(Column(0, leftCol, lty), Column(0, rightCol, rty), left, right) == LoopPicks(e, left, right)
  {
    var hashed := HashPicks(Column(0, leftCol, lty), Column(0, rightCol, rty), left, right);
    forall i | 0 <= i < |left| ensures hashed[i] == LoopPicks(e, left, right)[i] {
      BucketIsLoop(e, leftCol, rightCol, rty, left[i], right, |right|);
    }
  }

  // ---------------------------------------------------------------- aggregation

  /** The value an aggregate starts from: zero for a row count, null for the others. */
  function InitialAggregate(t: AggType): Value {
    if t.CountStar? then Int(0) else Null
  }

  function CombineAggregate(t: AggType, acc: Value, v: Value): Value {
    match t
    case CountStar => ArithValues(Plus, acc, Int(1))
    case CountAgg => if v.Null? then acc else if acc.Null? then Int(1) else ArithValues(Plus, acc, Int(1))
    case SumAgg => if v.Null? then acc else if acc.Null? then v else ArithValues(Plus, acc, v)
    case MinAgg => if v.Null? || (!acc.Null? && !Less(v, acc)) then acc else v
    case MaxAgg => if v.Null? || (!acc.Null? && !Less(acc, v)) then acc else v
  }

  /** One aggregate over the rows of a group. */
  function AggregateValue(t: AggType, arg: Expr, rows: seq<Row>): Value {
    if rows == [] then InitialAggregate(t)
    else CombineAggregate(t, AggregateValue(t, arg, rows[..|rows| - 1]), Eval(arg, rows[|rows| - 1]))
  }

  function AggregateRow(key: Row, aggs: seq<Expr>, types: seq<AggType>, rows: seq<Row>): (r: Row)
    requires |aggs| == |types|
    ensures |r| == |key| + |aggs|
  {
    key + seq(|aggs|, i requires 0 <= i < |aggs| => AggregateValue(types[i], aggs[i], rows))
  }

  function GroupOf(groupBys: seq<Expr>, key: Row, rows: seq<Row>): seq<Row> {
    if rows == [] then []
    else (if EvalAll(groupBys, rows[0]) == key then [rows[0]] else []) + GroupOf(groupBys, key, rows[1..])
  }

  /** The distinct group keys of the first `n` rows, by first appearance. */
  function GroupKeys(groupBys: seq<Expr>, rows: seq<Row>, n: nat): (r: seq<Row>)
    requires n <= |rows|
    ensures forall i :: 0 <= i < |r| ==> |r[i]| == |groupBys|
  {
    if n == 0 then []
    else
      var keys := GroupKeys(groupBys, rows, n - 1);
      var key := EvalAll(groupBys, rows[n - 1]);
      if key in keys then keys else keys + [key]
  }

  /** One row per group; without GROUP BY an empty input still makes one row of initial values. */
  function AggregateRows(groupBys: seq<Expr>, aggs: seq<Expr>, types: seq<AggType>, rows: seq<Row>): (r: seq<Row>)
    requires |aggs| == |types|
    ensures forall i :: 0 <= i < |r| ==> |r[i]| == |groupBys| + |aggs|
  {
    if groupBys == [] && rows == [] then [AggregateRow([], aggs, types, [])]
    else
      var keys := GroupKeys(groupBys, rows, |rows|);
      seq(|keys|, i requires 0 <= i < |keys| => AggregateRow(keys[i], aggs, types, GroupOf(groupBys, keys[i], rows)))
  }

  // ---------------------------------------------------------------- row widths

  ghost predicate Wide(rows: seq<Row>, n: nat) {
    forall i :: 0 <= i < |rows| ==> |rows[i]| == n
  }

  lemma FilterWide(e: Expr, rows: seq<Row>, n: nat)
    requires Wide(rows, n)
    ensures Wide(FilterRows(e, rows), n)
  {
  }

  lemma {:induction false} JoinLeftWide(join: JoinType, left: seq<Row>, right: seq<Row>, picks: seq<seq<nat>>,
                                        leftCount: nat, rightCount: nat)
    requires PicksOk(left, right, picks) && Wide(left, leftCount) && Wide(right, rightCount)
    ensures Wide(JoinLeft(join, left, right, picks, rightCount), leftCount + rightCount)
  {
    if left != [] {
      JoinLeftWide(join, left[1..], right, picks[1..], leftCount, rightCount);
    }
  }

  lemma {:induction false} UnpickedWide(right: seq<Row>, picks: seq<seq<nat>>, leftCount: nat, rightCount: nat, n: nat)
    requires n <= |right| && Wide(right, rightCount)
    ensures Wide(Unpicked(right, picks, leftCount, n), leftCount + rightCount)
  {
    if n > 0 {
      UnpickedWide(right, picks, leftCount, rightCount, n - 1);
    }
  }

  lemma JoinWide(join: JoinType, left: seq<Row>, right: seq<Row>, picks: seq<seq<nat>>, leftCount: nat, rightCount: nat)
    requires PicksOk(left, right, picks) && Wide(left, leftCount) && Wide(right, rightCount)
    ensures Wide(JoinRows(join, left, right, picks, leftCount, rightCount), leftCount + rightCount)
  {
    JoinLeftWide(join, left, right, picks, leftCount, rightCount);
    UnpickedWide(right, picks, leftCount, rightCount, |right|);
  }
}

/**
 * What the row operators produce, said without their recursions: which rows, how
 * often, in which order.  Plans and the meanings of statements are both built on
 * these operators, so what they are is stated here once, on its own.
 */
module Operators {
  import opened Expressions
  import opened Relations
  import opened Plans

  // ---------------------------------------------------------------- values

  /** False, unknown, true. */
  function Truth(v: Value): nat {
    if v == Bool(false) then 0 else if v == Bool(true) then 2 else 1
  }

  /** AND is the lesser and OR the greater of two truth values. */
  lemma LogicIs(v: Value, w: Value)
    ensures Truth(LogicValues(And, v, w)) == if Truth(v) < Truth(w) then Truth(v) else Truth(w)
    ensures Truth(LogicValues(Or, v, w)) == if Truth(v) < Truth(w) then Truth(w) else Truth(v)
    ensures !LogicValues(And, v, w).Int? && !LogicValues(Or, v, w).Int?
  {
  }

  /** Sums and differences of integers, wrapped around to 32 bits; of anything else null. */
  lemma ArithIs(i: int, j: int, v: Value, w: Value)
    ensures -0x8000_0000 <= i + j < 0x8000_0000 ==> ArithValues(Plus, Int(i), Int(j)) == Int(i + j)
    ensures -0x8000_0000 <= i - j < 0x8000_0000 ==> ArithValues(Minus, Int(i), Int(j)) == Int(i - j)
    ensures ArithValues(Plus, Int(i + 0x1_0000_0000), Int(j)) == ArithValues(Plus, Int(i), Int(j))
    ensures ArithValues(Minus, Int(i + 0x1_0000_0000), Int(j)) == ArithValues(Minus, Int(i), Int(j))
    ensures !v.Int? || !w.Int? ==> ArithValues(Plus, v, w) == Null == ArithValues(Minus, v, w)
  {
  }

  /** Comparisons of integers, and their laws on all values: null with null or across kinds, otherwise the order. */
  lemma CompareIs(i: int, j: int, v: Value, w: Value)
    ensures CompareValues(LessThan, Int(i), Int(j)) == Bool(i < j)
    ensures CompareValues(Equal, Int(i), Int(j)) == Bool(i == j)
    ensures CompareValues(LessThan, Bool(false), Bool(true)) == Bool(true)
    ensures v == Null || w == Null || v.Int? != w.Int? ==> forall op :: CompareValues(op, v, w) == Null
    ensures CompareValues(GreaterThan, v, w) == CompareValues(LessThan, w, v)
    ensures CompareValues(GreaterThanOrEqual, v, w) == CompareValues(LessThanOrEqual, w, v)
    ensures CompareValues(LessThanOrEqual, v, w)
            == LogicValues(Or, CompareValues(LessThan, v, w), CompareValues(Equal, v, w))
    ensures CompareValues(NotEqual, v, w)
            == LogicValues(Or, CompareValues(LessThan, v, w), CompareValues(GreaterThan, v, w))
  {
  }

  // ---------------------------------------------------------------- filter

  ghost predicate Increasing(s: seq<nat>) {
    forall i, j :: 0 <= i < j < |s| ==> s[i] < s[j]
  }

  /** `kept` lists, in order, exactly the wanted positions below `n`. */
  ghost predicate Keeps(kept: seq<nat>, n: nat, wanted: set<nat>) {
    && Increasing(kept) && InRange(kept, n)
    && forall p: nat :: p < n ==> (p in kept <==> p in wanted)
  }

  lemma KeepsStep(kept: seq<nat>, n: nat, wanted: set<nat>)
    requires Keeps(kept, n, wanted)
    ensures Keeps(kept + (if n in wanted then [n] else []), n + 1, wanted)
  {
    var more := kept + (if n in wanted then [n] else []);
    assert forall i :: 0 <= i < |more| ==> more[i] == if i < |kept| then kept[i] else n;
    forall p: nat | p < n + 1 ensures p in more <==> p in wanted {
      if p == n && n in wanted {
        assert more[|kept|] == n;
      }
    }
  }

  ghost function TrueOn(e: Expr, rows: seq<Row>): set<nat> {
    set p: nat | p < |rows| && Eval(e, rows[p]) == Bool(true)
  }

  /** A filter keeps the rows on which the predicate is true, each as often as it was there, in their order. */
  lemma {:induction false} FilterKeeps(e: Expr, rows: seq<Row>) returns (kept: seq<nat>)
    ensures Keeps(kept, |rows|, TrueOn(e, rows)) && FilterRows(e, rows) == AtPositions(rows, kept)
  {
    if rows == [] {
      kept := [];
    } else {
      var n := |rows| - 1;
      var front := rows[..n];
      var before := FilterKeeps(e, front);
      kept := before + (if n in TrueOn(e, rows) then [n] else []);
      assert Keeps(before, n, TrueOn(e, rows));
      KeepsStep(before, n, TrueOn(e, rows));
      assert rows == front + [rows[n]];
      FilterConcat(e, front, [rows[n]]);
      assert AtPositions(rows, before) == AtPositions(front, before);
    }
  }

  // ---------------------------------------------------------------- joins

  ghost function TrueWith(e: Expr, l: Row, right: seq<Row>): set<nat> {
    set p: nat | p < |right| && EvalJoin(e, l, right[p]) == Bool(true)
  }

  /** A nested-loop join pairs a left row with the right rows on which the predicate is true, in their order. */
  lemma {:induction false} MatchesExactly(e: Expr, l: Row, right: seq<Row>, n: nat)
    requires n <= |right|
    ensures Keeps(MatchesUpTo(e, l, right, n), n, TrueWith(e, l, right))
  {
    if n > 0 {
      MatchesExactly(e, l, right, n - 1);
      KeepsStep(MatchesUpTo(e, l, right, n - 1), n - 1, TrueWith(e, l, right));
    }
  }

  /** A pair of rows the picks bring together. */
  ghost predicate IsPair(row: Row, left: seq<Row>, right: seq<Row>, picks: seq<seq<nat>>)
    requires PicksOk(left, right, picks)
  {
    exists i, j :: 0 <= i < |left| && 0 <= j < |right| && j in picks[i] && row == left[i] + right[j]
  }

  ghost predicate IsLeftAlone(row: Row, left: seq<Row>, picks: seq<seq<nat>>, rightCount: nat)
    requires |picks| == |left|
  {
    exists i :: 0 <= i < |left| && picks[i] == [] && row == left[i] + Nulls(rightCount)
  }

  ghost predicate IsRightAlone(row: Row, right: seq<Row>, picks: seq<seq<nat>>, leftCount: nat) {
    exists j :: 0 <= j < |right| && !Picked(picks, j) && row == Nulls(leftCount) + right[j]
  }

  lemma JoinRowHas(join: JoinType, l: Row, right: seq<Row>, pick: seq<nat>, rightCount: nat, row: Row)
    requires InRange(pick, |right|)
    ensures row in JoinRow(join, l, right, pick, rightCount)
            <==> (exists j :: 0 <= j < |right| && j in pick && row == l + right[j])
                 || (pick == [] && (join == LEFT || join == OUTER) && row == l + Nulls(rightCount))
  {
    if pick != [] {
      assert pick[0] in pick;
    }
    if j: nat :| j < |right| && j in pick && row == l + right[j] {
      var k: nat :| k < |pick| && pick[k] == j;
      assert Pair(l, right, pick)[k] == row;
    }
    if row in Pair(l, right, pick) {
      var k :| 0 <= k < |pick| && Pair(l, right, pick)[k] == row;
      assert pick[k] in pick;
    }
  }

  lemma {:induction false} JoinLeftHas(join: JoinType, left: seq<Row>, right: seq<Row>, picks: seq<seq<nat>>,
                                       rightCount: nat, row: Row)
    requires PicksOk(left, right, picks)
    ensures row in JoinLeft(join, left, right, picks, rightCount)
            <==> IsPair(row, left, right, picks)
                 || ((join == LEFT || join == OUTER) && IsLeftAlone(row, left, picks, rightCount))
  {
    if left != [] {
      JoinLeftHas(join, left[1..], right, picks[1..], rightCount, row);
      JoinRowHas(join, left[0], right, picks[0], rightCount, row);
      PairSplit(row, left, right, picks);
      AloneSplit(row, left, picks, rightCount);
    }
  }

  lemma PairSplit(row: Row, left: seq<Row>, right: seq<Row>, picks: seq<seq<nat>>)
    requires PicksOk(left, right, picks) && left != []
    ensures IsPair(row, left, right, picks)
            <==> (exists j :: 0 <= j < |right| && j in picks[0] && row == left[0] + right[j])
                 || IsPair(row, left[1..], right, picks[1..])
  {
    if i, j :| 0 <= i < |left[1..]| && 0 <= j < |right| && j in picks[1..][i] && row == left[1..][i] + right[j] {
      assert j in picks[i + 1] && row == left[i + 1] + right[j];
    }
    if i, j :| 0 <= i < |left| && 0 <= j < |right| && j in picks[i] && row == left[i] + right[j] {
      if i > 0 {
        assert j in picks[1..][i - 1] && row == left[1..][i - 1] + right[j];
      }
    }
  }

  lemma AloneSplit(row: Row, left: seq<Row>, picks: seq<seq<nat>>, rightCount: nat)
    requires |picks| == |left| && left != []
    ensures IsLeftAlone(row, left, picks, rightCount)
            <==> (picks[0] == [] && row == left[0] + Nulls(rightCount))
                 || IsLeftAlone(row, left[1..], picks[1..], rightCount)
  {
    if i :| 0 <= i < |left[1..]| && picks[1..][i] == [] && row == left[1..][i] + Nulls(rightCount) {
      assert picks[i + 1] == [] && row == left[i + 1] + Nulls(rightCount);
    }
    if i :| 0 <= i < |left| && picks[i] == [] && row == left[i] + Nulls(rightCount) {
      if i > 0 {
        assert picks[1..][i - 1] == [] && row == left[1..][i - 1] + Nulls(rightCount);
      }
    }
  }

  lemma {:induction false} UnpickedHas(right: seq<Row>, picks: seq<seq<nat>>, leftCount: nat, n: nat, row: Row)
    requires n <= |right|
    ensures row in Unpicked(right, picks, leftCount, n) <==> IsRightAlone(row, right[..n], picks, leftCount)
  {
    hide Picked;
    if n > 0 {
      UnpickedHas(right, picks, leftCount, n - 1, row);
      if j :| 0 <= j < n - 1 && !Picked(picks, j) && row == Nulls(leftCount) + right[..n - 1][j] {
        assert row == Nulls(leftCount) + right[..n][j];
      }
      if j :| 0 <= j < n && !Picked(picks, j) && row == Nulls(leftCount) + right[..n][j] {
        if j < n - 1 {
          assert row == Nulls(leftCount) + right[..n - 1][j];
        }
      }
    }
  }

  /** Every join consists of the pairs, the unpaired left rows if it is a left or full one, and the unpaired right
      rows if it is a right or full one, padded with nulls. */
  lemma JoinHas(join: JoinType, left: seq<Row>, right: seq<Row>, picks: seq<seq<nat>>, leftCount: nat,
                rightCount: nat, row: Row)
    requires PicksOk(left, right, picks)
    ensures row in JoinRows(join, left, right, picks, leftCount, rightCount)
            <==> || IsPair(row, left, right, picks)
                 || ((join == LEFT || join == OUTER) && IsLeftAlone(row, left, picks, rightCount))
                 || ((join == RIGHT || join == OUTER) && IsRightAlone(row, right, picks, leftCount))
  {
    hide IsPair, IsLeftAlone, IsRightAlone;
    JoinLeftHas(join, left, right, picks, rightCount, row);
    UnpickedHas(right, picks, leftCount, |right|, row);
    assert right[..|right|] == right;
  }

  /** Left row by left row: the pairs of a row in the order of its picks, or the row padded. */
  lemma {:induction false} JoinLeftSnoc(join: JoinType, left: seq<Row>, l: Row, right: seq<Row>,
                                        picks: seq<seq<nat>>, pick: seq<nat>, rightCount: nat)
    requires PicksOk(left, right, picks) && InRange(pick, |right|)
    ensures PicksOk(left + [l], right, picks + [pick])
    ensures JoinLeft(join, left + [l], right, picks + [pick], rightCount)
            == JoinLeft(join, left, right, picks, rightCount)
               + (if pick == [] && (join == LEFT || join == OUTER) then [l + Nulls(rightCount)]
                  else seq(|pick|, i requires 0 <= i < |pick| => l + right[pick[i]]))
  {
    var mine := if pick == [] && (join == LEFT || join == OUTER) then [l + Nulls(rightCount)]
    else seq(|pick|, i requires 0 <= i < |pick| => l + right[pick[i]]);
    assert mine == JoinRow(join, l, right, pick, rightCount);
    if left != [] {
      JoinLeftSnoc(join, left[1..], l, right, picks[1..], pick, rightCount);
      assert (left + [l])[1..] == left[1..] + [l] && (picks + [pick])[1..] == picks[1..] + [pick];
      Associate(JoinRow(join, left[0], right, picks[0], rightCount),
                JoinLeft(join, left[1..], right, picks[1..], rightCount), mine);
    }
  }

  // ---------------------------------------------------------------- sorting

  /** The values of `e` are of one kind, nulls aside. */
  ghost predicate OneKind(e: Expr, rows: seq<Row>) {
    || (forall i :: 0 <= i < |rows| ==> !Eval(e, rows[i]).Bool?)
    || (forall i :: 0 <= i < |rows| ==> !Eval(e, rows[i]).Int?)
  }

  ghost predicate Sortable(orders: seq<(OrderType, Expr)>, rows: seq<Row>) {
    forall k :: 0 <= k < |orders| ==> OneKind(orders[k].1, rows)
  }

  /** Key `k` of the rows: null first, then the smaller integer or false, the other way round when descending. */
  ghost predicate KeyBefore(order: (OrderType, Expr), a: Row, b: Row) {
    var v, w := if order.0 == DESC then Eval(order.1, b) else Eval(order.1, a),
                if order.0 == DESC then Eval(order.1, a) else Eval(order.1, b);
    match (v, w)
    case (Null, Int(_)) => true
    case (Null, Bool(_)) => true
    case (Int(i), Int(j)) => i < j
    case (Bool(x), Bool(y)) => !x && y
    case _ => false
  }

  ghost predicate DecidesAt(orders: seq<(OrderType, Expr)>, a: Row, b: Row, k: nat)
    requires k < |orders|
  {
    && (forall j :: 0 <= j < k ==> Eval(orders[j].1, a) == Eval(orders[j].1, b))
    && KeyBefore(orders[k], a, b)
  }

  /** Rows are compared key by key; the first key that differs decides. */
  lemma {:induction false} BeforeExactly(orders: seq<(OrderType, Expr)>, a: Row, b: Row)
    requires Sortable(orders, [a, b])
    ensures RowBefore(orders, a, b) <==> exists k: nat :: k < |orders| && DecidesAt(orders, a, b, k)
  {
    if orders != [] {
      var rest := orders[1..];
      assert OneKind(orders[0].1, [a, b]) && [a, b][0] == a && [a, b][1] == b;
      assert forall k :: 0 <= k < |rest| ==> rest[k] == orders[k + 1];
      BeforeExactly(rest, a, b);
      hide Eval;
      if k: nat :| k < |orders| && DecidesAt(orders, a, b, k) {
        if k > 0 {
          assert Eval(orders[0].1, a) == Eval(orders[0].1, b);
          forall j | 0 <= j < k - 1 ensures Eval(rest[j].1, a) == Eval(rest[j].1, b) {
            assert Eval(orders[j + 1].1, a) == Eval(orders[j + 1].1, b);
          }
          assert DecidesAt(rest, a, b, k - 1);
        }
      }
      if k: nat :| k < |rest| && DecidesAt(rest, a, b, k) && Eval(orders[0].1, a) == Eval(orders[0].1, b) {
        assert DecidesAt(orders, a, b, k + 1);
      }
      if RowBefore(orders, a, b) && Eval(orders[0].1, a) != Eval(orders[0].1, b) {
        assert DecidesAt(orders, a, b, 0);
      }
    }
  }

  /** A row that comes before another also comes before, or has after it, any third one. */
  lemma {:induction false} BeforeSplits(orders: seq<(OrderType, Expr)>, a: Row, b: Row, c: Row)
    requires Sortable(orders, [a, b, c]) && RowBefore(orders, a, c)
    ensures RowBefore(orders, a, b) || RowBefore(orders, b, c)
  {
    var rows := [a, b, c];
    assert OneKind(orders[0].1, rows) && rows[0] == a && rows[1] == b && rows[2] == c;
    var rest := orders[1..];
    assert forall k :: 0 <= k < |rest| ==> rest[k] == orders[k + 1];
    if RowBefore(rest, a, c) {
      BeforeSplits(rest, a, b, c);
    }
  }

  lemma {:induction false} BeforeAsymmetric(orders: seq<(OrderType, Expr)>, a: Row, b: Row)
    ensures !(RowBefore(orders, a, b) && RowBefore(orders, b, a))
  {
    if orders != [] {
      BeforeAsymmetric(orders[1..], a, b);
    }
  }

  /** Position `p` is to be listed before `q`: its row comes first, or neither does and `p` does. */
  ghost predicate Precedes(orders: seq<(OrderType, Expr)>, rows: seq<Row>, p: nat, q: nat)
    requires p < |rows| && q < |rows|
  {
    RowBefore(orders, rows[p], rows[q]) || (!RowBefore(orders, rows[q], rows[p]) && p < q)
  }

  ghost predicate InOrder(orders: seq<(OrderType, Expr)>, rows: seq<Row>, listed: seq<nat>)
    requires InRange(listed, |rows|)
  {
    forall i, j :: 0 <= i < j < |listed| ==> Precedes(orders, rows, listed[i], listed[j])
  }

  lemma AppendInOrder(orders: seq<(OrderType, Expr)>, rows: seq<Row>, listed: seq<nat>, p: nat)
    requires InRange(listed, |rows|) && p < |rows| && InOrder(orders, rows, listed)
    requires forall q :: q in listed ==> Precedes(orders, rows, q, p)
    ensures InOrder(orders, rows, listed + [p])
  {
    hide Precedes;
  }

  lemma Third(orders: seq<(OrderType, Expr)>, rows: seq<Row>, p: nat, q: nat, r: nat)
    requires Sortable(orders, rows) && p < |rows| && q < |rows| && r < |rows|
    ensures RowBefore(orders, rows[p], rows[r])
            ==> RowBefore(orders, rows[p], rows[q]) || RowBefore(orders, rows[q], rows[r])
  {
    if RowBefore(orders, rows[p], rows[r]) {
      forall k | 0 <= k < |orders| ensures OneKind(orders[k].1, [rows[p], rows[q], rows[r]]) {
        assert OneKind(orders[k].1, rows);
      }
      BeforeSplits(orders, rows[p], rows[q], rows[r]);
    }
  }

  lemma {:induction false} InsertInOrder(orders: seq<(OrderType, Expr)>, rows: seq<Row>, listed: seq<nat>, p: nat)
    requires Sortable(orders, rows) && p < |rows| && InRange(listed, p) && InOrder(orders, rows, listed)
    ensures var r := InsertPosition(orders, rows, listed, p);
            InOrder(orders, rows, r) && forall q :: q in r <==> q in listed || q == p
  {
    hide Sortable, RowBefore;
    if listed != [] {
      var n := |listed| - 1;
      var last, front := listed[n], listed[..n];
      assert listed == front + [last];
      if RowBefore(orders, rows[p], rows[last]) {
        InsertInOrder(orders, rows, front, p);
        var r := InsertPosition(orders, rows, front, p);
        forall q | q in r ensures Precedes(orders, rows, q, last) {
          if q != p {
            var i :| 0 <= i < n && listed[i] == q;
          }
        }
        AppendInOrder(orders, rows, r, last);
      } else {
        forall q | q in listed ensures Precedes(orders, rows, q, p) {
          var i :| 0 <= i < |listed| && listed[i] == q;
          Third(orders, rows, p, last, q);
          BeforeAsymmetric(orders, rows[q], rows[last]);
        }
        AppendInOrder(orders, rows, listed, p);
      }
    }
  }

  /** The sort lists every position once, by the keys and rows with equal keys in their old order. */
  lemma {:induction false} SortOrders(orders: seq<(OrderType, Expr)>, rows: seq<Row>, n: nat)
    requires Sortable(orders, rows) && n <= |rows|
    ensures InOrder(orders, rows, SortPositions(orders, rows, n))
    ensures forall q: nat :: q in SortPositions(orders, rows, n) <==> q < n
    ensures multiset(SortPositions(orders, rows, n)) == multiset(Positions(n))
  {
    hide Sortable, InOrder, InsertPosition;
    if n > 0 {
      SortOrders(orders, rows, n - 1);
      var before := SortPositions(orders, rows, n - 1);
      assert InRange(before, n - 1) by {
        forall i | 0 <= i < |before| ensures before[i] < n - 1 {
          assert before[i] in before;
        }
      }
      InsertInOrder(orders, rows, before, n - 1);
      InsertOnce(orders, rows, before, n - 1);
      assert Positions(n) == Positions(n - 1) + [n - 1];
    } else {
      NothingInOrder(orders, rows);
    }
  }

  lemma NothingInOrder(orders: seq<(OrderType, Expr)>, rows: seq<Row>)
    ensures InOrder(orders, rows, [])
  {
  }

  lemma {:induction false} InsertOnce(orders: seq<(OrderType, Expr)>, rows: seq<Row>, listed: seq<nat>, p: nat)
    requires p < |rows| && InRange(listed, |rows|)
    ensures multiset(InsertPosition(orders, rows, listed, p)) == multiset(listed) + multiset{p}
  {
    hide RowBefore;
    if listed != [] {
      var n := |listed| - 1;
      assert listed == listed[..n] + [listed[n]];
      InsertOnce(orders, rows, listed[..n], p);
    }
  }

  // ---------------------------------------------------------------- aggregates

  /** The values of `arg` that are not null. */
  ghost function Present(arg: Expr, rows: seq<Row>): seq<Value> {
    if rows == [] then []
    else
      var n := |rows| - 1;
      Present(arg, rows[..n]) + (if Eval(arg, rows[n]) == Null then [] else [Eval(arg, rows[n])])
  }

  lemma {:induction false} PresentHas(arg: Expr, rows: seq<Row>, v: Value)
    ensures v in Present(arg, rows) <==> v != Null && exists i :: 0 <= i < |rows| && Eval(arg, rows[i]) == v
  {
    hide Eval;
    if rows != [] {
      var n := |rows| - 1;
      PresentHas(arg, rows[..n], v);
      assert forall i :: 0 <= i < n ==> rows[..n][i] == rows[i];
    }
  }

  ghost function Total(values: seq<Value>): int
    requires forall i :: 0 <= i < |values| ==> values[i].Int?
  {
    if values == [] then 0 else Total(values[..|values| - 1]) + values[|values| - 1].i
  }

  lemma WrapTwice(a: int, b: int)
    ensures Int32(Int32(a) + b) == Int32(a + b)
  {
  }

  /** COUNT(*) is the number of rows, in 32 bits. */
  lemma {:induction false} CountStarIs(arg: Expr, rows: seq<Row>)
    ensures AggregateValue(CountStar, arg, rows) == Int(Int32(|rows|))
  {
    if rows != [] {
      CountStarIs(arg, rows[..|rows| - 1]);
      WrapTwice(|rows| - 1, 1);
    }
  }

  /** COUNT is the number of values that are not null, and null when there is none. */
  lemma {:induction false} CountIs(arg: Expr, rows: seq<Row>)
    ensures var values := Present(arg, rows);
            AggregateValue(CountAgg, arg, rows) == if values == [] then Null else Int(Int32(|values|))
  {
    if rows != [] {
      CountIs(arg, rows[..|rows| - 1]);
      WrapTwice(|Present(arg, rows[..|rows| - 1])|, 1);
    }
  }

  ghost predicate AllInt32(arg: Expr, rows: seq<Row>) {
    forall i :: 0 <= i < |rows| ==>
      var v := Eval(arg, rows[i]); v == Null || (v.Int? && -0x8000_0000 <= v.i < 0x8000_0000)
  }

  lemma PresentInts(arg: Expr, rows: seq<Row>)
    requires AllInt32(arg, rows)
    ensures forall i :: 0 <= i < |Present(arg, rows)| ==> Present(arg, rows)[i].Int?
  {
    var values := Present(arg, rows);
    forall i | 0 <= i < |values| ensures values[i].Int? {
      assert values[i] in values;
      PresentHas(arg, rows, values[i]);
    }
  }

  lemma TotalStep(values: seq<Value>, v: Value)
    requires v.Int? && forall i :: 0 <= i < |values| ==> values[i].Int?
    ensures forall i :: 0 <= i < |values + [v]| ==> (values + [v])[i].Int?
    ensures Total(values + [v]) == Total(values) + v.i && (values == [] ==> Total(values + [v]) == v.i)
  {
    assert (values + [v])[..|values|] == values;
  }

  lemma PresentStep(arg: Expr, rows: seq<Row>)
    requires rows != []
    ensures var n := |rows| - 1;
            Present(arg, rows) == if Eval(arg, rows[n]) == Null then Present(arg, rows[..n])
                                  else Present(arg, rows[..n]) + [Eval(arg, rows[n])]
  {
  }

  ghost predicate Is32BitSum(v: Value, total: int) {
    v == Int(Int32(total))
  }

  lemma SumStep(acc: Value, total: int, i: int)
    requires -0x8000_0000 <= i < 0x8000_0000
    ensures Is32BitSum(CombineAggregate(SumAgg, Null, Int(i)), i)
    ensures Is32BitSum(acc, total) ==> Is32BitSum(CombineAggregate(SumAgg, acc, Int(i)), total + i)
  {
    WrapTwice(total, i);
  }

  lemma SkipsNull(acc: Value)
    ensures CombineAggregate(SumAgg, acc, Null) == acc
  {
  }

  /** SUM adds up the values that are not null, in 32 bits, and is null when there is none. */
  lemma {:induction false} SumIs(arg: Expr, rows: seq<Row>)
    requires AllInt32(arg, rows)
    ensures var values, sum := Present(arg, rows), AggregateValue(SumAgg, arg, rows);
            && (forall i :: 0 <= i < |values| ==> values[i].Int?)
            && (if values == [] then sum == Null else Is32BitSum(sum, Total(values)))
  {
    hide Eval, Is32BitSum, CombineAggregate, Total;
    PresentInts(arg, rows);
    if rows != [] {
      PresentStep(arg, rows);
      var n := |rows| - 1;
      SumIs(arg, rows[..n]);
      var before, v := Present(arg, rows[..n]), Eval(arg, rows[n]);
      SkipsNull(AggregateValue(SumAgg, arg, rows[..n]));
      if v != Null {
        TotalStep(before, v);
        SumStep(AggregateValue(SumAgg, arg, rows[..n]), Total(before), v.i);
      }
    }
  }

  /** MIN and MAX are a value that is there and that none is below or above; null when all are. */
  lemma {:induction false} ExtremeIs(t: AggType, arg: Expr, rows: seq<Row>)
    requires OneKind(arg, rows) && (t == MinAgg || t == MaxAgg)
    ensures var values, m := Present(arg, rows), AggregateValue(t, arg, rows);
            && (m == Null <==> values == [])
            && (m != Null ==> m in values)
            && forall v :: v in values ==> if t == MinAgg then !Less(v, m) else !Less(m, v)
  {
    if rows != [] {
      var n := |rows| - 1;
      assert forall i :: 0 <= i < n ==> rows[..n][i] == rows[i];
      ExtremeIs(t, arg, rows[..n]);
      PresentStep(arg, rows);
      var before, v, m := Present(arg, rows[..n]), Eval(arg, rows[n]), AggregateValue(t, arg, rows[..n]);
      if v != Null && m != Null {
        PresentHas(arg, rows[..n], m);
        assert Less(v, m) || Less(m, v) || v == m;
        forall w | w in before ensures w.Int? == v.Int? && w.Bool? == v.Bool? {
          PresentHas(arg, rows[..n], w);
          var j :| 0 <= j < n && Eval(arg, rows[..n][j]) == w;
        }
      }
    }
  }

  // ---------------------------------------------------------------- groups

  ghost function WithKey(groupBys: seq<Expr>, key: Row, rows: seq<Row>): set<nat> {
    set p: nat | p < |rows| && EvalAll(groupBys, rows[p]) == key
  }

  lemma {:induction false} GroupConcat(groupBys: seq<Expr>, key: Row, a: seq<Row>, b: seq<Row>)
    ensures GroupOf(groupBys, key, a + b) == GroupOf(groupBys, key, a) + GroupOf(groupBys, key, b)
  {
    if a == [] {
      assert a + b == b;
    } else {
      GroupConcat(groupBys, key, a[1..], b);
      assert (a + b)[0] == a[0] && (a + b)[1..] == a[1..] + b;
      var head := if EvalAll(groupBys, a[0]) == key then [a[0]] else [];
      Associate(head, GroupOf(groupBys, key, a[1..]), GroupOf(groupBys, key, b));
    }
  }

  /** A group is the rows with its key, in their order. */
  lemma {:induction false} GroupKeeps(groupBys: seq<Expr>, key: Row, rows: seq<Row>) returns (kept: seq<nat>)
    ensures Keeps(kept, |rows|, WithKey(groupBys, key, rows)) && GroupOf(groupBys, key, rows) == AtPositions(rows, kept)
  {
    if rows == [] {
      kept := [];
    } else {
      var n := |rows| - 1;
      var front := rows[..n];
      var before := GroupKeeps(groupBys, key, front);
      kept := before + (if n in WithKey(groupBys, key, rows) then [n] else []);
      assert Keeps(before, n, WithKey(groupBys, key, rows));
      KeepsStep(before, n, WithKey(groupBys, key, rows));
      assert rows == front + [rows[n]];
      GroupConcat(groupBys, key, front, [rows[n]]);
      assert AtPositions(rows, before) == AtPositions(front, before);
    }
  }

  /** The positions whose key has not been met before them. */
  ghost function FirstOfKey(groupBys: seq<Expr>, rows: seq<Row>): set<nat> {
    set p: nat | p < |rows|
                 && forall q: nat :: q < p ==> EvalAll(groupBys, rows[q]) != EvalAll(groupBys, rows[p])
  }

  /** `keys` are the keys of the first `n` rows, each taken from where it first occurs. */
  ghost predicate KeysAre(groupBys: seq<Expr>, rows: seq<Row>, n: nat, keys: seq<Row>, firsts: seq<nat>)
    requires n <= |rows|
  {
    && |keys| == |firsts| && Keeps(firsts, n, FirstOfKey(groupBys, rows))
    && (forall i :: 0 <= i < |firsts| ==> keys[i] == EvalAll(groupBys, rows[firsts[i]]))
    && (forall p: nat :: p < n ==> EvalAll(groupBys, rows[p]) in keys)
  }

  /** A key is new exactly when none of the keys listed so far is it. */
  lemma NewKey(groupBys: seq<Expr>, rows: seq<Row>, n: nat, keys: seq<Row>, firsts: seq<nat>)
    requires n < |rows| && KeysAre(groupBys, rows, n, keys, firsts)
    ensures n in FirstOfKey(groupBys, rows) <==> EvalAll(groupBys, rows[n]) !in keys
  {
    hide EvalAll;
    var key := EvalAll(groupBys, rows[n]);
    if key in keys {
      var i :| 0 <= i < |keys| && keys[i] == key;
      assert EvalAll(groupBys, rows[firsts[i]]) == key;
    }
  }

  lemma OldKey(groupBys: seq<Expr>, rows: seq<Row>, n: nat, keys: seq<Row>, firsts: seq<nat>)
    requires n < |rows| && KeysAre(groupBys, rows, n, keys, firsts) && EvalAll(groupBys, rows[n]) in keys
    ensures KeysAre(groupBys, rows, n + 1, keys, firsts)
  {
    NewKey(groupBys, rows, n, keys, firsts);
    KeepsStep(firsts, n, FirstOfKey(groupBys, rows));
    hide EvalAll, Keeps, FirstOfKey;
    assert firsts + [] == firsts;
  }

  lemma MoreKeys(groupBys: seq<Expr>, rows: seq<Row>, n: nat, keys: seq<Row>, firsts: seq<nat>)
    requires n < |rows| && KeysAre(groupBys, rows, n, keys, firsts) && EvalAll(groupBys, rows[n]) !in keys
    ensures KeysAre(groupBys, rows, n + 1, keys + [EvalAll(groupBys, rows[n])], firsts + [n])
  {
    NewKey(groupBys, rows, n, keys, firsts);
    KeepsStep(firsts, n, FirstOfKey(groupBys, rows));
    hide EvalAll, FirstOfKey;
    var key, more := EvalAll(groupBys, rows[n]), keys + [EvalAll(groupBys, rows[n])];
    assert more[|keys|] == key;
    forall p: nat | p < n + 1 ensures EvalAll(groupBys, rows[p]) in more {
      assert p < n ==> EvalAll(groupBys, rows[p]) in keys;
    }
  }

  /** The groups: one key for each that occurs, listed by first occurrence. */
  lemma {:induction false} KeysExactly(groupBys: seq<Expr>, rows: seq<Row>, n: nat) returns (firsts: seq<nat>)
    requires n <= |rows|
    ensures KeysAre(groupBys, rows, n, GroupKeys(groupBys, rows, n), firsts)
  {
    if n == 0 {
      firsts := [];
    } else {
      hide EvalAll, KeysAre;
      var before := KeysExactly(groupBys, rows, n - 1);
      var keys := GroupKeys(groupBys, rows, n - 1);
      if EvalAll(groupBys, rows[n - 1]) in keys {
        firsts := before;
        OldKey(groupBys, rows, n - 1, keys, before);
      } else {
        firsts := before + [n - 1];
        MoreKeys(groupBys, rows, n - 1, keys, before);
      }
    }
  }
}

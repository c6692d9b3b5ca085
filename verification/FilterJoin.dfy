/**
 * Pushing a filter into the constant-true join below it, on row sequences: sound for
 * an inner join, and for each of the outer joins, which the rule accepts as well,
 * exactly when the stated condition on the joined rows holds.
 */
module FilterJoin {
  import opened Expressions
  import opened Relations

  /** The filter's predicate as the rule rewrites it. */
  function Pushed(e: Expr, leftCount: nat, rightCount: nat): Expr
    requires RewriteExpressionForJoin(e, leftCount, rightCount).Ok?
  {
    RewriteExpressionForJoin(e, leftCount, rightCount).value
  }

  lemma {:induction false} TruePicksAll(l: Row, right: seq<Row>, n: nat)
    requires n <= |right|
    ensures MatchesUpTo(Const(Bool(true)), l, right, n) == Positions(n)
  {
    if n > 0 {
      TruePicksAll(l, right, n - 1);
    }
  }

  lemma PairAppend(l: Row, right: seq<Row>, pick: seq<nat>, j: nat)
    requires InRange(pick, |right|) && j < |right|
    ensures Pair(l, right, pick + [j]) == Pair(l, right, pick) + [l + right[j]]
  {
  }

  lemma FilterOne(e: Expr, row: Row)
    ensures FilterRows(e, [row]) == if Holds(e, row) then [row] else []
  {
    assert FilterRows(e, [row][1..]) == [];
  }

  /** Filtering the pairs of one left row keeps exactly its matches under the pushed predicate. */
  lemma {:induction false} FilterPairs(e: Expr, l: Row, right: seq<Row>, rightCount: nat, n: nat)
    requires RewriteExpressionForJoin(e, |l|, rightCount).Ok? && Wide(right, rightCount) && n <= |right|
    ensures FilterRows(e, Pair(l, right, Positions(n)))
            == Pair(l, right, MatchesUpTo(Pushed(e, |l|, rightCount), l, right, n))
  {
    if n > 0 {
      var pushed := Pushed(e, |l|, rightCount);
      FilterPairs(e, l, right, rightCount, n - 1);
      assert Positions(n) == Positions(n - 1) + [n - 1];
      PairAppend(l, right, Positions(n - 1), n - 1);
      FilterConcat(e, Pair(l, right, Positions(n - 1)), [l + right[n - 1]]);
      FilterOne(e, l + right[n - 1]);
      RewriteMeansTheSame(e, l, right[n - 1]);
      var before := MatchesUpTo(pushed, l, right, n - 1);
      PairAppend(l, right, before, n - 1);
      if !Holds(e, l + right[n - 1]) {
        assert MatchesUpTo(pushed, l, right, n) == before;
      }
    }
  }

  /** Inner join on a true predicate: the merged join makes the filter's rows. */
  lemma {:induction false} MergeInner(e: Expr, left: seq<Row>, right: seq<Row>, leftCount: nat, rightCount: nat)
    requires RewriteExpressionForJoin(e, leftCount, rightCount).Ok?
    requires Wide(left, leftCount) && Wide(right, rightCount)
    ensures FilterRows(e, JoinLeft(INNER, left, right, LoopPicks(Const(Bool(true)), left, right), rightCount))
            == JoinLeft(INNER, left, right, LoopPicks(Pushed(e, leftCount, rightCount), left, right), rightCount)
  {
    if left != [] {
      var l, rest, yes, pushed := left[0], left[1..], Const(Bool(true)), Pushed(e, leftCount, rightCount);
      MergeInner(e, rest, right, leftCount, rightCount);
      PicksTail(yes, left, right);
      PicksTail(pushed, left, right);
      TruePicksAll(l, right, |right|);
      FilterPairs(e, l, right, rightCount, |right|);
      FilterConcat(e, Pair(l, right, Positions(|right|)),
                   JoinLeft(INNER, rest, right, LoopPicks(yes, rest, right), rightCount));
    }
  }

  lemma PicksTail(e: Expr, left: seq<Row>, right: seq<Row>)
    requires left != []
    ensures LoopPicks(e, left, right)[0] == Matches(e, left[0], right)
    ensures LoopPicks(e, left, right)[1..] == LoopPicks(e, left[1..], right)
  {
  }

  // ---------------------------------------------------------------- the join types the rule does not look at

  /** One of the first `n` right rows passes the filter together with `l`. */
  ghost predicate Partnered(e: Expr, l: Row, right: seq<Row>, n: nat)
    requires n <= |right|
  {
    exists j :: 0 <= j < n && Holds(e, l + right[j])
  }

  lemma PartneredStep(e: Expr, l: Row, right: seq<Row>, n: nat)
    requires 0 < n <= |right|
    ensures Partnered(e, l, right, n) <==> Partnered(e, l, right, n - 1) || Holds(e, l + right[n - 1])
  {
    hide Holds;
  }

  /** The left row survives the filter with some partner, or padded when there is nothing to join. */
  ghost predicate Survives(e: Expr, l: Row, right: seq<Row>, rightCount: nat) {
    Partnered(e, l, right, |right|) || (right == [] && Holds(e, l + Nulls(rightCount)))
  }

  lemma {:induction false} MatchExists(e: Expr, l: Row, right: seq<Row>, rightCount: nat, n: nat)
    requires RewriteExpressionForJoin(e, |l|, rightCount).Ok? && Wide(right, rightCount) && n <= |right|
    ensures MatchesUpTo(Pushed(e, |l|, rightCount), l, right, n) != [] <==> Partnered(e, l, right, n)
  {
    if n > 0 {
      MatchExists(e, l, right, rightCount, n - 1);
      RewriteMeansTheSame(e, l, right[n - 1]);
      PartneredStep(e, l, right, n);
      hide Partnered, Eval, EvalJoin, RewriteExpressionForJoin;
    }
  }

  /** One left row under a left join: filtered and merged agree if it survives; if not, merging adds one row. */
  lemma MergeLeftRow(e: Expr, l: Row, right: seq<Row>, rightCount: nat)
    requires RewriteExpressionForJoin(e, |l|, rightCount).Ok? && Wide(right, rightCount)
    ensures var filtered := FilterRows(e, JoinRow(LEFT, l, right, Positions(|right|), rightCount));
            var merged := JoinRow(LEFT, l, right, Matches(Pushed(e, |l|, rightCount), l, right), rightCount);
            && (Survives(e, l, right, rightCount) ==> filtered == merged)
            && (!Survives(e, l, right, rightCount) ==> |filtered| == 0 && |merged| == 1)
  {
    MatchExists(e, l, right, rightCount, |right|);
    FilterPairs(e, l, right, rightCount, |right|);
    if right == [] {
      FilterOne(e, l + Nulls(rightCount));
    }
  }

  ghost predicate AllSurvive(e: Expr, left: seq<Row>, right: seq<Row>, rightCount: nat) {
    forall i :: 0 <= i < |left| ==> Survives(e, left[i], right, rightCount)
  }

  function FilteredLeft(e: Expr, left: seq<Row>, right: seq<Row>, rightCount: nat): seq<Row> {
    FilterRows(e, JoinLeft(LEFT, left, right, LoopPicks(Const(Bool(true)), left, right), rightCount))
  }

  function MergedLeft(e: Expr, left: seq<Row>, right: seq<Row>, leftCount: nat, rightCount: nat): seq<Row>
    requires RewriteExpressionForJoin(e, leftCount, rightCount).Ok?
  {
    JoinLeft(LEFT, left, right, LoopPicks(Pushed(e, leftCount, rightCount), left, right), rightCount)
  }

  lemma LeftStep(e: Expr, left: seq<Row>, right: seq<Row>, leftCount: nat, rightCount: nat)
    requires RewriteExpressionForJoin(e, leftCount, rightCount).Ok? && left != []
    ensures FilteredLeft(e, left, right, rightCount)
            == FilterRows(e, JoinRow(LEFT, left[0], right, Positions(|right|), rightCount))
               + FilteredLeft(e, left[1..], right, rightCount)
    ensures MergedLeft(e, left, right, leftCount, rightCount)
            == JoinRow(LEFT, left[0], right, Matches(Pushed(e, leftCount, rightCount), left[0], right), rightCount)
               + MergedLeft(e, left[1..], right, leftCount, rightCount)
  {
    var yes := Const(Bool(true));
    PicksTail(yes, left, right);
    PicksTail(Pushed(e, leftCount, rightCount), left, right);
    TruePicksAll(left[0], right, |right|);
    FilterConcat(e, JoinRow(LEFT, left[0], right, Positions(|right|), rightCount),
                 JoinLeft(LEFT, left[1..], right, LoopPicks(yes, left[1..], right), rightCount));
  }

  /** Left join on a true predicate: merging keeps the rows exactly when every left row survives the filter. */
  lemma {:induction false} MergeLeftExactly(e: Expr, left: seq<Row>, right: seq<Row>, leftCount: nat, rightCount: nat)
    requires RewriteExpressionForJoin(e, leftCount, rightCount).Ok?
    requires Wide(left, leftCount) && Wide(right, rightCount)
    ensures FilteredLeft(e, left, right, rightCount) == MergedLeft(e, left, right, leftCount, rightCount)
            <==> AllSurvive(e, left, right, rightCount)
    ensures |FilteredLeft(e, left, right, rightCount)| <= |MergedLeft(e, left, right, leftCount, rightCount)|
    ensures |FilteredLeft(e, left, right, rightCount)| == |MergedLeft(e, left, right, leftCount, rightCount)|
            ==> AllSurvive(e, left, right, rightCount)
  {
    if left != [] {
      var rest := left[1..];
      MergeLeftExactly(e, rest, right, leftCount, rightCount);
      LeftStep(e, left, right, leftCount, rightCount);
      MergeLeftRow(e, left[0], right, rightCount);
      AllSurviveStep(e, left, right, rightCount);
      var filtered := FilterRows(e, JoinRow(LEFT, left[0], right, Positions(|right|), rightCount));
      var matches := Matches(Pushed(e, leftCount, rightCount), left[0], right);
      var merged := JoinRow(LEFT, left[0], right, matches, rightCount);
      CompareConcat(filtered, FilteredLeft(e, rest, right, rightCount), merged,
                    MergedLeft(e, rest, right, leftCount, rightCount));
      hide *;
    }
  }

  lemma CompareConcat<T>(a: seq<T>, b: seq<T>, c: seq<T>, d: seq<T>)
    ensures |a| == |c| ==> (a + b == c + d <==> a == c && b == d)
  {
    if |a| == |c| && a + b == c + d {
      assert a == (a + b)[..|a|] == (c + d)[..|c|] == c;
      assert b == (a + b)[|a|..] == (c + d)[|c|..] == d;
    }
  }

  lemma AllSurviveStep(e: Expr, left: seq<Row>, right: seq<Row>, rightCount: nat)
    requires left != []
    ensures AllSurvive(e, left, right, rightCount)
            <==> Survives(e, left[0], right, rightCount) && AllSurvive(e, left[1..], right, rightCount)
  {
    hide Survives;
    assert forall i :: 1 <= i < |left| ==> left[i] == left[1..][i - 1];
  }

  /** A concrete left join the merge changes: one unmatched row appears. */
  lemma MergeLeftChangesRows()
    ensures var e := Compare(Equal, Column(0, 0, INTEGER), Column(0, 1, INTEGER));
            var left, right := [[Int(1)]], [[Int(2)]];
            && RewriteExpressionForJoin(e, 1, 1).Ok?
            && FilteredLeft(e, left, right, 1) == []
            && MergedLeft(e, left, right, 1, 1) == [[Int(1), Null]]
  {
    var e := Compare(Equal, Column(0, 0, INTEGER), Column(0, 1, INTEGER));
    var left, right := [[Int(1)]], [[Int(2)]];
    var joined := [Int(1)] + [Int(2)];
    assert Eval(e, joined) == Bool(false);
    LeftStep(e, left, right, 1, 1);
    MergeLeftRow(e, left[0], right, 1);
    assert !Survives(e, left[0], right, 1);
    MatchExists(e, left[0], right, 1, 1);
    assert left[1..] == [];
    assert [Int(1)] + Nulls(1) == [Int(1), Null];
  }

  // ---------------------------------------------------------------- the right side of a right or outer join

  lemma {:induction false} SameLeftPart(left: seq<Row>, right: seq<Row>, picks: seq<seq<nat>>, rightCount: nat)
    requires PicksOk(left, right, picks)
    ensures JoinLeft(OUTER, left, right, picks, rightCount) == JoinLeft(LEFT, left, right, picks, rightCount)
    ensures JoinLeft(RIGHT, left, right, picks, rightCount) == JoinLeft(INNER, left, right, picks, rightCount)
  {
    if left != [] {
      SameLeftPart(left[1..], right, picks[1..], rightCount);
    }
  }

  lemma {:induction false} MatchesHas(e: Expr, l: Row, right: seq<Row>, rightCount: nat, n: nat, j: nat)
    requires RewriteExpressionForJoin(e, |l|, rightCount).Ok? && Wide(right, rightCount) && n <= |right|
    ensures j in MatchesUpTo(Pushed(e, |l|, rightCount), l, right, n) <==> j < n && Holds(e, l + right[j])
  {
    hide RewriteExpressionForJoin;
    if n > 0 {
      MatchesHas(e, l, right, rightCount, n - 1, j);
      RewriteMeansTheSame(e, l, right[n - 1]);
    }
  }

  /** Some left row passes the filter together with the right row `r`. */
  ghost predicate RightPartnered(e: Expr, left: seq<Row>, r: Row) {
    exists i :: 0 <= i < |left| && Holds(e, left[i] + r)
  }

  /** The right row survives the filter with some partner, or padded when there is nothing to join. */
  ghost predicate RightSurvives(e: Expr, left: seq<Row>, r: Row, leftCount: nat) {
    RightPartnered(e, left, r) || (left == [] && Holds(e, Nulls(leftCount) + r))
  }

  ghost predicate RightSurvive(e: Expr, left: seq<Row>, right: seq<Row>, leftCount: nat, n: nat)
    requires n <= |right|
  {
    forall j :: 0 <= j < n ==> RightSurvives(e, left, right[j], leftCount)
  }

  lemma PickedTrue(left: seq<Row>, right: seq<Row>, j: nat)
    requires j < |right|
    ensures Picked(LoopPicks(Const(Bool(true)), left, right), j) <==> left != []
  {
    var picks := LoopPicks(Const(Bool(true)), left, right);
    if left != [] {
      TruePicksAll(left[0], right, |right|);
      assert picks[0] == Positions(|right|) && picks[0][j] == j;
    }
  }

  lemma PickedPushed(e: Expr, left: seq<Row>, right: seq<Row>, leftCount: nat, rightCount: nat, j: nat)
    requires RewriteExpressionForJoin(e, leftCount, rightCount).Ok?
    requires Wide(left, leftCount) && Wide(right, rightCount) && j < |right|
    ensures Picked(LoopPicks(Pushed(e, leftCount, rightCount), left, right), j) <==> RightPartnered(e, left, right[j])
  {
    hide RewriteExpressionForJoin, Holds, MatchesUpTo;
    var picks := LoopPicks(Pushed(e, leftCount, rightCount), left, right);
    forall i | 0 <= i < |left| ensures j in picks[i] <==> Holds(e, left[i] + right[j]) {
      MatchesHas(e, left[i], right, rightCount, |right|, j);
    }
  }

  function FilteredRight(e: Expr, left: seq<Row>, right: seq<Row>, leftCount: nat, n: nat): seq<Row>
    requires n <= |right|
  {
    FilterRows(e, Unpicked(right, LoopPicks(Const(Bool(true)), left, right), leftCount, n))
  }

  function MergedRight(e: Expr, left: seq<Row>, right: seq<Row>, leftCount: nat, rightCount: nat, n: nat): seq<Row>
    requires n <= |right| && RewriteExpressionForJoin(e, leftCount, rightCount).Ok?
  {
    Unpicked(right, LoopPicks(Pushed(e, leftCount, rightCount), left, right), leftCount, n)
  }

  lemma RightStep(e: Expr, left: seq<Row>, right: seq<Row>, leftCount: nat, rightCount: nat, n: nat)
    requires RewriteExpressionForJoin(e, leftCount, rightCount).Ok? && 0 < n <= |right|
    requires Wide(left, leftCount) && Wide(right, rightCount)
    ensures var pad := Nulls(leftCount) + right[n - 1];
            && FilteredRight(e, left, right, leftCount, n)
               == FilteredRight(e, left, right, leftCount, n - 1) + (if left == [] && Holds(e, pad) then [pad] else [])
            && MergedRight(e, left, right, leftCount, rightCount, n)
               == MergedRight(e, left, right, leftCount, rightCount, n - 1)
                  + (if RightPartnered(e, left, right[n - 1]) then [] else [pad])
  {
    hide RewriteExpressionForJoin, Holds, Picked, RightPartnered, LoopPicks;
    var pad := Nulls(leftCount) + right[n - 1];
    var picks := LoopPicks(Const(Bool(true)), left, right);
    PickedTrue(left, right, n - 1);
    PickedPushed(e, left, right, leftCount, rightCount, n - 1);
    FilterConcat(e, Unpicked(right, picks, leftCount, n - 1), if left == [] then [pad] else []);
    FilterOne(e, pad);
  }

  /** The unmatched right rows: merging keeps them as filtered exactly when every right row survives the filter. */
  lemma {:induction false} MergeRightExactly(e: Expr, left: seq<Row>, right: seq<Row>, leftCount: nat, rightCount: nat,
                                             n: nat)
    requires RewriteExpressionForJoin(e, leftCount, rightCount).Ok? && n <= |right|
    requires Wide(left, leftCount) && Wide(right, rightCount)
    ensures var filtered := FilteredRight(e, left, right, leftCount, n);
            var merged := MergedRight(e, left, right, leftCount, rightCount, n);
            && (filtered == merged <==> RightSurvive(e, left, right, leftCount, n))
            && |filtered| <= |merged|
            && (|filtered| == |merged| ==> RightSurvive(e, left, right, leftCount, n))
  {
    hide RewriteExpressionForJoin, Holds, RightPartnered, FilteredRight, MergedRight, RightSurvive;
    if n == 0 {
      NothingRight(e, left, right, leftCount, rightCount);
    } else {
      MergeRightExactly(e, left, right, leftCount, rightCount, n - 1);
      RightStep(e, left, right, leftCount, rightCount, n);
      RightSurviveStep(e, left, right, leftCount, n);
      RightEmpty(e, left, right[n - 1]);
    }
  }

  lemma NothingRight(e: Expr, left: seq<Row>, right: seq<Row>, leftCount: nat, rightCount: nat)
    requires RewriteExpressionForJoin(e, leftCount, rightCount).Ok?
    ensures FilteredRight(e, left, right, leftCount, 0) == []
    ensures MergedRight(e, left, right, leftCount, rightCount, 0) == []
    ensures RightSurvive(e, left, right, leftCount, 0)
  {
  }

  lemma RightEmpty(e: Expr, left: seq<Row>, r: Row)
    ensures left == [] ==> !RightPartnered(e, left, r)
  {
  }

  lemma RightSurviveStep(e: Expr, left: seq<Row>, right: seq<Row>, leftCount: nat, n: nat)
    requires 0 < n <= |right|
    ensures RightSurvive(e, left, right, leftCount, n)
            <==> RightSurvive(e, left, right, leftCount, n - 1) && RightSurvives(e, left, right[n - 1], leftCount)
  {
    hide RightSurvives;
  }

  // ---------------------------------------------------------------- every join type

  /** When merging the filter keeps the rows: nothing for an inner join, the padded side's rows survive otherwise. */
  ghost predicate MergeIsSafe(join: JoinType, e: Expr, left: seq<Row>, right: seq<Row>, leftCount: nat,
                              rightCount: nat) {
    && (join.LEFT? || join.OUTER? ==> AllSurvive(e, left, right, rightCount))
    && (join.RIGHT? || join.OUTER? ==> RightSurvive(e, left, right, leftCount, |right|))
  }

  /** For every join type: filtering the constant-true join and merging the filter into it make the same rows
      if and only if the merge is safe. */
  lemma MergeExactly(join: JoinType, e: Expr, left: seq<Row>, right: seq<Row>, leftCount: nat, rightCount: nat)
    requires RewriteExpressionForJoin(e, leftCount, rightCount).Ok?
    requires Wide(left, leftCount) && Wide(right, rightCount)
    ensures FilterRows(e, JoinRows(join, left, right, LoopPicks(Const(Bool(true)), left, right), leftCount, rightCount))
            == JoinRows(join, left, right, LoopPicks(Pushed(e, leftCount, rightCount), left, right), leftCount,
                        rightCount)
            <==> MergeIsSafe(join, e, left, right, leftCount, rightCount)
  {
    hide RewriteExpressionForJoin, AllSurvive, RightSurvive, JoinLeft, Unpicked, FilterRows;
    var yes, no := LoopPicks(Const(Bool(true)), left, right), LoopPicks(Pushed(e, leftCount, rightCount), left, right);
    SameLeftPart(left, right, yes, rightCount);
    SameLeftPart(left, right, no, rightCount);
    MergeInner(e, left, right, leftCount, rightCount);
    MergeLeftExactly(e, left, right, leftCount, rightCount);
    MergeRightExactly(e, left, right, leftCount, rightCount, |right|);
    var l, r := JoinLeft(join, left, right, yes, rightCount), Unpicked(right, yes, leftCount, |right|);
    var l', r' := JoinLeft(join, left, right, no, rightCount), Unpicked(right, no, leftCount, |right|);
    FilterConcat(e, l, r);
    NoRows(e, l, l');
    CompareConcat(FilterRows(e, l), FilterRows(e, r), l', r');
  }

  lemma NoRows(e: Expr, l: seq<Row>, l': seq<Row>)
    ensures l + [] == l && l' + [] == l'
  {
  }

  /** A concrete right join the merge changes: the unmatched right row appears. */
  lemma MergeRightChangesRows()
    ensures var e := Compare(Equal, Column(0, 0, INTEGER), Column(0, 1, INTEGER));
            var left, right := [[Int(1)]], [[Int(2)]];
            && RewriteExpressionForJoin(e, 1, 1).Ok?
            && FilterRows(e, JoinRows(RIGHT, left, right, LoopPicks(Const(Bool(true)), left, right), 1, 1))
               != JoinRows(RIGHT, left, right, LoopPicks(Pushed(e, 1, 1), left, right), 1, 1)
  {
    var e := Compare(Equal, Column(0, 0, INTEGER), Column(0, 1, INTEGER));
    var left, right := [[Int(1)]], [[Int(2)]];
    var joined := [Int(1)] + [Int(2)];
    assert Eval(e, joined) == Bool(false);
    assert !RightSurvives(e, left, right[0], 1);
    MergeExactly(RIGHT, e, left, right, 1, 1);
  }
}

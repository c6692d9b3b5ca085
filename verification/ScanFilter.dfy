/**
 * Joining with a filtered scan against joining with the whole table, on row sequences.
 * A rule that forgets the scan's filter keeps the rows of an equality join exactly when
 * the filter passes the right rows that matter to the join type.
 */
module ScanFilter {
  import opened Expressions
  import opened Relations
  import FilterJoin

  /** The pairs of one left row in a nested-loop join. */
  function Pairs(e: Expr, l: Row, right: seq<Row>): seq<Row> {
    Pair(l, right, Matches(e, l, right))
  }

  predicate Match(e: Expr, l: Row, r: Row) {
    EvalJoin(e, l, r) == Bool(true)
  }

  lemma {:induction false} MatchesPrefix(e: Expr, l: Row, right: seq<Row>, r: Row, n: nat)
    requires n <= |right|
    ensures MatchesUpTo(e, l, right + [r], n) == MatchesUpTo(e, l, right, n)
  {
    if n > 0 {
      MatchesPrefix(e, l, right, r, n - 1);
    }
  }

  lemma PairsSnoc(e: Expr, l: Row, right: seq<Row>, r: Row)
    ensures Pairs(e, l, right + [r]) == Pairs(e, l, right) + if Match(e, l, r) then [l + r] else []
  {
    MatchesPrefix(e, l, right, r, |right|);
    var pick, all := Matches(e, l, right), right + [r];
    assert Pair(l, all, pick) == Pair(l, right, pick);
    FilterJoin.PairAppend(l, all, pick, |right|);
  }

  lemma FilterSnoc(f: Expr, rows: seq<Row>, r: Row)
    ensures FilterRows(f, rows + [r]) == FilterRows(f, rows) + if Holds(f, r) then [r] else []
  {
    FilterConcat(f, rows, [r]);
    FilterJoin.FilterOne(f, r);
  }

  /** Every partner of the left row passes the filter. */
  ghost predicate PartnersPass(e: Expr, f: Expr, l: Row, right: seq<Row>) {
    forall j :: 0 <= j < |right| && Match(e, l, right[j]) ==> Holds(f, right[j])
  }

  lemma PartnersSnoc(e: Expr, f: Expr, l: Row, right: seq<Row>, r: Row)
    ensures PartnersPass(e, f, l, right + [r]) <==> PartnersPass(e, f, l, right) && (Match(e, l, r) ==> Holds(f, r))
  {
    hide Match, Holds;
    var all := right + [r];
    assert forall j :: 0 <= j < |right| ==> all[j] == right[j];
    assert all[|right|] == r;
  }

  /** Filtering can only take pairs away, and takes none exactly when all partners pass. */
  lemma {:induction false} PairsFiltered(e: Expr, f: Expr, l: Row, right: seq<Row>)
    ensures |Pairs(e, l, FilterRows(f, right))| <= |Pairs(e, l, right)|
    ensures |Pairs(e, l, FilterRows(f, right))| == |Pairs(e, l, right)| <==> PartnersPass(e, f, l, right)
    ensures PartnersPass(e, f, l, right) ==> Pairs(e, l, FilterRows(f, right)) == Pairs(e, l, right)
    decreases |right|
  {
    hide Match, Holds, Pairs;
    if right == [] {
      assert FilterRows(f, right) == right;
    } else {
      var front, r := right[..|right| - 1], right[|right| - 1];
      assert right == front + [r];
      PairsFiltered(e, f, l, front);
      PairsSnoc(e, l, front, r);
      FilterSnoc(f, front, r);
      PartnersSnoc(e, f, l, front, r);
      if Holds(f, r) {
        PairsSnoc(e, l, FilterRows(f, front), r);
      } else {
        assert FilterRows(f, right) == FilterRows(f, front);
      }
    }
  }

  lemma {:induction false} MatchesMatch(e: Expr, l: Row, right: seq<Row>, n: nat)
    requires n <= |right|
    ensures forall i :: 0 <= i < |MatchesUpTo(e, l, right, n)| ==> Match(e, l, right[MatchesUpTo(e, l, right, n)[i]])
  {
    if n > 0 {
      MatchesMatch(e, l, right, n - 1);
    }
  }

  /** What one left row contributes. */
  function RowPart(join: JoinType, e: Expr, l: Row, right: seq<Row>, rightCount: nat): seq<Row> {
    JoinRow(join, l, right, Matches(e, l, right), rightCount)
  }

  /** A padded row is no pair: the key of a partner is not null. */
  lemma PaddedIsNoPair(e: Expr, leftCol: nat, rightCol: nat, l: Row, r: Row, rightCount: nat)
    requires IsEquality(e, leftCol, rightCol) && Match(e, l, r) && |r| == rightCount
    ensures l + r != l + Nulls(rightCount)
  {
    EqualityTest(e, leftCol, rightCol, l, r);
    assert (l + r)[|l| + rightCol] == r[rightCol];
    assert (l + Nulls(rightCount))[|l| + rightCol] == Null;
  }

  lemma RowPartFiltered(join: JoinType, e: Expr, f: Expr, leftCol: nat, rightCol: nat, l: Row, right: seq<Row>,
                        rightCount: nat)
    requires IsEquality(e, leftCol, rightCol) && Wide(right, rightCount)
    ensures |RowPart(join, e, l, FilterRows(f, right), rightCount)| <= |RowPart(join, e, l, right, rightCount)|
    ensures RowPart(join, e, l, FilterRows(f, right), rightCount) == RowPart(join, e, l, right, rightCount)
            <==> PartnersPass(e, f, l, right)
  {
    hide IsEquality, PartnersPass, FilterRows;
    PairsFiltered(e, f, l, right);
    var some, all := Pairs(e, l, FilterRows(f, right)), Pairs(e, l, right);
    if some == [] && all != [] {
      MatchesMatch(e, l, right, |right|);
      var j := Matches(e, l, right)[0];
      PaddedIsNoPair(e, leftCol, rightCol, l, right[j], rightCount);
      assert all[0] == l + right[j];
    }
  }

  ghost predicate AllPartnersPass(e: Expr, f: Expr, left: seq<Row>, right: seq<Row>) {
    forall i :: 0 <= i < |left| ==> PartnersPass(e, f, left[i], right)
  }

  function LeftPart(join: JoinType, e: Expr, left: seq<Row>, right: seq<Row>, rightCount: nat): seq<Row> {
    JoinLeft(join, left, right, LoopPicks(e, left, right), rightCount)
  }

  lemma LeftPartFront(join: JoinType, e: Expr, left: seq<Row>, right: seq<Row>, rightCount: nat)
    requires left != []
    ensures LeftPart(join, e, left, right, rightCount)
            == RowPart(join, e, left[0], right, rightCount) + LeftPart(join, e, left[1..], right, rightCount)
  {
    FilterJoin.PicksTail(e, left, right);
  }

  lemma {:induction false} LeftPartFiltered(join: JoinType, e: Expr, f: Expr, leftCol: nat, rightCol: nat,
                                            left: seq<Row>, right: seq<Row>, rightCount: nat)
    requires IsEquality(e, leftCol, rightCol) && Wide(right, rightCount)
    ensures |LeftPart(join, e, left, FilterRows(f, right), rightCount)| <= |LeftPart(join, e, left, right, rightCount)|
    ensures LeftPart(join, e, left, FilterRows(f, right), rightCount) == LeftPart(join, e, left, right, rightCount)
            <==> AllPartnersPass(e, f, left, right)
    decreases |left|
  {
    if left != [] {
      hide *;
      var some, rest := FilterRows(f, right), left[1..];
      RowPartFiltered(join, e, f, leftCol, rightCol, left[0], right, rightCount);
      LeftPartFiltered(join, e, f, leftCol, rightCol, rest, right, rightCount);
      LeftPartFront(join, e, left, some, rightCount);
      LeftPartFront(join, e, left, right, rightCount);
      SameConcat(RowPart(join, e, left[0], some, rightCount), LeftPart(join, e, rest, some, rightCount),
                 RowPart(join, e, left[0], right, rightCount), LeftPart(join, e, rest, right, rightCount));
      PartnersFront(e, f, left, right);
    }
  }

  lemma PartnersFront(e: Expr, f: Expr, left: seq<Row>, right: seq<Row>)
    requires left != []
    ensures AllPartnersPass(e, f, left, right)
            <==> PartnersPass(e, f, left[0], right) && AllPartnersPass(e, f, left[1..], right)
  {
    hide PartnersPass;
    assert forall i :: 1 <= i < |left| ==> left[i] == left[1..][i - 1];
  }

  lemma SameConcat<T>(a: seq<T>, b: seq<T>, c: seq<T>, d: seq<T>)
    requires |a| <= |c| && |b| <= |d|
    ensures a + b == c + d <==> a == c && b == d
  {
    if a + b == c + d {
      assert a == (a + b)[..|a|] && c == (c + d)[..|c|] && b == (a + b)[|a|..] && d == (c + d)[|c|..];
    }
  }

  // ---------------------------------------------------------------- right rows without a partner

  ghost predicate HasPartner(e: Expr, left: seq<Row>, r: Row) {
    exists i :: 0 <= i < |left| && Match(e, left[i], r)
  }

  ghost function Lonely(e: Expr, left: seq<Row>, right: seq<Row>, leftCount: nat): seq<Row> {
    if right == [] then []
    else
      var r := right[|right| - 1];
      Lonely(e, left, right[..|right| - 1], leftCount) + if HasPartner(e, left, r) then [] else [Nulls(leftCount) + r]
  }

  lemma {:induction false} MatchesListed(e: Expr, l: Row, right: seq<Row>, n: nat, j: nat)
    requires n <= |right| && j < |right|
    ensures j in MatchesUpTo(e, l, right, n) <==> j < n && Match(e, l, right[j])
  {
    if n > 0 {
      MatchesListed(e, l, right, n - 1, j);
    }
  }

  lemma PickedIsPartnered(e: Expr, left: seq<Row>, right: seq<Row>, j: nat)
    requires j < |right|
    ensures Picked(LoopPicks(e, left, right), j) <==> HasPartner(e, left, right[j])
  {
    hide Match;
    forall i | 0 <= i < |left| ensures j in LoopPicks(e, left, right)[i] <==> Match(e, left[i], right[j]) {
      MatchesListed(e, left[i], right, |right|, j);
    }
  }

  lemma {:induction false} UnpickedIsLonely(e: Expr, left: seq<Row>, right: seq<Row>, leftCount: nat, n: nat)
    requires n <= |right|
    ensures Unpicked(right, LoopPicks(e, left, right), leftCount, n) == Lonely(e, left, right[..n], leftCount)
  {
    hide HasPartner, LoopPicks, Picked;
    if n > 0 {
      UnpickedIsLonely(e, left, right, leftCount, n - 1);
      PickedIsPartnered(e, left, right, n - 1);
      assert right[..n][..n - 1] == right[..n - 1] && right[..n][n - 1] == right[n - 1];
    }
  }

  ghost predicate LonelyPass(e: Expr, f: Expr, left: seq<Row>, right: seq<Row>) {
    forall j :: 0 <= j < |right| && !HasPartner(e, left, right[j]) ==> Holds(f, right[j])
  }

  lemma LonelySnoc(e: Expr, f: Expr, left: seq<Row>, right: seq<Row>, r: Row, leftCount: nat)
    ensures Lonely(e, left, right + [r], leftCount)
            == Lonely(e, left, right, leftCount) + if HasPartner(e, left, r) then [] else [Nulls(leftCount) + r]
    ensures LonelyPass(e, f, left, right + [r])
            <==> LonelyPass(e, f, left, right) && (!HasPartner(e, left, r) ==> Holds(f, r))
  {
    hide HasPartner, Holds;
    var all := right + [r];
    assert all[..|right|] == right && all[|right|] == r;
    assert forall j :: 0 <= j < |right| ==> all[j] == right[j];
  }

  lemma {:induction false} LonelyFiltered(e: Expr, f: Expr, left: seq<Row>, right: seq<Row>, leftCount: nat)
    ensures |Lonely(e, left, FilterRows(f, right), leftCount)| <= |Lonely(e, left, right, leftCount)|
    ensures |Lonely(e, left, FilterRows(f, right), leftCount)| == |Lonely(e, left, right, leftCount)|
            <==> LonelyPass(e, f, left, right)
    decreases |right|
  {
    hide HasPartner, Holds, Lonely;
    if right == [] {
      assert FilterRows(f, right) == right;
    } else {
      var front, r := right[..|right| - 1], right[|right| - 1];
      assert right == front + [r];
      LonelyFiltered(e, f, left, front, leftCount);
      LonelySnoc(e, f, left, front, r, leftCount);
      FilterSnoc(f, front, r);
      if Holds(f, r) {
        LonelySnoc(e, f, left, FilterRows(f, front), r, leftCount);
      } else {
        assert FilterRows(f, right) == FilterRows(f, front);
      }
    }
  }

  // ---------------------------------------------------------------- the whole join

  ghost predicate EveryPasses(f: Expr, rows: seq<Row>) {
    forall j :: 0 <= j < |rows| ==> Holds(f, rows[j])
  }

  /** The right rows that matter to the join pass the filter: those with a partner, or for a join that keeps all right
      rows every one. */
  ghost predicate FilterIdle(join: JoinType, e: Expr, f: Expr, left: seq<Row>, right: seq<Row>) {
    if join.INNER? || join.LEFT? then AllPartnersPass(e, f, left, right)
    else EveryPasses(f, right)
  }

  lemma EveryRowPasses(e: Expr, f: Expr, left: seq<Row>, right: seq<Row>)
    ensures EveryPasses(f, right)
            <==> AllPartnersPass(e, f, left, right) && LonelyPass(e, f, left, right)
  {
    hide Match, Holds;
    if AllPartnersPass(e, f, left, right) && LonelyPass(e, f, left, right) {
      forall j | 0 <= j < |right| ensures Holds(f, right[j]) {
        if HasPartner(e, left, right[j]) {
          var i :| 0 <= i < |left| && Match(e, left[i], right[j]);
          assert PartnersPass(e, f, left[i], right);
        }
      }
    }
  }

  /** An equality join has the same rows with and without the filter on its right side if and only if the filter passes
      the right rows that matter to the join type. */
  lemma FilterIdleExactly(join: JoinType, e: Expr, f: Expr, leftCol: nat, rightCol: nat, left: seq<Row>,
                          right: seq<Row>, leftCount: nat, rightCount: nat)
    requires IsEquality(e, leftCol, rightCol) && Wide(right, rightCount)
    ensures var some := FilterRows(f, right);
            JoinRows(join, left, some, LoopPicks(e, left, some), leftCount, rightCount)
            == JoinRows(join, left, right, LoopPicks(e, left, right), leftCount, rightCount)
            <==> FilterIdle(join, e, f, left, right)
  {
    hide *;
    var some := FilterRows(f, right);
    JoinInParts(join, e, left, some, leftCount, rightCount);
    JoinInParts(join, e, left, right, leftCount, rightCount);
    LeftPartFiltered(join, e, f, leftCol, rightCol, left, right, rightCount);
    if join.RIGHT? || join.OUTER? {
      LonelyFiltered(e, f, left, right, leftCount);
      EveryRowPasses(e, f, left, right);
      SameConcat(LeftPart(join, e, left, some, rightCount), Lonely(e, left, some, leftCount),
                 LeftPart(join, e, left, right, rightCount), Lonely(e, left, right, leftCount));
      if EveryPasses(f, right) {
        AllPassSame(f, right);
      }
    }
    IdleMeans(join, e, f, left, right);
  }

  lemma IdleMeans(join: JoinType, e: Expr, f: Expr, left: seq<Row>, right: seq<Row>)
    ensures FilterIdle(join, e, f, left, right)
            <==> if join.RIGHT? || join.OUTER? then EveryPasses(f, right) else AllPartnersPass(e, f, left, right)
  {
  }

  /** The rows of the left side, then the right rows nobody picked if the join keeps them. */
  lemma JoinInParts(join: JoinType, e: Expr, left: seq<Row>, right: seq<Row>, leftCount: nat, rightCount: nat)
    ensures JoinRows(join, left, right, LoopPicks(e, left, right), leftCount, rightCount)
            == if join.RIGHT? || join.OUTER?
               then LeftPart(join, e, left, right, rightCount) + Lonely(e, left, right, leftCount)
               else LeftPart(join, e, left, right, rightCount)
  {
    hide Lonely, LoopPicks, JoinLeft, Unpicked;
    UnpickedIsLonely(e, left, right, leftCount, |right|);
    assert right[..|right|] == right;
    NothingAdded(JoinLeft(join, left, right, LoopPicks(e, left, right), rightCount));
  }

  lemma NothingAdded<T>(a: seq<T>)
    ensures a + [] == a
  {
  }

  lemma {:induction false} AllPassSame(f: Expr, rows: seq<Row>)
    requires EveryPasses(f, rows)
    ensures FilterRows(f, rows) == rows
  {
    hide Holds;
    if rows != [] {
      AllPassSame(f, rows[1..]);
    }
  }
}

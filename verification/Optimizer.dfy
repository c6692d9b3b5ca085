/**
 * The rule-based optimizer: each rule rebuilds the plan bottom-up and rewrites the
 * nodes it recognises.  Every rule is proved to keep the plan's rows, in order, and
 * its column names, and to hand the next rule a plan that meets its conditions.
 */
module Optimizer {
  import opened Common
  import opened Expressions
  import opened Relations
  import opened Plans
  import FilterJoin
  import ScanFilter

  // ---------------------------------------------------------------- rule: merge projection

  /** The projection's i-th expression is the child's i-th column, for all i. */
  predicate Identical(exprs: seq<Expr>) {
    forall i :: 0 <= i < |exprs| ==> exprs[i].Column? && exprs[i].tupleIdx == 0 && exprs[i].colIdx == i
  }

  predicate SameTypes(a: Schema, b: Schema) {
    |a| == |b| && forall i :: 0 <= i < |a| ==> a[i].ty == b[i].ty
  }

  /** The flag loop over the projection's expressions. */
  method IsIdentical(exprs: seq<Expr>) returns (same: bool)
    ensures same <==> Identical(exprs)
  {
    same := true;
    var idx := 0;
    while idx < |exprs|
      invariant 0 <= idx <= |exprs|
      invariant same && Identical(exprs[..idx])
    {
      if exprs[idx].Column? && exprs[idx].tupleIdx == 0 && exprs[idx].colIdx == idx {
        idx := idx + 1;
      } else {
        same := false;
        return;
      }
    }
    assert exprs[..idx] == exprs;
  }

  predicate Removable(p: Plan) {
    p.op.Projection? && |p.children| == 1 && SameTypes(p.children[0].schema, p.schema) && Identical(p.op.exprs)
  }

  function Renamed(p: Plan, schema: Schema): Plan {
    p.(schema := schema)
  }

  function MergeProjection(p: Plan): (r: Plan)
    ensures r.schema == p.schema
    decreases p
  {
    var q := p.(children := seq(|p.children|, i requires 0 <= i < |p.children| => MergeProjection(p.children[i])));
    if Removable(q) then Renamed(q.children[0], q.schema) else q
  }

  // ---------------------------------------------------------------- rule: merge filter into nested-loop join

  /** A constant is cast to a boolean first; an integer, and the null constant is one, refuses the cast. */
  function IsPredicateTrue(e: Expr): Result<bool> {
    if !e.Const? then Ok(false)
    else if e.value.Bool? then Ok(e.value.b)
    else Err("Integer is not coercable to BOOLEAN")
  }

  function Gather(rs: seq<Result<Plan>>): (r: Result<seq<Plan>>)
    ensures r.Ok? <==> forall i :: 0 <= i < |rs| ==> rs[i].Ok?
    ensures r.Ok? ==> |r.value| == |rs| && forall i :: 0 <= i < |rs| ==> r.value[i] == rs[i].value
  {
    if rs == [] then Ok([])
    else if rs[0].Err? then Err(rs[0].reason)
    else
      var rest := Gather(rs[1..]);
      if rest.Err? then rest else Ok([rs[0].value] + rest.value)
  }

  /** The rewrite of one node whose children are already optimized. */
  function MergeFilterNode(q: Plan): Result<Plan> {
    if q.op.Filter? && |q.children| != 1 then Err("Filter with multiple children?? Impossible!")
    else if q.op.Filter? && q.children[0].op.NestedLoopJoin? && |q.children[0].children| != 2
    then Err("NLJ should have exactly 2 children.")
    else if q.op.Filter? && q.children[0].op.NestedLoopJoin? then
      var nlj, isTrue := q.children[0], IsPredicateTrue(q.children[0].op.pred);
      if isTrue.Err? then Err(isTrue.reason)
      else if !isTrue.value then Ok(q)
      else MergeIntoJoin(q)
    else Ok(q)
  }

  /** The filter's predicate becomes the join's; the join keeps its type, whatever it is. */
  function MergeIntoJoin(q: Plan): Result<Plan>
    requires q.op.Filter? && |q.children| == 1
    requires q.children[0].op.NestedLoopJoin? && |q.children[0].children| == 2
  {
    var nlj := q.children[0];
    var pushed := RewriteExpressionForJoin(q.op.pred, |nlj.children[0].schema|, |nlj.children[1].schema|);
    if pushed.Err? then Err(pushed.reason)
    else Ok(Plan(NestedLoopJoin(pushed.value, nlj.op.join), q.schema, nlj.children))
  }

  function MergeFilterNLJ(p: Plan): Result<Plan>
    decreases p
  {
    var kids := Gather(seq(|p.children|, i requires 0 <= i < |p.children| => MergeFilterNLJ(p.children[i])));
    if kids.Err? then Err(kids.reason) else MergeFilterNode(p.(children := kids.value))
  }

  // ---------------------------------------------------------------- rule: nested-loop join as index join

  function FirstMatch(cat: Catalog, oids: seq<nat>, keyAttrs: seq<nat>): Option<nat> {
    if oids == [] then None
    else if oids[0] in cat.indexes && cat.indexes[oids[0]].keyAttrs == keyAttrs then Some(oids[0])
    else FirstMatch(cat, oids[1..], keyAttrs)
  }

  function MatchIndex(cat: Catalog, table: string, keyIdx: nat): Option<nat> {
    FirstMatch(cat, GetTableIndexes(cat, table), [keyIdx])
  }

  /** The equality's left-tuple and right-tuple columns when it compares one with the other. */
  function JoinKeys(e: Expr): Option<(Expr, Expr)> {
    if e.Compare? && e.cmp.Equal? && e.left.Column? && e.right.Column? then
      if e.left.tupleIdx == 0 && e.right.tupleIdx == 1 then Some((e.left, e.right))
      else if e.left.tupleIdx == 1 && e.right.tupleIdx == 0 then Some((e.right, e.left))
      else None
    else None
  }

  /** The column as an expression over its own tuple. */
  function OwnTuple(e: Expr): Expr {
    if e.Column? then Column(0, e.colIdx, e.ty) else e
  }

  function IndexJoinNode(cat: Catalog, q: Plan): Plan {
    if q.op.NestedLoopJoin? && |q.children| == 2 && JoinKeys(q.op.pred).Some? && q.children[1].op.SeqScan? then
      var (l, r) := JoinKeys(q.op.pred).value;
      var scan := q.children[1];
      var index := MatchIndex(cat, scan.op.table, if r.Column? then r.colIdx else 0);
      if index.Some? && index.value in cat.indexes then
        Plan(NestedIndexJoin(OwnTuple(l), scan.op.oid, index.value, cat.indexes[index.value].name, scan.op.table,
                             scan.schema, q.op.join), q.schema, [q.children[0]])
      else q
    else q
  }

  function NLJAsIndexJoin(cat: Catalog, p: Plan): Plan
    decreases p
  {
    IndexJoinNode(cat, p.(children := seq(|p.children|, i requires 0 <= i < |p.children|
                                                     => NLJAsIndexJoin(cat, p.children[i]))))
  }

  // ---------------------------------------------------------------- rule: nested-loop join as hash join

  function HashJoinNode(q: Plan): Plan {
    if q.op.NestedLoopJoin? && |q.children| == 2 && JoinKeys(q.op.pred).Some? then
      var (l, r) := JoinKeys(q.op.pred).value;
      q.(op := HashJoin(OwnTuple(l), OwnTuple(r), q.op.join))
    else q
  }

  function NLJAsHashJoin(p: Plan): Plan
    decreases p
  {
    HashJoinNode(p.(children := seq(|p.children|, i requires 0 <= i < |p.children| => NLJAsHashJoin(p.children[i]))))
  }

  // ---------------------------------------------------------------- rule: order by as index scan

  function FirstNamed(cat: Catalog, oids: seq<nat>, name: string): Option<nat> {
    if oids == [] then None
    else if oids[0] in cat.indexes && |cat.indexes[oids[0]].keyColumns| == 1
         && cat.indexes[oids[0]].keyColumns[0].name == name
    then Some(oids[0])
    else FirstNamed(cat, oids[1..], name)
  }

  function OrderByNode(cat: Catalog, q: Plan): Plan {
    if q.op.Sort? && |q.op.orders| == 1 && (q.op.orders[0].0.ASC? || q.op.orders[0].0.DEFAULT?)
       && q.op.orders[0].1.Column? && |q.children| == 1 && q.children[0].op.SeqScan?
       && q.children[0].op.oid in cat.tables
       && q.op.orders[0].1.colIdx < |cat.tables[q.children[0].op.oid].columns|
    then
      var table := cat.tables[q.children[0].op.oid];
      var index := FirstNamed(cat, GetTableIndexes(cat, table.name), table.columns[q.op.orders[0].1.colIdx].name);
      if index.Some? then Plan(IndexScan(index.value), q.schema, []) else q
    else q
  }

  function OrderByAsIndexScan(cat: Catalog, p: Plan): Plan
    decreases p
  {
    OrderByNode(cat, p.(children := seq(|p.children|, i requires 0 <= i < |p.children|
                                                   => OrderByAsIndexScan(cat, p.children[i]))))
  }

  /** Left to be written in the source: the plan is returned as it is. */
  function SortLimitAsTopN(p: Plan): Plan {
    p
  }

  // ---------------------------------------------------------------- pipelines

  function OptimizeCustom(cat: Catalog, p: Plan): Result<Plan> {
    var merged := MergeFilterNLJ(MergeProjection(p));
    if merged.Err? then merged
    else Ok(SortLimitAsTopN(OrderByAsIndexScan(cat, NLJAsIndexJoin(cat, merged.value))))
  }

  function Optimize(cat: Catalog, forceStarterRule: bool, p: Plan): Result<Plan> {
    if forceStarterRule then
      var p1 := MergeProjection(p);
      var p2 := MergeFilterNLJ(p1);
      if p2.Err? then p2
      else
        var p3 := NLJAsIndexJoin(cat, p2.value);
        var p4 := OrderByAsIndexScan(cat, p3);
        Ok(SortLimitAsTopN(p4))
    else OptimizeCustom(cat, p)
  }

  // ---------------------------------------------------------------- conditions on planner output

  /** No sequential scan carries a filter. */
  ghost predicate Unfiltered(p: Plan) {
    && !(p.op.SeqScan? && p.op.filter.Some?)
    && forall i :: 0 <= i < |p.children| ==> Unfiltered(p.children[i])
  }

  /** The node below any projections the first rule removes. */
  function Peel(p: Plan): Plan
    decreases p
  {
    if Removable(p) then Peel(p.children[0]) else p
  }

  predicate TrueJoin(op: Op) {
    op.NestedLoopJoin? && op.pred == Const(Bool(true))
  }

  predicate InnerIfTrue(op: Op) {
    TrueJoin(op) ==> op.join.INNER?
  }

  /** A constant-true join under a filter is an inner join. */
  ghost predicate Plannable(p: Plan) {
    && (p.op.Filter? && |p.children| == 1 ==> InnerIfTrue(Peel(p.children[0]).op))
    && forall i :: 0 <= i < |p.children| ==> Plannable(p.children[i])
  }

  /** The constant predicate of the join that merging leaves in the node's place, if it is one. */
  function ConstantJoin(p: Plan): Option<Value>
    decreases p
  {
    if p.op.NestedLoopJoin? && p.op.pred.Const? then Some(p.op.pred.value)
    else if p.op.Filter? && |p.children| == 1 && ConstantJoin(p.children[0]) == Some(Bool(true)) && p.op.pred.Const?
    then Some(p.op.pred.value)
    else None
  }

  /** A filter above a join whose constant predicate is not a boolean: the cast throws. */
  predicate CastThrows(p: Plan) {
    && p.op.Filter? && |p.children| == 1
    && ConstantJoin(p.children[0]).Some? && !ConstantJoin(p.children[0]).value.Bool?
  }

  /** No node of the plan is of the given kind. */
  ghost predicate Nowhere(p: Plan, kind: Plan -> bool) {
    !kind(p) && forall i :: 0 <= i < |p.children| ==> Nowhere(p.children[i], kind)
  }

  // ---------------------------------------------------------------- replacing children

  /** `kids` can stand for the children of `p`: same rows, same column counts, well-formed. */
  ghost predicate Stand(cat: Catalog, p: Plan, kids: seq<Plan>) {
    |kids| == |p.children| && forall i :: 0 <= i < |kids| ==> StandsFor(cat, p.children[i], kids[i])
  }

  ghost predicate StandsFor(cat: Catalog, p: Plan, q: Plan) {
    WellFormed(cat, q) && Rows(cat, q) == Rows(cat, p) && q.schema == p.schema
  }

  lemma Congruent(cat: Catalog, p: Plan, kids: seq<Plan>)
    requires WellFormed(cat, p) && Stand(cat, p, kids)
    ensures StandsFor(cat, p, p.(children := kids))
  {
    var q := p.(children := kids);
    assert Counts(kids) == Counts(p.children) by {
      forall i | 0 <= i < |kids| ensures Counts(kids)[i] == Counts(p.children)[i] {
        assert StandsFor(cat, p.children[i], kids[i]);
      }
    }
    assert KidRows(cat, q) == KidRows(cat, p) by {
      forall i | 0 <= i < |kids| ensures KidRows(cat, q)[i] == KidRows(cat, p)[i] {
        assert StandsFor(cat, p.children[i], kids[i]);
      }
    }
    forall i | 0 <= i < |kids| ensures WellFormed(cat, kids[i]) {
      assert StandsFor(cat, p.children[i], kids[i]);
    }
  }

  // ---------------------------------------------------------------- merge projection keeps the rows

  lemma IdenticalRows(exprs: seq<Expr>, rows: seq<Row>)
    requires Identical(exprs) && Wide(rows, |exprs|)
    ensures MapRows(exprs, rows) == rows
  {
    forall i | 0 <= i < |rows| ensures EvalAll(exprs, rows[i]) == rows[i] {
      assert |rows[i]| == |exprs|;
    }
  }

  lemma RenamedOk(cat: Catalog, p: Plan, schema: Schema)
    requires WellFormed(cat, p) && |schema| == |p.schema|
    ensures WellFormed(cat, Renamed(p, schema)) && Rows(cat, Renamed(p, schema)) == Rows(cat, p)
  {
    assert KidRows(cat, Renamed(p, schema)) == KidRows(cat, p);
  }

  lemma RemoveProjection(cat: Catalog, q: Plan)
    requires CatalogOk(cat) && WellFormed(cat, q) && Removable(q)
    ensures StandsFor(cat, q, Renamed(q.children[0], q.schema))
  {
    var child := q.children[0];
    RowsMatchSchema(cat, child);
    IdenticalRows(q.op.exprs, Rows(cat, child));
    RenamedOk(cat, child, q.schema);
    assert KidRows(cat, q)[0] == Rows(cat, child);
  }

  /** Only the column itself has the column's value on every row. */
  lemma IsTheColumn(e: Expr, n: nat, i: nat)
    requires i < n && Fits(e, n)
    requires forall row: Row :: |row| == n ==> Eval(e, row) == row[i]
    ensures e.Column? && e.tupleIdx == 0 && e.colIdx == i
  {
    var numbers: Row := seq(n, j => Int(j));
    var truths: Row := seq(n, _ => Bool(true));
    assert Eval(e, numbers) == Int(i);
    assert Eval(e, truths) == Bool(true);
  }

  /** The rule removes exactly the projections that keep their child's column types and change no row. */
  lemma RemovableExactly(p: Plan)
    requires p.op.Projection? && |p.children| == 1 && |p.op.exprs| == |p.schema|
    requires AllFit(p.op.exprs, |p.children[0].schema|)
    ensures Removable(p)
            <==> && SameTypes(p.children[0].schema, p.schema)
                 && forall row: Row :: |row| == |p.schema| ==> EvalAll(p.op.exprs, row) == row
  {
    var exprs, n := p.op.exprs, |p.schema|;
    if SameTypes(p.children[0].schema, p.schema) && forall row: Row :: |row| == n ==> EvalAll(exprs, row) == row {
      forall i | 0 <= i < n ensures exprs[i].Column? && exprs[i].tupleIdx == 0 && exprs[i].colIdx == i {
        forall row: Row | |row| == n ensures Eval(exprs[i], row) == row[i] {
          assert EvalAll(exprs, row)[i] == row[i];
        }
        IsTheColumn(exprs[i], n, i);
      }
    }
  }

  lemma {:induction false} MergeProjectionKeeps(cat: Catalog, p: Plan)
    requires CatalogOk(cat) && WellFormed(cat, p)
    ensures StandsFor(cat, p, MergeProjection(p))
    decreases p
  {
    var kids := seq(|p.children|, i requires 0 <= i < |p.children| => MergeProjection(p.children[i]));
    forall i | 0 <= i < |p.children| ensures StandsFor(cat, p.children[i], kids[i]) {
      MergeProjectionKeeps(cat, p.children[i]);
    }
    Congruent(cat, p, kids);
    var q := p.(children := kids);
    if Removable(q) {
      RemoveProjection(cat, q);
    }
  }

  // ---------------------------------------------------------------- merge projection keeps the conditions

  lemma RemovableKids(p: Plan, kids: seq<Plan>)
    requires |kids| == |p.children| && forall i :: 0 <= i < |kids| ==> kids[i].schema == p.children[i].schema
    ensures Removable(p.(children := kids)) <==> Removable(p)
  {
  }

  /** The rule's result has the operator found below the removable projections, and cannot be peeled again. */
  lemma {:induction false} MergedIsPeeled(p: Plan)
    ensures MergeProjection(p).op == Peel(p).op
    ensures !Removable(MergeProjection(p))
    decreases p
  {
    var kids := seq(|p.children|, i requires 0 <= i < |p.children| => MergeProjection(p.children[i]));
    RemovableKids(p, kids);
    if Removable(p) {
      MergedIsPeeled(p.children[0]);
    }
  }

  lemma {:induction false} MergeProjectionConditions(p: Plan)
    ensures Unfiltered(p) ==> Unfiltered(MergeProjection(p))
    ensures Plannable(p) ==> Plannable(MergeProjection(p))
    decreases p
  {
    var kids := seq(|p.children|, i requires 0 <= i < |p.children| => MergeProjection(p.children[i]));
    var q := p.(children := kids);
    RemovableKids(p, kids);
    forall i | 0 <= i < |p.children|
      ensures Unfiltered(p.children[i]) ==> Unfiltered(kids[i])
      ensures Plannable(p.children[i]) ==> Plannable(kids[i])
    {
      MergeProjectionConditions(p.children[i]);
    }
    if p.op.Filter? && |p.children| == 1 {
      MergedIsPeeled(p.children[0]);
    }
    if Removable(q) {
      RenamedConditions(kids[0], q.schema);
    }
  }

  lemma RenamedConditions(p: Plan, schema: Schema)
    ensures Unfiltered(p) ==> Unfiltered(Renamed(p, schema))
    ensures Plannable(p) ==> Plannable(Renamed(p, schema))
  {
  }

  // ---------------------------------------------------------------- merging a filter keeps the rows

  lemma InnerRows(left: seq<Row>, right: seq<Row>, pred: Expr, leftCount: nat, rightCount: nat)
    ensures LoopJoinRows(pred, INNER, left, right, leftCount, rightCount)
            == JoinLeft(INNER, left, right, LoopPicks(pred, left, right), rightCount)
  {
  }

  /** The columns of the filter over a well-formed join are in range, so the rewrite never fails. */
  lemma RewriteInRange(cat: Catalog, q: Plan)
    requires WellFormed(cat, q) && q.op.Filter? && q.children[0].op.NestedLoopJoin?
    ensures var nlj := q.children[0];
            && |nlj.children| == 2
            && RewriteExpressionForJoin(q.op.pred, |nlj.children[0].schema|, |nlj.children[1].schema|).Ok?
  {
    var nlj := q.children[0];
    RewriteSucceedsExactly(q.op.pred, |nlj.children[0].schema|, |nlj.children[1].schema|);
  }

  lemma JoinNodeRows(cat: Catalog, p: Plan)
    requires p.op.NestedLoopJoin? && |p.children| == 2
    ensures Rows(cat, p) == LoopJoinRows(p.op.pred, p.op.join, Rows(cat, p.children[0]), Rows(cat, p.children[1]),
                                         |p.children[0].schema|, |p.children[1].schema|)
  {
  }

  lemma FilterNodeRows(cat: Catalog, p: Plan)
    requires p.op.Filter? && |p.children| == 1
    ensures Rows(cat, p) == FilterRows(p.op.pred, Rows(cat, p.children[0]))
  {
  }

  /** `q` is well-formed and has the columns of `p`. */
  ghost predicate SameShape(cat: Catalog, p: Plan, q: Plan) {
    WellFormed(cat, q) && q.schema == p.schema
  }

  lemma ShapedKids(cat: Catalog, p: Plan, kids: seq<Plan>)
    requires WellFormed(cat, p) && |kids| == |p.children|
    requires forall i :: 0 <= i < |kids| ==> SameShape(cat, p.children[i], kids[i])
    ensures WellFormed(cat, p.(children := kids))
  {
    hide NodeOk;
    assert Counts(kids) == Counts(p.children) by {
      forall i | 0 <= i < |kids| ensures Counts(kids)[i] == Counts(p.children)[i] {
        assert SameShape(cat, p.children[i], kids[i]);
      }
    }
    forall i | 0 <= i < |kids| ensures WellFormed(cat, kids[i]) {
      assert SameShape(cat, p.children[i], kids[i]);
    }
  }

  lemma MergeIntoJoinShape(cat: Catalog, q: Plan)
    requires WellFormed(cat, q) && q.op.Filter? && q.children[0].op.NestedLoopJoin?
    ensures |q.children[0].children| == 2
    ensures MergeIntoJoin(q).Ok? && SameShape(cat, q, MergeIntoJoin(q).value)
  {
    var nlj := q.children[0];
    RewriteInRange(cat, q);
    RewrittenFitsJoin(q.op.pred, |nlj.children[0].schema|, |nlj.children[1].schema|);
    assert Counts(MergeIntoJoin(q).value.children) == Counts(nlj.children);
  }

  /** The constant predicate of a node that is a join. */
  function OwnConstant(op: Op): Option<Value> {
    if op.NestedLoopJoin? && op.pred.Const? then Some(op.pred.value) else None
  }

  lemma ConstantPushed(q: Plan)
    requires q.op.Filter? && |q.children| == 1
    requires q.children[0].op.NestedLoopJoin? && |q.children[0].children| == 2 && MergeIntoJoin(q).Ok?
    ensures OwnConstant(MergeIntoJoin(q).value.op) == if q.op.pred.Const? then Some(q.op.pred.value) else None
  {
  }

  /** One node whose children are done: the only exception left is the cast of a constant that is no boolean. */
  lemma MergeFilterNodeShape(cat: Catalog, q: Plan)
    requires WellFormed(cat, q)
    ensures MergeFilterNode(q).Ok?
            <==> !(q.op.Filter? && OwnConstant(q.children[0].op).Some? && !OwnConstant(q.children[0].op).value.Bool?)
    ensures MergeFilterNode(q).Ok? ==> SameShape(cat, q, MergeFilterNode(q).value)
    ensures MergeFilterNode(q).Ok? ==>
              OwnConstant(MergeFilterNode(q).value.op)
              == if q.op.Filter? && OwnConstant(q.children[0].op) == Some(Bool(true)) && q.op.pred.Const?
                 then Some(q.op.pred.value)
                 else OwnConstant(q.op)
  {
    if q.op.Filter? && q.children[0].op.NestedLoopJoin? {
      MergeIntoJoinShape(cat, q);
      ConstantPushed(q);
    }
    hide MergeIntoJoin, NodeOk;
  }

  /** The rule succeeds exactly when no filter sits above a join, merged or not, whose constant predicate is not a
      boolean; the result is well-formed and has the same columns, whatever the join types. */
  lemma {:induction false} MergeFilterSucceedsExactly(cat: Catalog, p: Plan)
    requires WellFormed(cat, p)
    ensures MergeFilterNLJ(p).Ok? <==> Nowhere(p, CastThrows)
    ensures MergeFilterNLJ(p).Ok? ==> SameShape(cat, p, MergeFilterNLJ(p).value)
    ensures MergeFilterNLJ(p).Ok? ==> OwnConstant(MergeFilterNLJ(p).value.op) == ConstantJoin(p)
    decreases p
  {
    var rs := seq(|p.children|, i requires 0 <= i < |p.children| => MergeFilterNLJ(p.children[i]));
    forall i | 0 <= i < |p.children|
      ensures rs[i].Ok? <==> Nowhere(p.children[i], CastThrows)
      ensures rs[i].Ok? ==> SameShape(cat, p.children[i], rs[i].value)
      ensures rs[i].Ok? ==> OwnConstant(rs[i].value.op) == ConstantJoin(p.children[i])
    {
      MergeFilterSucceedsExactly(cat, p.children[i]);
    }
    hide MergeFilterNode, OwnConstant, SameShape;
    if forall i :: 0 <= i < |rs| ==> rs[i].Ok? {
      var q := p.(children := Gather(rs).value);
      ShapedKids(cat, p, q.children);
      MergeFilterNodeShape(cat, q);
      OwnConstantOf(p);
    }
  }

  lemma OwnConstantOf(p: Plan)
    ensures OwnConstant(p.op) == if p.op.NestedLoopJoin? && p.op.pred.Const? then Some(p.op.pred.value) else None
  {
  }

  lemma MergeTrueJoin(cat: Catalog, q: Plan)
    requires CatalogOk(cat) && WellFormed(cat, q) && q.op.Filter?
    requires q.children[0].op == NestedLoopJoin(Const(Bool(true)), INNER)
    ensures MergeFilterNode(q).Ok? && StandsFor(cat, q, MergeFilterNode(q).value)
  {
    MergeIntoJoinShape(cat, q);
    MergeNodeExactly(cat, q);
  }

  /** A constant-true join of any type under a filter: the rewritten node makes the same rows if and only if the
      merge is safe for that type. */
  lemma MergeNodeExactly(cat: Catalog, q: Plan)
    requires CatalogOk(cat) && WellFormed(cat, q) && q.op.Filter? && TrueJoin(q.children[0].op)
    ensures MergeFilterNode(q).Ok?
    ensures var nlj := q.children[0];
            var l, r := nlj.children[0], nlj.children[1];
            Rows(cat, MergeFilterNode(q).value) == Rows(cat, q)
            <==> FilterJoin.MergeIsSafe(nlj.op.join, q.op.pred, Rows(cat, l), Rows(cat, r), |l.schema|, |r.schema|)
  {
    var nlj := q.children[0];
    var l, r := nlj.children[0], nlj.children[1];
    RewriteInRange(cat, q);
    var merged := MergeFilterNode(q).value;
    RowsMatchSchema(cat, l);
    RowsMatchSchema(cat, r);
    FilterNodeRows(cat, q);
    JoinNodeRows(cat, nlj);
    JoinNodeRows(cat, merged);
    hide FilterJoin.MergeIsSafe, JoinRows, FilterRows, OpRows;
    FilterJoin.MergeExactly(nlj.op.join, q.op.pred, Rows(cat, l), Rows(cat, r), |l.schema|, |r.schema|);
  }

  /** One merged node: same rows, same schema, well-formed. */
  lemma MergeFilterNodeKeeps(cat: Catalog, q: Plan)
    requires CatalogOk(cat) && WellFormed(cat, q) && MergeFilterNode(q).Ok?
    requires q.op.Filter? ==> InnerIfTrue(q.children[0].op)
    ensures StandsFor(cat, q, MergeFilterNode(q).value)
  {
    if q.op.Filter? && TrueJoin(q.children[0].op) {
      MergeTrueJoin(cat, q);
    }
  }

  /** What the parent filter needs to know of an optimized child. */
  lemma MergedNodeInner(q: Plan)
    requires MergeFilterNode(q).Ok?
    requires q.op.Filter? ==> |q.children| == 1 && InnerIfTrue(q.children[0].op)
    requires !q.op.Filter? ==> InnerIfTrue(q.op)
    ensures InnerIfTrue(MergeFilterNode(q).value.op)
  {
  }

  /** At any depth: if the rule does not throw, its result has the same rows, schema and shape. */
  lemma {:induction false} MergeFilterKeeps(cat: Catalog, p: Plan)
    requires CatalogOk(cat) && WellFormed(cat, p) && Plannable(p) && MergeFilterNLJ(p).Ok?
    ensures var r := MergeFilterNLJ(p).value;
            StandsFor(cat, p, r) && (InnerIfTrue(Peel(p).op) ==> InnerIfTrue(r.op))
    decreases p
  {
    var rs := seq(|p.children|, i requires 0 <= i < |p.children| => MergeFilterNLJ(p.children[i]));
    forall i | 0 <= i < |p.children|
      ensures StandsFor(cat, p.children[i], rs[i].value)
      ensures InnerIfTrue(Peel(p.children[i]).op) ==> InnerIfTrue(rs[i].value.op)
    {
      MergeFilterKeeps(cat, p.children[i]);
    }
    var kids := Gather(rs).value;
    Congruent(cat, p, kids);
    var q := p.(children := kids);
    MergeFilterNodeKeeps(cat, q);
    if p.op.Filter? || InnerIfTrue(p.op) {
      MergedNodeInner(q);
    }
  }

  lemma {:induction false} MergeFilterUnfiltered(p: Plan)
    requires Unfiltered(p) && MergeFilterNLJ(p).Ok?
    ensures Unfiltered(MergeFilterNLJ(p).value)
    decreases p
  {
    var rs := seq(|p.children|, i requires 0 <= i < |p.children| => MergeFilterNLJ(p.children[i]));
    forall i | 0 <= i < |p.children| ensures Unfiltered(rs[i].value) {
      MergeFilterUnfiltered(p.children[i]);
    }
    var q := p.(children := Gather(rs).value);
    assert Unfiltered(q);
  }

  // ---------------------------------------------------------------- joins by index and by hash keep the rows

  lemma JoinKeysEquality(e: Expr, leftCount: nat, rightCount: nat)
    requires JoinKeys(e).Some? && FitsJoin(e, leftCount, rightCount)
    ensures var (l, r) := JoinKeys(e).value;
            && l.Column? && r.Column? && IsEquality(e, l.colIdx, r.colIdx)
            && Fits(OwnTuple(l), leftCount) && Fits(OwnTuple(r), rightCount)
  {
  }

  /** Every equality between a column of one side and one of the other is recognised, in either operand order. */
  lemma JoinKeysExactly(e: Expr)
    ensures JoinKeys(e).Some? <==> exists l: nat, r: nat :: IsEquality(e, l, r)
    ensures forall l: nat, r: nat :: IsEquality(e, l, r)
              ==> JoinKeys(e).value.0.colIdx == l && JoinKeys(e).value.1.colIdx == r
  {
    if JoinKeys(e).Some? {
      assert IsEquality(e, JoinKeys(e).value.0.colIdx, JoinKeys(e).value.1.colIdx);
    }
  }

  lemma {:induction false} FirstMatchFound(cat: Catalog, oids: seq<nat>, keyAttrs: seq<nat>)
    ensures var m := FirstMatch(cat, oids, keyAttrs);
            m.Some? ==> m.value in oids && m.value in cat.indexes && cat.indexes[m.value].keyAttrs == keyAttrs
    ensures FirstMatch(cat, oids, keyAttrs).None?
            <==> forall oid :: oid in oids && oid in cat.indexes ==> cat.indexes[oid].keyAttrs != keyAttrs
  {
    if oids != [] {
      FirstMatchFound(cat, oids[1..], keyAttrs);
      assert oids == [oids[0]] + oids[1..];
    }
  }

  /** A matched index belongs to the scanned table and lists it by the join column. */
  lemma MatchedIndexLists(cat: Catalog, oid: nat, col: nat)
    requires CatalogOk(cat) && oid in cat.tables
    ensures var t := cat.tables[oid];
            var m := MatchIndex(cat, t.name, col);
            m.Some? ==>
              && m.value in cat.indexes && cat.indexes[m.value].table == t.name
              && KeyColumn(cat.indexes[m.value]) == col
              && Keyed(t.rows, col) && Lists(t.rows, col, cat.indexes[m.value].listing)
  {
    var t := cat.tables[oid];
    assert TableOk(cat, oid);
    var oids := GetTableIndexes(cat, t.name);
    FirstMatchFound(cat, oids, [col]);
    var m := MatchIndex(cat, t.name, col);
    if m.Some? {
      var i :| 0 <= i < |oids| && oids[i] == m.value;
      assert Listed(cat, t.name, oids[i]);
      assert IndexOk(cat, cat.indexes[m.value]);
    }
  }

  /** Loop join and index join on the same column make the same rows, for every join type. */
  lemma IndexJoinSameRows(cat: Catalog, pred: Expr, join: JoinType, left: seq<Row>, oid: nat, leftCount: nat,
                          rightCount: nat)
    requires CatalogOk(cat) && oid in cat.tables && JoinKeys(pred).Some? && FitsJoin(pred, leftCount, rightCount)
    requires JoinKeys(pred).value.1.Column?
    ensures var (l, r) := JoinKeys(pred).value;
            var m := MatchIndex(cat, cat.tables[oid].name, r.colIdx);
            m.Some? ==> IndexJoinRows(cat, OwnTuple(l), oid, m.value, join, left, leftCount, rightCount)
                        == LoopJoinRows(pred, join, left, cat.tables[oid].rows, leftCount, rightCount)
  {
    var (l, r) := JoinKeys(pred).value;
    var t := cat.tables[oid];
    var m := MatchIndex(cat, t.name, r.colIdx);
    JoinKeysEquality(pred, leftCount, rightCount);
    MatchedIndexLists(cat, oid, r.colIdx);
    if m.Some? {
      IndexPicksAreLoopPicks(pred, l.colIdx, r.colIdx, l.ty, left, t.rows, cat.indexes[m.value].listing);
    }
  }

  lemma ScanRows(cat: Catalog, p: Plan)
    requires WellFormed(cat, p) && p.op.SeqScan? && Unfiltered(p)
    ensures Rows(cat, p) == cat.tables[p.op.oid].rows
  {
  }

  lemma IndexJoinPlanRows(cat: Catalog, p: Plan)
    requires p.op.NestedIndexJoin? && |p.children| == 1
    ensures Rows(cat, p) == IndexJoinRows(cat, p.op.key, p.op.oid, p.op.index, p.op.join, Rows(cat, p.children[0]),
                                          |p.children[0].schema|, |p.op.inner|)
  {
  }

  lemma IndexJoinNodeOk(cat: Catalog, q: Plan)
    requires CatalogOk(cat) && WellFormed(cat, q) && IndexJoinNode(cat, q) != q
    ensures WellFormed(cat, IndexJoinNode(cat, q))
  {
    var scan, left := q.children[1], q.children[0];
    JoinKeysEquality(q.op.pred, |left.schema|, |scan.schema|);
    MatchedIndexLists(cat, scan.op.oid, JoinKeys(q.op.pred).value.1.colIdx);
    assert Counts(IndexJoinNode(cat, q).children)[0] == |left.schema|;
  }

  /** The rewritten join names an index of the scanned table on exactly the join column, and reads that table. */
  lemma IndexJoinNodeNames(cat: Catalog, q: Plan)
    requires CatalogOk(cat) && WellFormed(cat, q) && IndexJoinNode(cat, q) != q
    ensures var join, scan := IndexJoinNode(cat, q).op, q.children[1].op;
            && join.index in GetTableIndexes(cat, scan.table) && join.index in cat.indexes
            && cat.indexes[join.index].keyAttrs == [JoinKeys(q.op.pred).value.1.colIdx]
            && join.indexName == cat.indexes[join.index].name
            && join.table == scan.table == cat.indexes[join.index].table && join.oid == scan.oid
            && join.inner == q.children[1].schema && join.join == q.op.join
  {
    var scan := q.children[1];
    JoinKeysEquality(q.op.pred, |q.children[0].schema|, |scan.schema|);
    var col := JoinKeys(q.op.pred).value.1.colIdx;
    MatchedIndexLists(cat, scan.op.oid, col);
    FirstMatchFound(cat, GetTableIndexes(cat, scan.op.table), [col]);
  }

  lemma IndexJoinNodeKeeps(cat: Catalog, q: Plan)
    requires CatalogOk(cat) && WellFormed(cat, q) && Unfiltered(q)
    ensures StandsFor(cat, q, IndexJoinNode(cat, q)) && Unfiltered(IndexJoinNode(cat, q))
  {
    var r := IndexJoinNode(cat, q);
    if r != q {
      var scan, left := q.children[1], q.children[0];
      IndexJoinNodeOk(cat, q);
      JoinKeysEquality(q.op.pred, |left.schema|, |scan.schema|);
      ScanRows(cat, scan);
      JoinNodeRows(cat, q);
      IndexJoinPlanRows(cat, r);
      hide OpRows, IndexJoinRows, LoopJoinRows, JoinKeys, MatchIndex;
      IndexJoinSameRows(cat, q.op.pred, q.op.join, Rows(cat, left), scan.op.oid, |left.schema|, |scan.schema|);
    }
  }

  /** Index join rule, at any depth and for every join type. */
  lemma {:induction false} IndexJoinKeeps(cat: Catalog, p: Plan)
    requires CatalogOk(cat) && WellFormed(cat, p) && Unfiltered(p)
    ensures StandsFor(cat, p, NLJAsIndexJoin(cat, p)) && Unfiltered(NLJAsIndexJoin(cat, p))
    decreases p
  {
    var kids := seq(|p.children|, i requires 0 <= i < |p.children| => NLJAsIndexJoin(cat, p.children[i]));
    forall i | 0 <= i < |p.children| ensures StandsFor(cat, p.children[i], kids[i]) && Unfiltered(kids[i]) {
      IndexJoinKeeps(cat, p.children[i]);
    }
    Congruent(cat, p, kids);
    IndexJoinNodeKeeps(cat, p.(children := kids));
  }

  lemma HashJoinPlanRows(cat: Catalog, p: Plan)
    requires p.op.HashJoin? && |p.children| == 2
    ensures Rows(cat, p) == HashJoinRows(p.op.leftKey, p.op.rightKey, p.op.join, Rows(cat, p.children[0]),
                                         Rows(cat, p.children[1]), |p.children[0].schema|, |p.children[1].schema|)
  {
  }

  lemma {:induction false} HashJoinNodeKeeps(cat: Catalog, q: Plan)
    requires CatalogOk(cat) && WellFormed(cat, q)
    ensures StandsFor(cat, q, HashJoinNode(q))
  {
    var h := HashJoinNode(q);
    if h != q {
      var left, right := q.children[0], q.children[1];
      var (l, r) := JoinKeys(q.op.pred).value;
      JoinKeysEquality(q.op.pred, |left.schema|, |right.schema|);
      assert WellFormed(cat, h);
      JoinNodeRows(cat, q);
      HashJoinPlanRows(cat, h);
      hide OpRows, JoinRows, HashPicks, LoopPicks;
      HashPicksAreLoopPicks(q.op.pred, l.colIdx, r.colIdx, l.ty, r.ty, Rows(cat, left), Rows(cat, right));
    }
  }

  /** Hash join rule, at any depth and for every join type. */
  lemma {:induction false} HashJoinKeeps(cat: Catalog, p: Plan)
    requires CatalogOk(cat) && WellFormed(cat, p)
    ensures StandsFor(cat, p, NLJAsHashJoin(p))
    decreases p
  {
    var kids := seq(|p.children|, i requires 0 <= i < |p.children| => NLJAsHashJoin(p.children[i]));
    forall i | 0 <= i < |p.children| ensures StandsFor(cat, p.children[i], kids[i]) {
      HashJoinKeeps(cat, p.children[i]);
    }
    Congruent(cat, p, kids);
    HashJoinNodeKeeps(cat, p.(children := kids));
  }

  // ---------------------------------------------------------------- order by as index scan keeps the order

  lemma {:induction false} FirstNamedFound(cat: Catalog, oids: seq<nat>, name: string)
    ensures var m := FirstNamed(cat, oids, name);
            m.Some? ==> && m.value in oids && m.value in cat.indexes && |cat.indexes[m.value].keyColumns| == 1
                        && cat.indexes[m.value].keyColumns[0].name == name
    ensures FirstNamed(cat, oids, name).None?
            <==> forall oid :: oid in oids && oid in cat.indexes && |cat.indexes[oid].keyColumns| == 1
                   ==> cat.indexes[oid].keyColumns[0].name != name
  {
    if oids != [] {
      FirstNamedFound(cat, oids[1..], name);
      assert oids == [oids[0]] + oids[1..];
    }
  }

  /** An index found by column name lists its table by that very column. */
  lemma NamedIndexLists(cat: Catalog, oid: nat, col: nat)
    requires CatalogOk(cat) && oid in cat.tables && col < |cat.tables[oid].columns|
    ensures var t := cat.tables[oid];
            var m := FirstNamed(cat, GetTableIndexes(cat, t.name), t.columns[col].name);
            m.Some? ==>
              && m.value in cat.indexes && cat.indexes[m.value].table == t.name
              && cat.oids[t.name] == oid
              && Keyed(t.rows, col) && Lists(t.rows, col, cat.indexes[m.value].listing)
  {
    var t := cat.tables[oid];
    assert TableOk(cat, oid);
    var oids := GetTableIndexes(cat, t.name);
    FirstNamedFound(cat, oids, t.columns[col].name);
    var m := FirstNamed(cat, oids, t.columns[col].name);
    if m.Some? {
      var i :| 0 <= i < |oids| && oids[i] == m.value;
      assert Listed(cat, t.name, oids[i]);
      assert IndexOk(cat, cat.indexes[m.value]);
      assert cat.indexes[m.value].keyAttrs[0] == col;
    }
  }

  lemma OrderByNodeKeeps(cat: Catalog, q: Plan)
    requires CatalogOk(cat) && WellFormed(cat, q) && Unfiltered(q)
    ensures StandsFor(cat, q, OrderByNode(cat, q)) && Unfiltered(OrderByNode(cat, q))
  {
    var r := OrderByNode(cat, q);
    if r != q {
      var scan, order, e := q.children[0], q.op.orders[0].0, q.op.orders[0].1;
      assert Fits(e, |q.schema|);
      var t := cat.tables[scan.op.oid];
      NamedIndexLists(cat, scan.op.oid, e.colIdx);
      SortIsListing(order, e.colIdx, e.ty, t.rows, cat.indexes[r.op.index].listing);
      assert q.op.orders == ByColumn(order, e.colIdx, e.ty);
      ScanRows(cat, scan);
      assert KidRows(cat, q)[0] == Rows(cat, scan);
    }
  }

  /** Order-by rule, at any depth: the index scan makes the sorted rows in the sorted order. */
  lemma {:induction false} OrderByKeeps(cat: Catalog, p: Plan)
    requires CatalogOk(cat) && WellFormed(cat, p) && Unfiltered(p)
    ensures StandsFor(cat, p, OrderByAsIndexScan(cat, p)) && Unfiltered(OrderByAsIndexScan(cat, p))
    decreases p
  {
    var kids := seq(|p.children|, i requires 0 <= i < |p.children| => OrderByAsIndexScan(cat, p.children[i]));
    forall i | 0 <= i < |p.children| ensures StandsFor(cat, p.children[i], kids[i]) && Unfiltered(kids[i]) {
      OrderByKeeps(cat, p.children[i]);
    }
    Congruent(cat, p, kids);
    OrderByNodeKeeps(cat, p.(children := kids));
  }

  // ---------------------------------------------------------------- each rule leaves nothing to do

  /** After merging projections no removable projection is left anywhere. */
  lemma {:induction false} MergeProjectionComplete(p: Plan)
    ensures Nowhere(MergeProjection(p), Removable)
    decreases p
  {
    forall i | 0 <= i < |p.children| ensures Nowhere(MergeProjection(p.children[i]), Removable) {
      MergeProjectionComplete(p.children[i]);
    }
    MergedIsPeeled(p);
  }

  /** A filter right above a constant-true join. */
  predicate FilterOverTrueJoin(p: Plan) {
    p.op.Filter? && |p.children| == 1 && TrueJoin(p.children[0].op)
  }

  lemma MergeFilterNodeComplete(q: Plan)
    requires MergeFilterNode(q).Ok?
    requires forall i :: 0 <= i < |q.children| ==> Nowhere(q.children[i], FilterOverTrueJoin)
    ensures Nowhere(MergeFilterNode(q).value, FilterOverTrueJoin)
  {
    hide RewriteExpressionForJoin;
  }

  /** After merging filters no filter is left above a constant-true join, at any depth. */
  lemma {:induction false} MergeFilterComplete(p: Plan)
    requires MergeFilterNLJ(p).Ok?
    ensures Nowhere(MergeFilterNLJ(p).value, FilterOverTrueJoin)
    decreases p
  {
    var rs := seq(|p.children|, i requires 0 <= i < |p.children| => MergeFilterNLJ(p.children[i]));
    forall i | 0 <= i < |p.children| ensures Nowhere(rs[i].value, FilterOverTrueJoin) {
      MergeFilterComplete(p.children[i]);
    }
    MergeFilterNodeComplete(p.(children := Gather(rs).value));
  }

  /** The table has an index on exactly this column. */
  ghost predicate HasIndexOn(cat: Catalog, table: string, col: nat) {
    exists oid :: oid in GetTableIndexes(cat, table) && oid in cat.indexes && cat.indexes[oid].keyAttrs == [col]
  }

  /** A column-equality join whose right side is a scan of a table indexed on the right column. */
  ghost predicate IndexableJoin(cat: Catalog, p: Plan) {
    && p.op.NestedLoopJoin? && |p.children| == 2 && p.children[1].op.SeqScan?
    && JoinKeys(p.op.pred).Some? && JoinKeys(p.op.pred).value.1.Column?
    && HasIndexOn(cat, p.children[1].op.table, JoinKeys(p.op.pred).value.1.colIdx)
  }

  lemma IndexJoinNodeComplete(cat: Catalog, q: Plan)
    requires forall i :: 0 <= i < |q.children| ==> Nowhere(q.children[i], n => IndexableJoin(cat, n))
    ensures Nowhere(IndexJoinNode(cat, q), n => IndexableJoin(cat, n))
  {
    if IndexableJoin(cat, q) {
      FirstMatchFound(cat, GetTableIndexes(cat, q.children[1].op.table), [JoinKeys(q.op.pred).value.1.colIdx]);
    }
  }

  /** After the index join rule no such join is left, at any depth. */
  lemma {:induction false} IndexJoinComplete(cat: Catalog, p: Plan)
    ensures Nowhere(NLJAsIndexJoin(cat, p), n => IndexableJoin(cat, n))
    decreases p
  {
    var kids := seq(|p.children|, i requires 0 <= i < |p.children| => NLJAsIndexJoin(cat, p.children[i]));
    forall i | 0 <= i < |p.children| ensures Nowhere(kids[i], n => IndexableJoin(cat, n)) {
      IndexJoinComplete(cat, p.children[i]);
    }
    IndexJoinNodeComplete(cat, p.(children := kids));
  }

  predicate EqualityJoin(p: Plan) {
    p.op.NestedLoopJoin? && |p.children| == 2 && JoinKeys(p.op.pred).Some?
  }

  /** After the hash join rule no nested-loop join on a column equality is left. */
  lemma {:induction false} HashJoinComplete(p: Plan)
    ensures Nowhere(NLJAsHashJoin(p), EqualityJoin)
    decreases p
  {
    forall i | 0 <= i < |p.children| ensures Nowhere(NLJAsHashJoin(p.children[i]), EqualityJoin) {
      HashJoinComplete(p.children[i]);
    }
  }

  /** A one-column index of the table carries this column's name. */
  ghost predicate HasIndexNamed(cat: Catalog, table: string, name: string) {
    exists oid :: && oid in GetTableIndexes(cat, table) && oid in cat.indexes && |cat.indexes[oid].keyColumns| == 1
                  && cat.indexes[oid].keyColumns[0].name == name
  }

  /** An ascending sort of a table scan by one column that has an index of its own. */
  ghost predicate IndexedSort(cat: Catalog, p: Plan) {
    && p.op.Sort? && |p.op.orders| == 1 && !p.op.orders[0].0.DESC? && p.op.orders[0].1.Column?
    && |p.children| == 1 && p.children[0].op.SeqScan? && p.children[0].op.oid in cat.tables
    && var t := cat.tables[p.children[0].op.oid];
       && p.op.orders[0].1.colIdx < |t.columns|
       && HasIndexNamed(cat, t.name, t.columns[p.op.orders[0].1.colIdx].name)
  }

  lemma OrderByNodeComplete(cat: Catalog, q: Plan)
    requires forall i :: 0 <= i < |q.children| ==> Nowhere(q.children[i], n => IndexedSort(cat, n))
    ensures Nowhere(OrderByNode(cat, q), n => IndexedSort(cat, n))
  {
    if IndexedSort(cat, q) {
      var t := cat.tables[q.children[0].op.oid];
      FirstNamedFound(cat, GetTableIndexes(cat, t.name), t.columns[q.op.orders[0].1.colIdx].name);
    }
  }

  /** After the order-by rule no such sort is left, at any depth. */
  lemma {:induction false} OrderByComplete(cat: Catalog, p: Plan)
    ensures Nowhere(OrderByAsIndexScan(cat, p), n => IndexedSort(cat, n))
    decreases p
  {
    var kids := seq(|p.children|, i requires 0 <= i < |p.children| => OrderByAsIndexScan(cat, p.children[i]));
    forall i | 0 <= i < |p.children| ensures Nowhere(kids[i], n => IndexedSort(cat, n)) {
      OrderByComplete(cat, p.children[i]);
    }
    OrderByNodeComplete(cat, p.(children := kids));
  }

  // ---------------------------------------------------------------- outside the conditions, exactly

  lemma JoinWellFormed(cat: Catalog, l: Plan, r: Plan, pred: Expr, join: JoinType)
    requires WellFormed(cat, l) && WellFormed(cat, r) && FitsJoin(pred, |l.schema|, |r.schema|)
    ensures WellFormed(cat, Plan(NestedLoopJoin(pred, join), l.schema + r.schema, [l, r]))
  {
    var p := Plan(NestedLoopJoin(pred, join), l.schema + r.schema, [l, r]);
    assert Counts(p.children)[0] == |l.schema| && Counts(p.children)[1] == |r.schema|;
    assert p.children[0] == l && p.children[1] == r;
  }

  lemma FilterWellFormed(cat: Catalog, pred: Expr, child: Plan)
    requires WellFormed(cat, child) && Fits(pred, |child.schema|)
    ensures WellFormed(cat, Plan(Filter(pred), child.schema, [child]))
  {
    var p := Plan(Filter(pred), child.schema, [child]);
    assert Counts(p.children)[0] == |child.schema| && p.children[0] == child;
  }

  /** `... JOIN ... ON NULL WHERE ...`: the rule throws, for every join type and every filter. */
  lemma {:induction false} JoinOnNullThrows(cat: Catalog, l: Plan, r: Plan, join: JoinType, where: Expr)
    requires WellFormed(cat, l) && WellFormed(cat, r) && Fits(where, |l.schema| + |r.schema|)
    ensures var nlj := Plan(NestedLoopJoin(Const(Null), join), l.schema + r.schema, [l, r]);
            MergeFilterNLJ(Plan(Filter(where), nlj.schema, [nlj])).Err?
  {
    var nlj := Plan(NestedLoopJoin(Const(Null), join), l.schema + r.schema, [l, r]);
    var p := Plan(Filter(where), nlj.schema, [nlj]);
    JoinWellFormed(cat, l, r, Const(Null), join);
    FilterWellFormed(cat, where, nlj);
    hide WellFormed, MergeFilterNLJ;
    MergeFilterSucceedsExactly(cat, p);
    assert CastThrows(p);
  }

  lemma {:induction false} FilterKeepsAll(e: Expr, rows: seq<Row>)
    ensures |FilterRows(e, rows)| == |rows| <==> forall i :: 0 <= i < |rows| ==> Holds(e, rows[i])
    ensures |FilterRows(e, rows)| == |rows| ==> FilterRows(e, rows) == rows
  {
    if rows != [] {
      FilterKeepsAll(e, rows[1..]);
      assert forall i :: 1 <= i < |rows| ==> rows[i] == rows[1..][i - 1];
    }
  }

  lemma SortNodeRows(cat: Catalog, p: Plan)
    requires p.op.Sort? && |p.children| == 1
    ensures Rows(cat, p) == SortRows(p.op.orders, Rows(cat, p.children[0]))
  {
  }

  /** The order-by rule ignores a scan's filter: it keeps the rows exactly when the filter passes the whole table. */
  lemma {:induction false} FilteredScanExactly(cat: Catalog, q: Plan)
    requires CatalogOk(cat) && WellFormed(cat, q) && OrderByNode(cat, q) != q && q.children[0].op.filter.Some?
    ensures var scan := q.children[0].op;
            Rows(cat, OrderByNode(cat, q)) == Rows(cat, q)
            <==> forall i :: 0 <= i < |cat.tables[scan.oid].rows|
                   ==> Holds(scan.filter.value, cat.tables[scan.oid].rows[i])
  {
    var scan, bare := q.children[0], q.children[0].(op := q.children[0].op.(filter := None));
    var plain := q.(children := [bare]);
    assert Counts(plain.children)[0] == |scan.schema|;
    OrderByNodeKeeps(cat, plain);
    SortNodeRows(cat, q);
    SortNodeRows(cat, plain);
    FilterKeepsAll(scan.op.filter.value, cat.tables[scan.op.oid].rows);
    FilteredRows(cat, scan);
    ScanRows(cat, bare);
  }

  /** One table `t(x)` with the row 1, indexed on `x`. */
  function OneRowCatalog(): Catalog {
    Catalog(map[0 := Table("t", [ColumnInfo("x", INTEGER)], [[Int(1)]])], map["t" := 0],
            map[0 := Index("t_x", "t", [0], [ColumnInfo("x", INTEGER)], [0])], map["t" := [0]], map[], (_, _) => 0)
  }

  /** A scan of `t` for the rows with x = 2, sorted by x. */
  function SortedFilteredScan(): Plan {
    var columns := [ColumnInfo("t.x", INTEGER)];
    var wanted := Compare(Equal, Column(0, 0, INTEGER), Const(Int(2)));
    Plan(Sort([(ASC, Column(0, 0, INTEGER))]), columns, [Plan(SeqScan(0, "t", Some(wanted)), columns, [])])
  }

  lemma OneRowCatalogOk()
    ensures CatalogOk(OneRowCatalog())
  {
    var cat := OneRowCatalog();
    assert TableOk(cat, 0);
    assert Lists(cat.tables[0].rows, 0, [0]);
    assert IndexOk(cat, cat.indexes[0]);
  }

  lemma {:induction false} SortedFilteredScanOk()
    ensures WellFormed(OneRowCatalog(), SortedFilteredScan())
  {
    var p := SortedFilteredScan();
    var scan := p.children[0];
    assert WellFormed(OneRowCatalog(), scan);
    assert Counts(p.children)[0] == 1;
  }

  /** The scan finds no row; after the rule the plan lists the whole table. */
  lemma {:induction false} FilteredScanChangesRows()
    ensures CatalogOk(OneRowCatalog()) && WellFormed(OneRowCatalog(), SortedFilteredScan())
    ensures Rows(OneRowCatalog(), OrderByNode(OneRowCatalog(), SortedFilteredScan()))
            != Rows(OneRowCatalog(), SortedFilteredScan())
  {
    var cat, q := OneRowCatalog(), SortedFilteredScan();
    OneRowCatalogOk();
    SortedFilteredScanOk();
    assert FirstNamed(cat, [0], "x") == Some(0);
    assert OrderByNode(cat, q).op == IndexScan(0);
    assert Eval(q.children[0].op.filter.value, [Int(1)]) == Bool(false);
    assert !Holds(q.children[0].op.filter.value, cat.tables[0].rows[0]);
    hide Rows;
    FilteredScanExactly(cat, q);
  }

  lemma FilteredRows(cat: Catalog, p: Plan)
    requires WellFormed(cat, p) && p.op.SeqScan? && p.op.filter.Some?
    ensures Rows(cat, p) == FilterRows(p.op.filter.value, cat.tables[p.op.oid].rows)
  {
  }

  /** The index-join rule ignores the scan's filter too: it keeps the rows exactly when the filter passes every table
      row with a partner on the left, or, for a join that keeps all right rows, every table row. */
  lemma {:induction false} FilteredJoinExactly(cat: Catalog, q: Plan)
    requires CatalogOk(cat) && WellFormed(cat, q) && IndexJoinNode(cat, q) != q && q.children[1].op.filter.Some?
    ensures var scan := q.children[1].op;
            Rows(cat, IndexJoinNode(cat, q)) == Rows(cat, q)
            <==> ScanFilter.FilterIdle(q.op.join, q.op.pred, scan.filter.value, Rows(cat, q.children[0]),
                                       TableRows(cat, scan.oid))
  {
    var r, scan, left := IndexJoinNode(cat, q), q.children[1], q.children[0];
    var rows, f := cat.tables[scan.op.oid].rows, scan.op.filter.value;
    IndexJoinNodeOk(cat, q);
    JoinKeysEquality(q.op.pred, |left.schema|, |scan.schema|);
    FilteredRows(cat, scan);
    JoinNodeRows(cat, q);
    IndexJoinPlanRows(cat, r);
    assert Wide(rows, |scan.schema|) by { TableWide(cat, scan.op.oid); }
    var (lk, rk) := JoinKeys(q.op.pred).value;
    hide OpRows, IndexJoinRows, JoinKeys, MatchIndex, JoinRows, LoopPicks, FilterRows, ScanFilter.FilterIdle;
    IndexJoinSameRows(cat, q.op.pred, q.op.join, Rows(cat, left), scan.op.oid, |left.schema|, |scan.schema|);
    ScanFilter.FilterIdleExactly(q.op.join, q.op.pred, f, lk.colIdx, rk.colIdx, Rows(cat, left), rows, |left.schema|,
                                 |scan.schema|);
  }

  lemma TableWide(cat: Catalog, oid: nat)
    requires CatalogOk(cat) && oid in cat.tables
    ensures Wide(cat.tables[oid].rows, |cat.tables[oid].columns|)
  {
    assert TableOk(cat, oid);
  }

  /** The row 1 joined by equality with a scan of `t` for the rows with x = 2. */
  function FilteredJoin(): Plan {
    var columns := [ColumnInfo("t.x", INTEGER)];
    var wanted := Compare(Equal, Column(0, 0, INTEGER), Const(Int(2)));
    Plan(NestedLoopJoin(Compare(Equal, Column(0, 0, INTEGER), Column(1, 0, INTEGER)), INNER),
         [ColumnInfo("v", INTEGER), ColumnInfo("t.x", INTEGER)],
         [Plan(Values([[Const(Int(1))]]), [ColumnInfo("v", INTEGER)], []),
          Plan(SeqScan(0, "t", Some(wanted)), columns, [])])
  }

  lemma {:induction false} FilteredJoinOk()
    ensures WellFormed(OneRowCatalog(), FilteredJoin())
  {
    var p := FilteredJoin();
    assert WellFormed(OneRowCatalog(), p.children[0]);
    assert WellFormed(OneRowCatalog(), p.children[1]);
    assert Counts(p.children)[0] == 1 && Counts(p.children)[1] == 1;
  }

  /** The join finds nothing; after the rule it pairs the row with the table's. */
  lemma {:induction false} FilteredJoinChangesRows()
    ensures CatalogOk(OneRowCatalog()) && WellFormed(OneRowCatalog(), FilteredJoin())
    ensures Rows(OneRowCatalog(), IndexJoinNode(OneRowCatalog(), FilteredJoin()))
            != Rows(OneRowCatalog(), FilteredJoin())
  {
    var cat, q := OneRowCatalog(), FilteredJoin();
    OneRowCatalogOk();
    FilteredJoinOk();
    FilteredJoinFires();
    OneValueRow(cat, q.children[0]);
    UnwantedPartner();
    hide Rows, ScanFilter.PartnersPass, IndexJoinNode;
    FilteredJoinExactly(cat, q);
  }

  lemma FilteredJoinFires()
    ensures IndexJoinNode(OneRowCatalog(), FilteredJoin()).op.NestedIndexJoin?
  {
    assert FirstMatch(OneRowCatalog(), [0], [0]) == Some(0);
  }

  lemma OneValueRow(cat: Catalog, p: Plan)
    requires p == FilteredJoin().children[0]
    ensures Rows(cat, p) == [[Int(1)]]
  {
    assert EvalAll([Const(Int(1))], []) == [Int(1)];
    assert p.op.values[0] == [Const(Int(1))];
  }

  lemma UnwantedPartner()
    ensures var q, rows := FilteredJoin(), OneRowCatalog().tables[0].rows;
            !ScanFilter.PartnersPass(q.op.pred, q.children[1].op.filter.value, [Int(1)], rows)
  {
    var q, rows := FilteredJoin(), OneRowCatalog().tables[0].rows;
    assert ScanFilter.Match(q.op.pred, [Int(1)], rows[0]);
    assert Eval(q.children[1].op.filter.value, [Int(1)]) == Bool(false);
    assert !Holds(q.children[1].op.filter.value, rows[0]);
  }

  // ---------------------------------------------------------------- the whole pipeline

  /** Every well-formed planner-shaped plan is optimized into a plan with the same rows in the same order and the
      same columns; the only exception is the cast of a constant join predicate that is no boolean; both pipelines
      agree. */
  lemma PipelineKeepsRows(cat: Catalog, p: Plan, forceStarterRule: bool)
    requires CatalogOk(cat) && WellFormed(cat, p) && Unfiltered(p) && Plannable(p)
    ensures Optimize(cat, forceStarterRule, p).Ok? <==> Nowhere(MergeProjection(p), CastThrows)
    ensures Optimize(cat, forceStarterRule, p) == Optimize(cat, !forceStarterRule, p)
    ensures Optimize(cat, forceStarterRule, p).Ok? ==>
              var q := Optimize(cat, forceStarterRule, p).value;
              && Rows(cat, q) == Rows(cat, p) && q.schema == p.schema
              && WellFormed(cat, q) && Unfiltered(q)
  {
    var p1 := MergeProjection(p);
    MergeProjectionKeeps(cat, p);
    MergeProjectionConditions(p);
    MergeFilterSucceedsExactly(cat, p1);
    if MergeFilterNLJ(p1).Ok? {
      MergeFilterKeeps(cat, p1);
      MergeFilterUnfiltered(p1);
      var p2 := MergeFilterNLJ(p1).value;
      IndexJoinKeeps(cat, p2);
      OrderByKeeps(cat, NLJAsIndexJoin(cat, p2));
    }
  }
}

/** The proof that the lowered aggregate plan means what the query says. */
module Lowering {
  import opened Common
  import opened Expressions
  import opened Relations
  import opened Plans
  import opened Binding
  import opened Aggregates
  import opened Naming
  import Optimizer

  // ---------------------------------------------------------------- what the planner can rely on

  /** Outside aggregate arguments every column reference is qualified by its table. */
  predicate Qualified(e: Bound) {
    match e
    case ColumnRef(parts) => |parts| >= 2
    case BinaryOp(_, l, r) => Qualified(l) && Qualified(r)
    case Alias(_, child) => Qualified(child)
    case _ => true
  }

  predicate AllQualified(es: seq<Bound>) {
    forall i :: 0 <= i < |es| ==> Qualified(es[i])
  }

  /** GROUP BY items carry no alias. */
  predicate NoAliases(es: seq<Bound>) {
    forall i :: 0 <= i < |es| ==> !es[i].Alias?
  }

  lemma QualifiedHasDot(parts: seq<string>)
    requires |parts| >= 2
    ensures '.' in Dotted(parts)
  {
    assert Dotted(parts) == parts[0] + "." + Dotted(parts[1..]);
    assert (parts[0] + "." + Dotted(parts[1..]))[|parts[0]|] == '.';
  }

  lemma {:induction false} DigitsHaveNoDot(n: nat)
    ensures '.' !in Digits(n)
  {
    if n >= 10 {
      DigitsHaveNoDot(n / 10);
    }
  }

  // ---------------------------------------------------------------- aggregates

  lemma {:induction false} AggregateAgrees(t: AggType, arg: Bound, schema: Schema, rows: seq<Row>)
    requires PlanExpr(arg, [schema], [], 0).Ok?
    ensures AggregateValue(t, PlanExpr(arg, [schema], [], 0).value.expr, rows) == AggregateBound(t, arg, schema, rows)
  {
    if rows != [] {
      AggregateAgrees(t, arg, schema, rows[..|rows| - 1]);
      PlannedMeans(arg, schema, 0, rows[|rows| - 1]);
    }
  }

  /** The planned call computes the call's own value on every group. */
  lemma CallAgrees(call: Bound, schema: Schema, rows: seq<Row>)
    requires call.AggCall? && PlanAggCall(call, schema).Ok?
    ensures var a := PlanAggCall(call, schema).value;
            AggregateValue(a.ty, a.arg, rows) == CallValue(call, schema, rows) && Fits(a.arg, |schema|)
  {
    var args := PlanList(call.args, [schema], [], 0).value;
    if |call.args| == 1 {
      var p := PlanExpr(call.args[0], [schema], [], 0);
      assert args == [p.value];
      PlannedMeans(call.args[0], schema, 0, []);
      AggregateAgrees(PlanAggCall(call, schema).value.ty, call.args[0], schema, rows);
    } else {
      AggregateAgrees(CountStar, Constant(Int(1)), schema, rows);
    }
  }

  // ---------------------------------------------------------------- one group

  /** What phase one has produced: planned group-bys, collected calls, planned calls. */
  datatype Phase = Phase(groupBys: seq<Bound>, schema: Schema, groups: seq<Planned>, calls: seq<Bound>, aggs: seq<Agg>)

  ghost predicate PhaseOk(s: Phase) {
    && PlanList(s.groupBys, [s.schema], [], 0) == Ok(s.groups)
    && AllCalls(s.calls) && PlanCalls(s.calls, s.schema) == Ok(s.aggs)
    && NoAliases(s.groupBys)
  }

  function PhaseSchema(s: Phase): Schema {
    AggSchema(s.groups, |s.aggs|)
  }

  function PhaseSlots(s: Phase): seq<Expr> {
    Slots(|s.groupBys|, |s.aggs|)
  }

  function PhaseRow(s: Phase, key: Row, rows: seq<Row>): Row {
    AggregateRow(key, AggArgs(s.aggs), AggTypes(s.aggs), rows)
  }

  ghost predicate Share(groupBys: seq<Expr>, key: Row, g: seq<Row>) {
    forall i :: 0 <= i < |g| ==> EvalAll(groupBys, g[i]) == key
  }

  /** The rows of the group share the key; only a query without GROUP BY has an empty group. */
  ghost predicate GroupOk(s: Phase, key: Row, rows: seq<Row>) {
    && Share(Exprs(s.groups), key, rows)
    && (rows == [] ==> s.groupBys == [])
    && |key| == |s.groups|
  }

  lemma {:induction false} ListPlans(es: seq<Bound>, schema: Schema, i: nat)
    requires PlanList(es, [schema], [], 0).Ok? && i < |es|
    ensures PlanExpr(es[i], [schema], [], 0) == Ok(PlanList(es, [schema], [], 0).value[i])
  {
    PlannedMeans(es[0], schema, 0, []);
    if i > 0 {
      ListPlans(es[1..], schema, i - 1);
    }
  }

  /** A group-by column's name has a dot only if it is a column reference of that name. */
  lemma GroupName(s: Phase, i: nat)
    requires PhaseOk(s) && i < |s.groupBys|
    ensures PlanExpr(s.groupBys[i], [s.schema], [], 0) == Ok(s.groups[i])
    ensures '.' in s.groups[i].name
            ==> s.groupBys[i].ColumnRef? && Dotted(s.groupBys[i].parts) == s.groups[i].name
  {
    ListPlans(s.groupBys, s.schema, i);
    assert !s.groupBys[i].Alias?;
    hide PlanColumnRef, BinaryFromFactory;
  }

  /** A qualified name in the aggregation's schema is the name of a group-by column. */
  lemma ResolvesToGroup(s: Phase, name: string, i: nat)
    requires PhaseOk(s) && '.' in name && i < |PhaseSchema(s)| && PhaseSchema(s)[i].name == name
    ensures i < |s.groupBys| && s.groupBys[i].ColumnRef? && Dotted(s.groupBys[i].parts) == name
  {
    if i >= |s.groupBys| {
      DigitsHaveNoDot(i - |s.groupBys|);
    } else {
      GroupName(s, i);
    }
  }

  lemma ColumnOnGroup(s: Phase, parts: seq<string>, key: Row, rows: seq<Row>)
    requires PhaseOk(s) && GroupOk(s, key, rows) && |parts| >= 2
    requires PlanColumnRef(parts, [PhaseSchema(s)]).Ok?
    ensures var e := PlanColumnRef(parts, [PhaseSchema(s)]).value;
            && Eval(e, PhaseRow(s, key, rows)) == EvalOnGroup(ColumnRef(parts), s.schema, rows)
            && Fits(e, |PhaseSchema(s)|)
  {
    var name := Dotted(parts);
    var i := TryGetColIdx(PhaseSchema(s), name).value;
    QualifiedHasDot(parts);
    ResolvesToGroup(s, name, i);
    GroupName(s, i);
    assert rows != [];
    PlannedMeans(s.groupBys[i], s.schema, 0, rows[0]);
    assert key[i] == Eval(s.groups[i].expr, rows[0]);
    assert PhaseRow(s, key, rows)[i] == key[i];
  }

  lemma AggregateColumn(s: Phase, n: nat, key: Row, rows: seq<Row>)
    requires |key| == |s.groupBys| && n < |s.aggs|
    ensures Eval(PhaseSlots(s)[n], PhaseRow(s, key, rows)) == AggregateValue(s.aggs[n].ty, s.aggs[n].arg, rows)
  {
    hide AggregateValue;
    assert PhaseSlots(s)[n] == Column(0, |s.groupBys| + n, INTEGER);
    assert PhaseRow(s, key, rows)[|s.groupBys| + n] == AggregateValue(s.aggs[n].ty, s.aggs[n].arg, rows);
  }

  lemma SlotOnGroup(s: Phase, n: nat, key: Row, rows: seq<Row>)
    requires PhaseOk(s) && |key| == |s.groups| && n < |s.calls|
    ensures n < |PhaseSlots(s)|
    ensures Eval(PhaseSlots(s)[n], PhaseRow(s, key, rows)) == CallValue(s.calls[n], s.schema, rows)
    ensures Fits(PhaseSlots(s)[n], |PhaseSchema(s)|)
  {
    hide AggregateValue, CallValue, PlanAggCall, PlanList, PlanCalls, PhaseRow;
    assert PlanAggCall(s.calls[n], s.schema) == Ok(s.aggs[n]);
    CallAgrees(s.calls[n], s.schema, rows);
    AggregateColumn(s, n, key, rows);
  }

  /** The calls an expression will consume are the next ones collected. */
  ghost predicate NextCalls(s: Phase, e: Bound, next: nat) {
    next + |Collect(e)| <= |s.calls| && s.calls[next..next + |Collect(e)|] == Collect(e)
  }

  lemma SliceSplit<T>(s: seq<T>, a: seq<T>, b: seq<T>, next: nat)
    requires next + |a| + |b| <= |s| && s[next..next + |a| + |b|] == a + b
    ensures s[next..next + |a|] == a && s[next + |a|..next + |a| + |b|] == b
  {
    var all := s[next..next + |a| + |b|];
    assert s[next..next + |a|] == all[..|a|];
    assert s[next + |a|..next + |a| + |b|] == all[|a|..];
  }

  lemma {:induction false} NextCallsSplit(s: Phase, op: string, l: Bound, r: Bound, next: nat)
    requires NextCalls(s, BinaryOp(op, l, r), next)
    ensures NextCalls(s, l, next) && NextCalls(s, r, next + |Collect(l)|)
  {
    assert Collect(BinaryOp(op, l, r)) == Collect(l) + Collect(r);
    hide Collect;
    SliceSplit(s.calls, Collect(l), Collect(r), next);
  }

  /** On every group the lowered expression means what the query's expression means. */
  lemma {:induction false} LoweredMeans(s: Phase, e: Bound, next: nat, key: Row, rows: seq<Row>)
    requires PhaseOk(s) && GroupOk(s, key, rows) && Qualified(e) && NextCalls(s, e, next)
    requires PlanExpr(e, [PhaseSchema(s)], PhaseSlots(s), next).Ok?
    ensures var p := PlanExpr(e, [PhaseSchema(s)], PhaseSlots(s), next).value;
            && Eval(p.expr, PhaseRow(s, key, rows)) == EvalOnGroup(e, s.schema, rows)
            && Fits(p.expr, |PhaseSchema(s)|)
            && p.next == next + |Collect(e)|
    decreases e
  {
    hide PhaseOk, GroupOk, PhaseRow, PhaseSchema, PhaseSlots, CallValue, BinaryValue, BinaryFromFactory, PlanColumnRef;
    match e
    case AggCall(_, _, _) =>
      assert s.calls[next..next + 1][0] == s.calls[next] == e;
      SlotOnGroup(s, next, key, rows) by { PhaseFacts(s, key, rows); }
    case ColumnRef(parts) => ColumnOnGroup(s, parts, key, rows);
    case BinaryOp(op, l, r) =>
      NextCallsSplit(s, op, l, r, next);
      BinaryLowered(s, op, l, r, next, key, rows);
    case Alias(_, child) => LoweredMeans(s, child, next, key, rows);
    case _ =>
  }

  lemma PhaseFacts(s: Phase, key: Row, rows: seq<Row>)
    requires PhaseOk(s) && GroupOk(s, key, rows)
    ensures |key| == |s.groups|
  {
  }

  lemma {:induction false} BinaryLowered(s: Phase, op: string, l: Bound, r: Bound, next: nat, key: Row, rows: seq<Row>)
    requires PhaseOk(s) && GroupOk(s, key, rows) && Qualified(l) && Qualified(r)
    requires NextCalls(s, l, next) && NextCalls(s, r, next + |Collect(l)|)
    requires PlanExpr(BinaryOp(op, l, r), [PhaseSchema(s)], PhaseSlots(s), next).Ok?
    ensures var p := PlanExpr(BinaryOp(op, l, r), [PhaseSchema(s)], PhaseSlots(s), next).value;
            && Eval(p.expr, PhaseRow(s, key, rows)) == EvalOnGroup(BinaryOp(op, l, r), s.schema, rows)
            && Fits(p.expr, |PhaseSchema(s)|)
            && p.next == next + |Collect(l)| + |Collect(r)|
    decreases BinaryOp(op, l, r), 0
  {
    hide PhaseOk, GroupOk, PhaseRow, PhaseSchema, PhaseSlots, NextCalls, BinaryValue, BinaryFromFactory, PlanColumnRef;
    LoweredMeans(s, l, next, key, rows);
    LoweredMeans(s, r, next + |Collect(l)|, key, rows);
    var pl := PlanExpr(l, [PhaseSchema(s)], PhaseSlots(s), next).value.expr;
    var pr := PlanExpr(r, [PhaseSchema(s)], PhaseSlots(s), next + |Collect(l)|).value.expr;
    BinaryMeans(op, pl, pr, PhaseRow(s, key, rows));
    BinaryFits(op, pl, pr, |PhaseSchema(s)|, 0);
  }

  // ---------------------------------------------------------------- all expressions of the query

  lemma {:induction false} ListMeans(s: Phase, es: seq<Bound>, next: nat, key: Row, rows: seq<Row>, i: nat)
    requires PhaseOk(s) && GroupOk(s, key, rows) && AllQualified(es) && i < |es|
    requires next + |CollectAll(es)| <= |s.calls| && s.calls[next..next + |CollectAll(es)|] == CollectAll(es)
    requires PlanList(es, [PhaseSchema(s)], PhaseSlots(s), next).Ok?
    ensures var p := PlanList(es, [PhaseSchema(s)], PhaseSlots(s), next).value[i];
            && Eval(p.expr, PhaseRow(s, key, rows)) == EvalOnGroup(es[i], s.schema, rows)
            && Fits(p.expr, |PhaseSchema(s)|)
            && p.next <= next + |CollectAll(es)|
            && (i == |es| - 1 ==> p.next == next + |CollectAll(es)|)
    decreases |es|
  {
    hide PhaseOk, GroupOk, PhaseRow, PhaseSchema, PhaseSlots, PlanExpr, Eval, EvalOnGroup, Collect;
    SliceSplit(s.calls, Collect(es[0]), CollectAll(es[1..]), next);
    LoweredMeans(s, es[0], next, key, rows);
    if i > 0 {
      ListMeans(s, es[1..], next + |Collect(es[0])|, key, rows, i - 1);
    } else {
      assert |es| == 1 ==> CollectAll(es[1..]) == [];
    }
  }

  // ---------------------------------------------------------------- the groups

  lemma KeysAgree(s: Phase, row: Row)
    requires PhaseOk(s)
    ensures EvalAll(Exprs(s.groups), row) == BoundKey(s.groupBys, s.schema, row)
  {
    forall i | 0 <= i < |s.groups| ensures Eval(s.groups[i].expr, row) == EvalBound(s.groupBys[i], s.schema, row) {
      ListPlans(s.groupBys, s.schema, i);
      PlannedMeans(s.groupBys[i], s.schema, 0, row);
    }
  }

  lemma {:induction false} GroupKeysAgree(s: Phase, rows: seq<Row>, n: nat)
    requires PhaseOk(s) && n <= |rows|
    ensures GroupKeys(Exprs(s.groups), rows, n) == BoundKeys(s.groupBys, s.schema, rows, n)
  {
    if n > 0 {
      GroupKeysAgree(s, rows, n - 1);
      KeysAgree(s, rows[n - 1]);
    }
  }

  lemma {:induction false} GroupOfAgrees(s: Phase, key: Row, rows: seq<Row>)
    requires PhaseOk(s)
    ensures GroupOf(Exprs(s.groups), key, rows) == RowsWithKey(s.groupBys, s.schema, key, rows)
  {
    if rows != [] {
      GroupOfAgrees(s, key, rows[1..]);
      KeysAgree(s, rows[0]);
    }
  }

  lemma {:induction false} GroupShares(groupBys: seq<Expr>, key: Row, rows: seq<Row>)
    ensures Share(groupBys, key, GroupOf(groupBys, key, rows))
  {
    hide EvalAll;
    if rows != [] {
      var rest := GroupOf(groupBys, key, rows[1..]);
      GroupShares(groupBys, key, rows[1..]);
      if EvalAll(groupBys, rows[0]) == key {
        assert GroupOf(groupBys, key, rows) == [rows[0]] + rest;
      } else {
        assert GroupOf(groupBys, key, rows) == rest;
      }
    }
  }

  lemma {:induction false} GroupNonEmpty(groupBys: seq<Expr>, key: Row, rows: seq<Row>, i: nat)
    requires i < |rows| && EvalAll(groupBys, rows[i]) == key
    ensures GroupOf(groupBys, key, rows) != []
  {
    if i > 0 {
      GroupNonEmpty(groupBys, key, rows[1..], i - 1);
    }
  }

  lemma {:induction false} KeyComesFromRow(groupBys: seq<Expr>, rows: seq<Row>, n: nat, key: Row) returns (i: nat)
    requires n <= |rows| && key in GroupKeys(groupBys, rows, n)
    ensures i < n && EvalAll(groupBys, rows[i]) == key
  {
    if EvalAll(groupBys, rows[n - 1]) == key {
      i := n - 1;
    } else {
      i := KeyComesFromRow(groupBys, rows, n - 1, key);
    }
  }

  lemma ListedGroupOk(s: Phase, rows: seq<Row>, j: nat)
    requires PhaseOk(s) && j < |GroupKeys(Exprs(s.groups), rows, |rows|)|
    ensures var key := GroupKeys(Exprs(s.groups), rows, |rows|)[j];
            GroupOk(s, key, GroupOf(Exprs(s.groups), key, rows))
  {
    var es := Exprs(s.groups);
    var key := GroupKeys(es, rows, |rows|)[j];
    GroupShares(es, key, rows);
    var i := KeyComesFromRow(es, rows, |rows|, key);
    GroupNonEmpty(es, key, rows, i);
  }

  /** The aggregation's rows, group by group. */
  lemma AggregationRows(s: Phase, rows: seq<Row>, j: nat)
    requires PhaseOk(s)
    ensures var made := AggregateRows(Exprs(s.groups), AggArgs(s.aggs), AggTypes(s.aggs), rows);
            |made| == |Groups(s.groupBys, s.schema, rows)|
    ensures var made := AggregateRows(Exprs(s.groups), AggArgs(s.aggs), AggTypes(s.aggs), rows);
            j < |made| ==> exists key :: GroupOk(s, key, Groups(s.groupBys, s.schema, rows)[j])
                                         && made[j] == PhaseRow(s, key, Groups(s.groupBys, s.schema, rows)[j])
  {
    GroupKeysAgree(s, rows, |rows|);
    var made := AggregateRows(Exprs(s.groups), AggArgs(s.aggs), AggTypes(s.aggs), rows);
    var groups := Groups(s.groupBys, s.schema, rows);
    if s.groupBys == [] && rows == [] {
      if j < |made| {
        assert GroupOk(s, [], groups[j]) && made[j] == PhaseRow(s, [], groups[j]);
      }
    } else if j < |made| {
      var key := GroupKeys(Exprs(s.groups), rows, |rows|)[j];
      ListedGroupOk(s, rows, j);
      GroupOfAgrees(s, key, rows);
      assert GroupOk(s, key, groups[j]) && made[j] == PhaseRow(s, key, groups[j]);
    }
  }

  // ---------------------------------------------------------------- filter and projection over the groups

  function FilterIf(h: Option<Expr>, rows: seq<Row>): seq<Row> {
    if h.Some? then FilterRows(h.value, rows) else rows
  }

  /** The aggregation row stands for the group under HAVING and under every select item. */
  ghost predicate RowStands(having: Option<Bound>, h: Option<Expr>, items: seq<Bound>, exprs: seq<Expr>,
                            schema: Schema, group: seq<Row>, row: Row) {
    && (h.Some? <==> having.Some?)
    && (h.Some? ==> (Holds(h.value, row) <==> Keeps(having, schema, group)))
    && EvalAll(exprs, row) == ItemsOnGroup(items, schema, group)
  }

  lemma {:induction false} GroupRowsAgree(having: Option<Bound>, h: Option<Expr>, items: seq<Bound>, exprs: seq<Expr>,
                                          schema: Schema, groups: seq<seq<Row>>, rows: seq<Row>)
    requires |groups| == |rows|
    requires forall i :: 0 <= i < |rows| ==> RowStands(having, h, items, exprs, schema, groups[i], rows[i])
    ensures MapRows(exprs, FilterIf(h, rows)) == GroupRows(having, items, schema, groups)
  {
    if rows != [] {
      hide Holds, Keeps, EvalAll, ItemsOnGroup, FilterIf, MapRows;
      assert RowStands(having, h, items, exprs, schema, groups[0], rows[0]);
      forall i | 0 <= i < |rows| - 1 ensures RowStands(having, h, items, exprs, schema, groups[1..][i], rows[1..][i]) {
        assert RowStands(having, h, items, exprs, schema, groups[i + 1], rows[i + 1]);
      }
      GroupRowsAgree(having, h, items, exprs, schema, groups[1..], rows[1..]);
      FilterFirst(h, rows);
      MapFirst(exprs, rows[0], FilterIf(h, rows[1..]));
      KeepsAll(schema, groups[0]);
    }
  }

  lemma KeepsAll(schema: Schema, group: seq<Row>)
    ensures Keeps(None, schema, group)
  {
  }

  lemma FilterFirst(h: Option<Expr>, rows: seq<Row>)
    requires rows != []
    ensures FilterIf(h, rows) == if h.None? || Holds(h.value, rows[0]) then [rows[0]] + FilterIf(h, rows[1..])
                                 else FilterIf(h, rows[1..])
  {
  }

  lemma MapFirst(exprs: seq<Expr>, row: Row, rest: seq<Row>)
    ensures MapRows(exprs, [row] + rest) == [EvalAll(exprs, row)] + MapRows(exprs, rest)
  {
  }

  // ---------------------------------------------------------------- the lowered plan

  /** HAVING and the select list are planned as one list over the aggregation. */
  lemma OverAsList(having: Option<Bound>, items: seq<Bound>, agg: Plan, groupCount: nat, n: nat)
    requires PlanOver(having, items, agg, groupCount, n).Ok?
    ensures var all := PlanList(HavingList(having) + items, [agg.schema], Slots(groupCount, n), 0);
            var plan := PlanOver(having, items, agg, groupCount, n).value;
            && all.Ok?
            && var ps := all.value[|HavingList(having)|..];
               plan == Plan(Projection(Exprs(ps)), NamedTypes(ps),
                            [if having.Some? then Plan(Filter(all.value[0].expr), agg.schema, [agg]) else agg])
  {
    hide PlanExpr;
    var all := HavingList(having) + items;
    if having.Some? {
      assert all[0] == having.value && all[1..] == items;
    } else {
      assert all == items;
    }
  }

  ghost function HavingExpr(having: Option<Bound>, all: seq<Planned>): Option<Expr>
    requires having.Some? ==> |all| > 0
  {
    if having.Some? then Some(all[0].expr) else None
  }

  lemma GroupStands(s: Phase, having: Option<Bound>, items: seq<Bound>, key: Row, rows: seq<Row>)
    requires PhaseOk(s) && GroupOk(s, key, rows)
    requires AllQualified(HavingList(having) + items) && s.calls == Calls(having, items)
    requires PlanList(HavingList(having) + items, [PhaseSchema(s)], PhaseSlots(s), 0).Ok?
    ensures var all := PlanList(HavingList(having) + items, [PhaseSchema(s)], PhaseSlots(s), 0).value;
            RowStands(having, HavingExpr(having, all), items, Exprs(all[|HavingList(having)|..]), s.schema, rows,
                      PhaseRow(s, key, rows))
  {
    hide PhaseOk, GroupOk, PhaseRow, PhaseSchema, PhaseSlots, PlanList, CollectAll, Eval, EvalOnGroup, Qualified;
    var es := HavingList(having) + items;
    var all := PlanList(es, [PhaseSchema(s)], PhaseSlots(s), 0).value;
    assert s.calls[0..|s.calls|] == s.calls;
    var skip := |HavingList(having)|;
    var exprs := Exprs(all[skip..]);
    forall i | 0 <= i < |items|
      ensures Eval(exprs[i], PhaseRow(s, key, rows)) == EvalOnGroup(items[i], s.schema, rows)
    {
      ListMeans(s, es, 0, key, rows, skip + i);
      assert es[skip + i] == items[i] && all[skip..][i] == all[skip + i];
    }
    assert EvalAll(exprs, PhaseRow(s, key, rows)) == ItemsOnGroup(items, s.schema, rows);
    if having.Some? {
      ListMeans(s, es, 0, key, rows, 0);
    }
  }

  lemma LoweredRows(cat: Catalog, having: Option<Bound>, items: seq<Bound>, s: Phase, child: Plan)
    requires PhaseOk(s) && child.schema == s.schema
    requires s.calls == Calls(having, items) && AllQualified(HavingList(having) + items)
    requires PlanOver(having, items, AggNode(s.groups, s.aggs, child), |s.groupBys|, |s.aggs|).Ok?
    ensures Rows(cat, PlanOver(having, items, AggNode(s.groups, s.aggs, child), |s.groupBys|, |s.aggs|).value)
            == GroupRows(having, items, s.schema, Groups(s.groupBys, s.schema, Rows(cat, child)))
  {
    var agg := AggNode(s.groups, s.aggs, child);
    OverAsList(having, items, agg, |s.groupBys|, |s.aggs|);
    var all := PlanList(HavingList(having) + items, [PhaseSchema(s)], PhaseSlots(s), 0).value;
    var exprs := Exprs(all[|HavingList(having)|..]);
    var groups := Groups(s.groupBys, s.schema, Rows(cat, child));
    var made := AggregateRows(Exprs(s.groups), AggArgs(s.aggs), AggTypes(s.aggs), Rows(cat, child));
    AggregationRows(s, Rows(cat, child), 0);
    forall j | 0 <= j < |made|
      ensures RowStands(having, HavingExpr(having, all), items, exprs, s.schema, groups[j], made[j])
    {
      AggregationRows(s, Rows(cat, child), j);
      var key :| GroupOk(s, key, groups[j]) && made[j] == PhaseRow(s, key, groups[j]);
      GroupStands(s, having, items, key, groups[j]);
    }
    GroupRowsAgree(having, HavingExpr(having, all), items, exprs, s.schema, groups, made);
    StackRows(cat, having, all, exprs, agg, PlanOver(having, items, agg, |s.groupBys|, |s.aggs|).value);
    AggNodeRows(cat, s, child);
  }

  lemma AggNodeRows(cat: Catalog, s: Phase, child: Plan)
    ensures Rows(cat, AggNode(s.groups, s.aggs, child))
            == AggregateRows(Exprs(s.groups), AggArgs(s.aggs), AggTypes(s.aggs), Rows(cat, child))
  {
    assert KidRows(cat, AggNode(s.groups, s.aggs, child))[0] == Rows(cat, child);
  }

  lemma StackRows(cat: Catalog, having: Option<Bound>, all: seq<Planned>, exprs: seq<Expr>, agg: Plan, plan: Plan)
    requires having.Some? ==> |all| > 0
    requires plan.op == Projection(exprs)
    requires plan.children == [if having.Some? then Plan(Filter(all[0].expr), agg.schema, [agg]) else agg]
    ensures Rows(cat, plan) == MapRows(exprs, FilterIf(HavingExpr(having, all), Rows(cat, agg)))
  {
    assert KidRows(cat, plan)[0] == Rows(cat, plan.children[0]);
    if having.Some? {
      assert KidRows(cat, plan.children[0])[0] == Rows(cat, agg);
    }
  }

  /** The lowered plan produces one row of select-list values per kept group, as the query says. */
  lemma LowerAggMeans(cat: Catalog, groupBys: seq<Bound>, having: Option<Bound>, items: seq<Bound>, child: Plan)
    requires LowerAgg(groupBys, having, items, child).Ok?
    requires NoAliases(groupBys) && AllQualified(HavingList(having) + items)
    ensures Rows(cat, LowerAgg(groupBys, having, items, child).value)
            == GroupRows(having, items, child.schema, Groups(groupBys, child.schema, Rows(cat, child)))
  {
    CollectsAllCalls(HavingList(having) + items);
    var groups := PlanList(groupBys, [child.schema], [], 0).value;
    var aggs := PlanCalls(Calls(having, items), child.schema).value;
    var s := Phase(groupBys, child.schema, groups, Calls(having, items), aggs);
    LoweredRows(cat, having, items, s, child);
  }

  // ---------------------------------------------------------------- when the query can be lowered

  predicate AllTyped(es: seq<Bound>, schema: Schema) {
    forall i :: 0 <= i < |es| ==> TypeOfBound(es[i], schema).Some?
  }

  predicate EnoughFor(es: seq<Bound>, slots: seq<Expr>, next: nat) {
    CollectAll(es) == [] || next + |CollectAll(es)| <= |slots|
  }

  lemma AllTypedFront(es: seq<Bound>, schema: Schema)
    requires es != []
    ensures AllTyped(es, schema) <==> TypeOfBound(es[0], schema).Some? && AllTyped(es[1..], schema)
  {
    hide TypeOfBound;
    assert forall i :: 1 <= i < |es| ==> es[i] == es[1..][i - 1];
  }

  lemma {:induction false} ListPlansExactly(es: seq<Bound>, schema: Schema, slots: seq<Expr>, next: nat)
    requires IntegerSlots(slots)
    ensures PlanList(es, [schema], slots, next).Ok? <==> AllTyped(es, schema) && EnoughFor(es, slots, next)
    decreases |es|
  {
    hide PlanExpr, TypeOfBound, Collect, IntegerSlots, AllTyped;
    if es == [] {
      assert AllTyped(es, schema) by { NothingTyped(schema); }
    } else {
      AllTypedFront(es, schema);
      PlansExactly(es[0], schema, slots, next);
      if PlanExpr(es[0], [schema], slots, next).Ok? {
        ConsumesItsCalls(es[0], [schema], slots, next);
        ListPlansExactly(es[1..], schema, slots, next + |Collect(es[0])|);
      }
    }
  }

  lemma NothingTyped(schema: Schema)
    ensures AllTyped([], schema)
  {
  }

  /** A known aggregate of the right number of arguments, not distinct, over expressions without aggregates. */
  predicate CallOk(call: Bound, schema: Schema)
    requires call.AggCall?
  {
    && !call.distinct && AllTyped(call.args, schema) && CollectAll(call.args) == []
    && ((call.func == "count_star" && call.args == [])
        || (|call.args| == 1
            && (call.func == "min" || call.func == "max" || call.func == "sum" || call.func == "count")))
  }

  lemma CallPlansExactly(call: Bound, schema: Schema)
    requires call.AggCall?
    ensures PlanAggCall(call, schema).Ok? <==> CallOk(call, schema)
  {
    hide PlanList, AllTyped, CollectAll;
    ListPlansExactly(call.args, schema, [], 0);
  }

  ghost predicate CallsOk(calls: seq<Bound>, schema: Schema) {
    AllCalls(calls) && forall i :: 0 <= i < |calls| ==> calls[i].AggCall? && CallOk(calls[i], schema)
  }

  lemma {:induction false} CallsPlanExactly(calls: seq<Bound>, schema: Schema)
    requires AllCalls(calls)
    ensures PlanCalls(calls, schema).Ok? <==> CallsOk(calls, schema)
  {
    hide PlanAggCall, CallOk;
    if calls != [] {
      CallPlansExactly(calls[0], schema);
      CallsPlanExactly(calls[1..], schema);
      assert forall i :: 1 <= i < |calls| ==> calls[i] == calls[1..][i - 1];
    }
  }

  /** The columns the aggregation offers: the group-by items under their own names, then the aggregates. */
  function QuerySchema(groupBys: seq<Bound>, schema: Schema, n: nat): Schema {
    seq(|groupBys|, i requires 0 <= i < |groupBys| => GroupColumn(groupBys[i], schema)) + AggColumns(n)
  }

  function GroupColumn(g: Bound, schema: Schema): ColumnInfo {
    var ty := TypeOfBound(g, schema);
    ColumnInfo(match g case ColumnRef(parts) => Dotted(parts) case Alias(alias, _) => alias case _ => UNNAMED_COLUMN,
               if ty.Some? then ty.value else INTEGER)
  }

  lemma PlannedColumn(g: Bound, schema: Schema)
    requires PlanExpr(g, [schema], [], 0).Ok?
    ensures var p := PlanExpr(g, [schema], [], 0).value;
            ColumnInfo(p.name, TypeOf(p.expr)) == GroupColumn(g, schema)
  {
    PlansExactly(g, schema, [], 0);
    hide PlanColumnRef, BinaryFromFactory, TypeOfBound;
  }

  lemma QuerySchemaAgrees(groupBys: seq<Bound>, schema: Schema, n: nat)
    requires PlanList(groupBys, [schema], [], 0).Ok?
    ensures AggSchema(PlanList(groupBys, [schema], [], 0).value, n) == QuerySchema(groupBys, schema, n)
  {
    hide PlanList, PlanExpr, GroupColumn;
    var groups := PlanList(groupBys, [schema], [], 0).value;
    forall i | 0 <= i < |groupBys| ensures NamedTypes(groups)[i] == GroupColumn(groupBys[i], schema) {
      ListPlans(groupBys, schema, i);
      PlannedColumn(groupBys[i], schema);
    }
  }

  /** The query is well-typed: group-bys and aggregate arguments over the input, HAVING and the select list
      over the group-by columns and the aggregates. */
  ghost predicate QueryOk(groupBys: seq<Bound>, having: Option<Bound>, items: seq<Bound>, schema: Schema) {
    var calls := Calls(having, items);
    && AllTyped(groupBys, schema) && CollectAll(groupBys) == []
    && CallsOk(calls, schema)
    && AllTyped(HavingList(having) + items, QuerySchema(groupBys, schema, |calls|))
  }

  lemma {:induction false} TypedCollectable(e: Bound, schema: Schema)
    requires TypeOfBound(e, schema).Some?
    ensures Collectable(e)
  {
    hide BinaryType;
    match e
    case BinaryOp(_, l, r) =>
      TypedCollectable(l, schema);
      TypedCollectable(r, schema);
    case Alias(_, child) => TypedCollectable(child, schema);
    case _ =>
  }

  lemma PlanSingle(e: Bound, schemas: seq<Schema>, slots: seq<Expr>, next: nat)
    ensures var p := PlanExpr(e, schemas, slots, next);
            PlanList([e], schemas, slots, next) == if p.Err? then Err(p.reason) else Ok([p.value])
  {
    hide PlanExpr;
    var p := PlanExpr(e, schemas, slots, next);
    assert [e][0] == e && [e][1..] == [];
    if p.Ok? {
      assert PlanList([], schemas, slots, p.value.next) == Ok([]);
      assert [p.value] + [] == [p.value];
    }
  }

  /** Phase two never runs out of aggregate columns: it plans whenever its expressions are well-typed. */
  lemma OverPlansExactly(having: Option<Bound>, items: seq<Bound>, agg: Plan, groupCount: nat)
    ensures var n := |Calls(having, items)|;
            PlanOver(having, items, agg, groupCount, n).Ok? <==> AllTyped(HavingList(having) + items, agg.schema)
  {
    hide PlanExpr, AllTyped;
    var n := |Calls(having, items)|;
    var slots := Slots(groupCount, n);
    var all := HavingList(having) + items;
    ListPlansExactly(all, agg.schema, slots, 0);
    if having.Some? {
      assert all[0] == having.value && all[1..] == items;
      var p := PlanExpr(having.value, [agg.schema], slots, 0);
      PlanSingle(having.value, [agg.schema], slots, 0);
    } else {
      assert all == items;
    }
  }

  /** An aggregate query is lowered exactly when it is well-typed. */
  lemma LowersExactly(groupBys: seq<Bound>, having: Option<Bound>, items: seq<Bound>, child: Plan)
    ensures LowerAgg(groupBys, having, items, child).Ok? <==> QueryOk(groupBys, having, items, child.schema)
  {
    hide PlanList, PlanCalls, PlanOver, AllTyped, CallsOk, QuerySchema, CollectAll, Collectable;
    var all := HavingList(having) + items;
    ListPlansExactly(groupBys, child.schema, [], 0);
    CollectsAllCalls(all);
    CallsPlanExactly(Calls(having, items), child.schema);
    var groups := PlanList(groupBys, [child.schema], [], 0);
    var aggs := PlanCalls(Calls(having, items), child.schema);
    if groups.Ok? && aggs.Ok? {
      QuerySchemaAgrees(groupBys, child.schema, |aggs.value|);
      OverPlansExactly(having, items, AggNode(groups.value, aggs.value, child), |groupBys|);
    }
    if AllTyped(all, QuerySchema(groupBys, child.schema, |Calls(having, items)|)) {
      AllTypedCollectable(all, QuerySchema(groupBys, child.schema, |Calls(having, items)|));
    }
  }

  lemma AllTypedCollectable(es: seq<Bound>, schema: Schema)
    requires AllTyped(es, schema)
    ensures AllCollectable(es)
  {
    forall i | 0 <= i < |es| ensures Collectable(es[i]) {
      TypedCollectable(es[i], schema);
    }
  }

  // ---------------------------------------------------------------- the lowered plan meets the optimizer's conditions

  lemma {:induction false} PlannedFits(e: Bound, schema: Schema, slots: seq<Expr>, next: nat)
    requires PlanExpr(e, [schema], slots, next).Ok? && AllFit(slots, |schema|)
    ensures Fits(PlanExpr(e, [schema], slots, next).value.expr, |schema|)
  {
    hide BinaryFromFactory;
    match e
    case BinaryOp(op, l, r) =>
      PlannedFits(l, schema, slots, next);
      var pl := PlanExpr(l, [schema], slots, next).value;
      PlannedFits(r, schema, slots, pl.next);
      BinaryFits(op, pl.expr, PlanExpr(r, [schema], slots, pl.next).value.expr, |schema|, 0);
    case Alias(_, child) => PlannedFits(child, schema, slots, next);
    case _ =>
  }

  lemma {:induction false} ListFits(es: seq<Bound>, schema: Schema, slots: seq<Expr>, next: nat)
    requires PlanList(es, [schema], slots, next).Ok? && AllFit(slots, |schema|)
    ensures AllFit(Exprs(PlanList(es, [schema], slots, next).value), |schema|)
  {
    hide PlanExpr, Fits;
    if es != [] {
      PlannedFits(es[0], schema, slots, next);
      var p := PlanExpr(es[0], [schema], slots, next).value;
      ListFits(es[1..], schema, slots, p.next);
      FitsFirst(p, PlanList(es[1..], [schema], slots, p.next).value, |schema|);
      hide AllFit;
    }
  }

  lemma FitsFirst(p: Planned, rest: seq<Planned>, n: nat)
    requires Fits(p.expr, n) && AllFit(Exprs(rest), n)
    ensures AllFit(Exprs([p] + rest), n)
  {
    hide Fits;
    forall i | 0 <= i <= |rest| ensures Fits(Exprs([p] + rest)[i], n) {
      if i > 0 {
        assert Exprs([p] + rest)[i] == Exprs(rest)[i - 1];
      }
    }
  }

  lemma CallsFit(calls: seq<Bound>, schema: Schema)
    requires AllCalls(calls) && PlanCalls(calls, schema).Ok?
    ensures AllFit(AggArgs(PlanCalls(calls, schema).value), |schema|)
  {
    hide PlanAggCall, PlanCalls;
    var aggs := PlanCalls(calls, schema).value;
    forall i | 0 <= i < |aggs| ensures Fits(aggs[i].arg, |schema|) {
      assert PlanAggCall(calls[i], schema) == Ok(aggs[i]);
      CallAgrees(calls[i], schema, []);
    }
  }

  ghost predicate Ready(cat: Catalog, p: Plan) {
    WellFormed(cat, p) && Optimizer.Unfiltered(p)
  }

  lemma AggNodeReady(cat: Catalog, groupBys: seq<Bound>, calls: seq<Bound>, child: Plan)
    requires Ready(cat, child) && AllCalls(calls)
    requires PlanList(groupBys, [child.schema], [], 0).Ok? && PlanCalls(calls, child.schema).Ok?
    ensures Ready(cat, AggNode(PlanList(groupBys, [child.schema], [], 0).value, PlanCalls(calls, child.schema).value,
                               child))
  {
    hide PlanList, PlanCalls;
    ListFits(groupBys, child.schema, [], 0);
    CallsFit(calls, child.schema);
    var agg := AggNode(PlanList(groupBys, [child.schema], [], 0).value, PlanCalls(calls, child.schema).value, child);
    assert Counts(agg.children)[0] == |child.schema|;
  }

  lemma OverReady(cat: Catalog, having: Option<Bound>, items: seq<Bound>, agg: Plan, groupCount: nat, n: nat)
    requires Ready(cat, agg) && |agg.schema| == groupCount + n
    requires PlanOver(having, items, agg, groupCount, n).Ok?
    ensures Ready(cat, PlanOver(having, items, agg, groupCount, n).value)
  {
    var slots := Slots(groupCount, n);
    var plan := PlanOver(having, items, agg, groupCount, n).value;
    if having.Some? {
      var h := PlanExpr(having.value, [agg.schema], slots, 0).value;
      PlannedFits(having.value, agg.schema, slots, 0);
      ListFits(items, agg.schema, slots, h.next);
      var f := plan.children[0];
      assert f == Plan(Filter(h.expr), agg.schema, [agg]);
      assert Counts(f.children)[0] == |agg.schema|;
      assert Ready(cat, f);
    } else {
      ListFits(items, agg.schema, slots, 0);
    }
    assert Counts(plan.children)[0] == |agg.schema|;
  }

  lemma LowerAggReady(cat: Catalog, groupBys: seq<Bound>, having: Option<Bound>, items: seq<Bound>, child: Plan)
    requires Ready(cat, child) && LowerAgg(groupBys, having, items, child).Ok?
    ensures Ready(cat, LowerAgg(groupBys, having, items, child).value)
  {
    CollectsAllCalls(HavingList(having) + items);
    var calls := Calls(having, items);
    AggNodeReady(cat, groupBys, calls, child);
    var groups, aggs := PlanList(groupBys, [child.schema], [], 0).value, PlanCalls(calls, child.schema).value;
    OverReady(cat, having, items, AggNode(groups, aggs, child), |groupBys|, |aggs|);
  }

  lemma {:induction false} LowerAggPlannable(groupBys: seq<Bound>, having: Option<Bound>, items: seq<Bound>,
                                             child: Plan)
    requires Optimizer.Plannable(child) && LowerAgg(groupBys, having, items, child).Ok?
    ensures Optimizer.Plannable(LowerAgg(groupBys, having, items, child).value)
  {
    hide PlanList, PlanCalls, CollectAll;
    CollectsAllCalls(HavingList(having) + items);
    var groups := PlanList(groupBys, [child.schema], [], 0).value;
    var aggs := PlanCalls(Calls(having, items), child.schema).value;
    var agg := AggNode(groups, aggs, child);
    OverAsList(having, items, agg, |groupBys|, |aggs|);
    hide PlanOver;
    assert Optimizer.Plannable(agg);
    assert !Optimizer.Removable(agg);
    var plan := PlanOver(having, items, agg, |groupBys|, |aggs|).value;
    assert Optimizer.Plannable(plan.children[0]);
  }

  /** End to end: the optimized plan of an aggregate query produces the query's rows. */
  lemma OptimizedAggregateMeans(cat: Catalog, groupBys: seq<Bound>, having: Option<Bound>, items: seq<Bound>,
                                child: Plan, forceStarterRule: bool)
    requires CatalogOk(cat) && Ready(cat, child) && Optimizer.Plannable(child)
    requires LowerAgg(groupBys, having, items, child).Ok?
    requires NoAliases(groupBys) && AllQualified(HavingList(having) + items)
    ensures var plan := LowerAgg(groupBys, having, items, child).value;
            var optimized := Optimizer.Optimize(cat, forceStarterRule, plan);
            && (optimized.Ok? <==> Optimizer.Nowhere(Optimizer.MergeProjection(plan), Optimizer.CastThrows))
            && (optimized.Ok? ==>
                  Rows(cat, optimized.value)
                  == GroupRows(having, items, child.schema, Groups(groupBys, child.schema, Rows(cat, child))))
  {
    LowerAggReady(cat, groupBys, having, items, child);
    LowerAggPlannable(groupBys, having, items, child);
    LowerAggMeans(cat, groupBys, having, items, child);
    Optimizer.PipelineKeepsRows(cat, LowerAgg(groupBys, having, items, child).value, forceStarterRule);
  }
}

/**
 * Two-phase lowering of an aggregate query.  Phase one collects every aggregate
 * call of HAVING and the select list and plans one aggregation node; phase two
 * plans the same expressions again over that node, the n-th call met being replaced
 * by the n-th aggregate column.  The lowered plan is proved to produce, group by
 * group, what the query's own expressions mean on the group.
 */
module Aggregates {
  import opened Common
  import opened Expressions
  import opened Relations
  import opened Plans
  import opened Binding
  import opened Naming

  // ---------------------------------------------------------------- phase one: collecting

  /** The aggregate calls of an expression, left to right; a call's own arguments are not searched. */
  function Collect(e: Bound): seq<Bound> {
    match e
    case AggCall(_, _, _) => [e]
    case BinaryOp(_, l, r) => Collect(l) + Collect(r)
    case Alias(_, child) => Collect(child)
    case _ => []
  }

  predicate Collectable(e: Bound) {
    match e
    case BinaryOp(_, l, r) => Collectable(l) && Collectable(r)
    case Alias(_, child) => Collectable(child)
    case Star => false
    case _ => true
  }

  /** The tree left behind: the n-th collected call becomes an argument-free placeholder. */
  function Pseudo(e: Bound, base: nat): Bound {
    match e
    case AggCall(_, distinct, _) => AggCall(PSEUDO_AGG + Digits(base), distinct, [])
    case BinaryOp(op, l, r) => BinaryOp(op, Pseudo(l, base), Pseudo(r, base + |Collect(l)|))
    case Alias(alias, child) => Alias(alias, Pseudo(child, base))
    case _ => e
  }

  /** Planning a placeholder tree is planning the original: only the position of a call matters. */
  lemma {:induction false} PseudoPlansTheSame(e: Bound, base: nat, schemas: seq<Schema>, slots: seq<Expr>, next: nat)
    ensures PlanExpr(Pseudo(e, base), schemas, slots, next) == PlanExpr(e, schemas, slots, next)
  {
    hide BinaryFromFactory, PlanColumnRef;
    match e
    case BinaryOp(op, l, r) =>
      PseudoPlansTheSame(l, base, schemas, slots, next);
      var pl := PlanExpr(l, schemas, slots, next);
      if pl.Ok? {
        PseudoPlansTheSame(r, base + |Collect(l)|, schemas, slots, pl.value.next);
      }
    case Alias(_, child) => PseudoPlansTheSame(child, base, schemas, slots, next);
    case _ =>
  }

  /** The trees left behind when a whole list is collected, one numbering throughout. */
  function PseudoAll(es: seq<Bound>, base: nat): (r: seq<Bound>)
    ensures |r| == |es|
  {
    if es == [] then [] else [Pseudo(es[0], base)] + PseudoAll(es[1..], base + |Collect(es[0])|)
  }

  /** A placeholder: no arguments and a made-up name. */
  predicate IsPseudo(call: Bound) {
    call.AggCall? && PSEUDO_AGG <= call.func && call.args == []
  }

  /** What is collected from a tree left behind are placeholders, as many as there were calls. */
  lemma {:induction false} CollectsPseudo(e: Bound, base: nat)
    ensures |Collect(Pseudo(e, base))| == |Collect(e)|
    ensures forall i :: 0 <= i < |Collect(e)| ==> IsPseudo(Collect(Pseudo(e, base))[i])
  {
    match e
    case BinaryOp(_, l, r) =>
      CollectsPseudo(l, base);
      CollectsPseudo(r, base + |Collect(l)|);
    case Alias(_, child) => CollectsPseudo(child, base);
    case _ =>
  }

  lemma {:induction false} CollectsAllPseudo(es: seq<Bound>, base: nat)
    ensures |CollectAll(PseudoAll(es, base))| == |CollectAll(es)|
    ensures forall i :: 0 <= i < |CollectAll(es)| ==> IsPseudo(CollectAll(PseudoAll(es, base))[i])
  {
    hide Collect, Pseudo;
    if es != [] {
      CollectsPseudo(es[0], base);
      CollectsAllPseudo(es[1..], base + |Collect(es[0])|);
    }
  }

  /** Collecting leaves a tree without calls as it is. */
  lemma {:induction false} NoCallsNoPseudo(e: Bound, base: nat)
    requires Collect(e) == []
    ensures Pseudo(e, base) == e
  {
    match e
    case BinaryOp(_, l, r) =>
      assert |Collect(l)| + |Collect(r)| == 0;
      NoCallsNoPseudo(l, base);
      NoCallsNoPseudo(r, base);
    case Alias(_, child) => NoCallsNoPseudo(child, base);
    case _ =>
  }

  lemma {:induction false} NoCallsAllSame(es: seq<Bound>, base: nat)
    requires CollectAll(es) == []
    ensures PseudoAll(es, base) == es
  {
    if es != [] {
      assert |Collect(es[0])| + |CollectAll(es[1..])| == 0;
      NoCallsNoPseudo(es[0], base);
      NoCallsAllSame(es[1..], base);
    }
  }

  /** Every collected call takes exactly one slot, and nothing else takes any. */
  lemma {:induction false} ConsumesItsCalls(e: Bound, schemas: seq<Schema>, slots: seq<Expr>, next: nat)
    requires PlanExpr(e, schemas, slots, next).Ok?
    ensures PlanExpr(e, schemas, slots, next).value.next == next + |Collect(e)|
    ensures next + |Collect(e)| <= |slots| || Collect(e) == []
  {
    hide BinaryFromFactory, PlanColumnRef;
    match e
    case BinaryOp(op, l, r) =>
      ConsumesItsCalls(l, schemas, slots, next);
      ConsumesItsCalls(r, schemas, slots, next + |Collect(l)|);
    case Alias(_, child) => ConsumesItsCalls(child, schemas, slots, next);
    case _ =>
  }

  function CollectAll(es: seq<Bound>): seq<Bound> {
    if es == [] then [] else Collect(es[0]) + CollectAll(es[1..])
  }

  lemma {:induction false} CollectAllConcat(a: seq<Bound>, b: seq<Bound>)
    ensures CollectAll(a + b) == CollectAll(a) + CollectAll(b)
  {
    if a == [] {
      assert a + b == b;
    } else {
      assert (a + b)[0] == a[0] && (a + b)[1..] == a[1..] + b;
      CollectAllConcat(a[1..], b);
    }
  }

  predicate AllCollectable(es: seq<Bound>) {
    forall i :: 0 <= i < |es| ==> Collectable(es[i])
  }

  /** The planned expressions standing where the bound tree has its calls, left to right. */
  function PlannedCalls(e: Bound, planned: Expr): seq<Expr> {
    match e
    case AggCall(_, _, _) => [planned]
    case BinaryOp(_, l, r) =>
      if planned.Column? || planned.Const? then [] else PlannedCalls(l, planned.left) + PlannedCalls(r, planned.right)
    case Alias(_, child) => PlannedCalls(child, planned)
    case _ => []
  }

  lemma FactoryOperands(op: string, l: Expr, r: Expr)
    requires BinaryFromFactory(op, l, r).Ok?
    ensures var b := BinaryFromFactory(op, l, r).value;
            !b.Column? && !b.Const? && b.left == l && b.right == r
  {
  }

  lemma JoinSlices<T>(s: seq<T>, a: nat, b: nat, c: nat)
    requires a <= b <= c <= |s|
    ensures s[a..b] + s[b..c] == s[a..c]
  {
  }

  /** Collection order is consumption order: the k-th call of the expression is replaced by slot next + k. */
  lemma {:induction false} CallsTakeSlotsInOrder(e: Bound, schemas: seq<Schema>, slots: seq<Expr>, next: nat)
    requires PlanExpr(e, schemas, slots, next).Ok? && next <= |slots|
    ensures next + |Collect(e)| <= |slots|
    ensures PlannedCalls(e, PlanExpr(e, schemas, slots, next).value.expr) == slots[next..next + |Collect(e)|]
  {
    hide BinaryFromFactory, PlanColumnRef;
    ConsumesItsCalls(e, schemas, slots, next);
    match e
    case BinaryOp(op, l, r) =>
      ConsumesItsCalls(l, schemas, slots, next);
      CallsTakeSlotsInOrder(l, schemas, slots, next);
      CallsTakeSlotsInOrder(r, schemas, slots, next + |Collect(l)|);
      FactoryOperands(op, PlanExpr(l, schemas, slots, next).value.expr,
                      PlanExpr(r, schemas, slots, next + |Collect(l)|).value.expr);
      JoinSlices(slots, next, next + |Collect(l)|, next + |Collect(e)|);
    case Alias(_, child) => CallsTakeSlotsInOrder(child, schemas, slots, next);
    case _ =>
  }

  ghost predicate IntegerSlots(slots: seq<Expr>) {
    forall i :: 0 <= i < |slots| ==> TypeOf(slots[i]) == INTEGER
  }

  /** The slots reach as far as the expression's calls. */
  predicate Enough(e: Bound, slots: seq<Expr>, next: nat) {
    Collect(e) == [] || next + |Collect(e)| <= |slots|
  }

  /** An expression is planned exactly when it is well-typed over the schema and there is a slot for every call. */
  lemma {:induction false} PlansExactly(e: Bound, schema: Schema, slots: seq<Expr>, next: nat)
    requires IntegerSlots(slots)
    ensures PlanExpr(e, [schema], slots, next).Ok? <==> TypeOfBound(e, schema).Some? && Enough(e, slots, next)
    ensures PlanExpr(e, [schema], slots, next).Ok?
            ==> TypeOfBound(e, schema) == Some(TypeOf(PlanExpr(e, [schema], slots, next).value.expr))
  {
    hide BinaryFromFactory, BinaryType, PlanColumnRef, IntegerSlots;
    match e
    case AggCall(_, _, _) =>
      assert next < |slots| ==> TypeOf(slots[next]) == INTEGER by { SlotType(slots, next); }
    case ColumnRef(parts) => ColumnTypes(parts, schema);
    case BinaryOp(op, l, r) =>
      PlansExactly(l, schema, slots, next);
      var pl := PlanExpr(l, [schema], slots, next);
      if pl.Ok? {
        ConsumesItsCalls(l, [schema], slots, next);
        PlansExactly(r, schema, slots, next + |Collect(l)|);
        var pr := PlanExpr(r, [schema], slots, next + |Collect(l)|);
        if pr.Ok? {
          FactoryTypes(op, pl.value.expr, pr.value.expr);
        }
      }
    case Alias(_, child) => PlansExactly(child, schema, slots, next);
    case _ =>
  }

  lemma SlotType(slots: seq<Expr>, i: nat)
    requires IntegerSlots(slots)
    ensures i < |slots| ==> TypeOf(slots[i]) == INTEGER
  {
  }

  // ---------------------------------------------------------------- planning lists and calls

  /** Plans a list left to right, each expression going on where the previous one left the slots. */
  function PlanList(es: seq<Bound>, schemas: seq<Schema>, slots: seq<Expr>, next: nat): (r: Result<seq<Planned>>)
    ensures r.Ok? ==> |r.value| == |es|
  {
    if es == [] then Ok([])
    else
      var p := PlanExpr(es[0], schemas, slots, next);
      if p.Err? then Err(p.reason)
      else
        var rest := PlanList(es[1..], schemas, slots, p.value.next);
        if rest.Err? then rest else Ok([p.value] + rest.value)
  }

  function Exprs(ps: seq<Planned>): (r: seq<Expr>)
    ensures |r| == |ps| && forall i :: 0 <= i < |ps| ==> r[i] == ps[i].expr
  {
    seq(|ps|, i requires 0 <= i < |ps| => ps[i].expr)
  }

  function NamedTypes(ps: seq<Planned>): (r: Schema)
    ensures |r| == |ps| && forall i :: 0 <= i < |ps| ==> r[i] == ColumnInfo(ps[i].name, TypeOf(ps[i].expr))
  {
    seq(|ps|, i requires 0 <= i < |ps| => ColumnInfo(ps[i].name, TypeOf(ps[i].expr)))
  }

  datatype Agg = Agg(ty: AggType, arg: Expr)

  function AggCallFromFactory(func: string, args: seq<Expr>): Result<Agg> {
    if |args| == 0 && func == "count_star" then Ok(Agg(CountStar, Const(Int(1))))
    else if |args| == 1 && func == "min" then Ok(Agg(MinAgg, args[0]))
    else if |args| == 1 && func == "max" then Ok(Agg(MaxAgg, args[0]))
    else if |args| == 1 && func == "sum" then Ok(Agg(SumAgg, args[0]))
    else if |args| == 1 && func == "count" then Ok(Agg(CountAgg, args[0]))
    else Err("unsupported agg_call")
  }

  /** The arguments are planned in a fresh context, where an aggregate call is refused. */
  function PlanAggCall(call: Bound, schema: Schema): Result<Agg>
    requires call.AggCall?
  {
    if call.distinct then Err("distinct agg is not implemented yet")
    else
      var args := PlanList(call.args, [schema], [], 0);
      if args.Err? then Err(args.reason) else AggCallFromFactory(call.func, Exprs(args.value))
  }

  predicate AllCalls(calls: seq<Bound>) {
    forall i :: 0 <= i < |calls| ==> calls[i].AggCall?
  }

  function PlanCalls(calls: seq<Bound>, schema: Schema): (r: Result<seq<Agg>>)
    requires AllCalls(calls)
    ensures r.Ok? ==> |r.value| == |calls|
    ensures r.Ok? ==> forall i :: 0 <= i < |calls| ==> PlanAggCall(calls[i], schema) == Ok(r.value[i])
  {
    if calls == [] then Ok([])
    else
      var a := PlanAggCall(calls[0], schema);
      if a.Err? then Err(a.reason)
      else
        var rest := PlanCalls(calls[1..], schema);
        if rest.Err? then rest else Ok([a.value] + rest.value)
  }

  lemma {:induction false} CollectsCalls(e: Bound)
    ensures AllCalls(Collect(e))
  {
    match e
    case BinaryOp(_, l, r) =>
      CollectsCalls(l);
      CollectsCalls(r);
    case Alias(_, child) => CollectsCalls(child);
    case _ =>
  }

  lemma {:induction false} CollectsAllCalls(es: seq<Bound>)
    ensures AllCalls(CollectAll(es))
  {
    if es != [] {
      CollectsCalls(es[0]);
      CollectsAllCalls(es[1..]);
    }
  }

  /** Over a whole list the calls are consumed one after the other, each once, none left over. */
  lemma {:induction false} ListConsumesItsCalls(es: seq<Bound>, schemas: seq<Schema>, slots: seq<Expr>, next: nat)
    requires PlanList(es, schemas, slots, next).Ok? && es != []
    ensures PlanList(es, schemas, slots, next).value[|es| - 1].next == next + |CollectAll(es)|
  {
    hide PlanExpr, Collect;
    ConsumesItsCalls(es[0], schemas, slots, next);
    var p := PlanExpr(es[0], schemas, slots, next).value;
    var rest := PlanList(es[1..], schemas, slots, p.next).value;
    assert PlanList(es, schemas, slots, next).value == [p] + rest;
    if |es| > 1 {
      ListConsumesItsCalls(es[1..], schemas, slots, p.next);
      assert ([p] + rest)[|es| - 1] == rest[|es| - 2];
    } else {
      assert CollectAll(es[1..]) == [];
    }
  }

  /** In a context without slots no aggregate call can be planned: not in GROUP BY, not inside another call. */
  lemma {:induction false} NoSlotsNoCalls(es: seq<Bound>, schemas: seq<Schema>)
    requires PlanList(es, schemas, [], 0).Ok?
    ensures CollectAll(es) == []
  {
    if es != [] {
      ConsumesItsCalls(es[0], schemas, [], 0);
      NoSlotsNoCalls(es[1..], schemas);
    }
  }

  // ---------------------------------------------------------------- the lowered plan

  function AggTypes(aggs: seq<Agg>): (r: seq<AggType>)
    ensures |r| == |aggs| && forall i :: 0 <= i < |aggs| ==> r[i] == aggs[i].ty
  {
    seq(|aggs|, i requires 0 <= i < |aggs| => aggs[i].ty)
  }

  function AggArgs(aggs: seq<Agg>): (r: seq<Expr>)
    ensures |r| == |aggs| && forall i :: 0 <= i < |aggs| ==> r[i] == aggs[i].arg
  {
    seq(|aggs|, i requires 0 <= i < |aggs| => aggs[i].arg)
  }

  /** The n-th call's column in the aggregation's output: behind the group-by columns. */
  function Slots(groupCount: nat, n: nat): (r: seq<Expr>)
    ensures |r| == n && forall i :: 0 <= i < n ==> r[i] == Column(0, groupCount + i, INTEGER)
  {
    seq(n, i requires 0 <= i => Column(0, groupCount + i, INTEGER))
  }

  function AggColumns(n: nat): (r: Schema)
    ensures |r| == n && forall i :: 0 <= i < n ==> r[i] == ColumnInfo(AGG_COLUMN + Digits(i), INTEGER)
  {
    seq(n, i requires 0 <= i => ColumnInfo(AGG_COLUMN + Digits(i), INTEGER))
  }

  /** Group-by columns under their own names, then one integer column per call. */
  function AggSchema(groups: seq<Planned>, n: nat): Schema {
    NamedTypes(groups) + AggColumns(n)
  }

  function HavingList(having: Option<Bound>): seq<Bound> {
    if having.Some? then [having.value] else []
  }

  function AggNode(groups: seq<Planned>, aggs: seq<Agg>, child: Plan): Plan {
    Plan(Aggregation(Exprs(groups), AggArgs(aggs), AggTypes(aggs)), AggSchema(groups, |aggs|), [child])
  }

  /** Phase two: HAVING as a filter over the aggregation, the select list as a projection over that. */
  function PlanOver(having: Option<Bound>, items: seq<Bound>, agg: Plan, groupCount: nat, n: nat): Result<Plan> {
    var slots := Slots(groupCount, n);
    var h := PlanList(HavingList(having), [agg.schema], slots, 0);
    if h.Err? then Err(h.reason)
    else
      var next := if having.Some? then h.value[0].next else 0;
      var plan := if having.Some? then Plan(Filter(h.value[0].expr), agg.schema, [agg]) else agg;
      var ps := PlanList(items, [agg.schema], slots, next);
      if ps.Err? then Err(ps.reason) else Ok(Plan(Projection(Exprs(ps.value)), NamedTypes(ps.value), [plan]))
  }

  function Calls(having: Option<Bound>, items: seq<Bound>): seq<Bound> {
    CollectAll(HavingList(having) + items)
  }

  function LowerAgg(groupBys: seq<Bound>, having: Option<Bound>, items: seq<Bound>, child: Plan): Result<Plan> {
    var groups := PlanList(groupBys, [child.schema], [], 0);
    if groups.Err? then Err(groups.reason)
    else if !AllCollectable(HavingList(having) + items) then Err("expression type not supported in planner yet")
    else
      CollectsAllCalls(HavingList(having) + items);
      var aggs := PlanCalls(Calls(having, items), child.schema);
      if aggs.Err? then Err(aggs.reason)
      else PlanOver(having, items, AggNode(groups.value, aggs.value, child), |groupBys|, |aggs.value|)
  }

  // ---------------------------------------------------------------- planning a statement a second time

  /** HAVING and the select list as the first planning leaves them. */
  function SpentHaving(having: Option<Bound>): Option<Bound> {
    if having.Some? then Some(Pseudo(having.value, 0)) else None
  }

  function SpentItems(having: Option<Bound>, items: seq<Bound>): (r: seq<Bound>)
    ensures |r| == |items|
  {
    PseudoAll(items, |CollectAll(HavingList(having))|)
  }

  lemma SpentAll(having: Option<Bound>, items: seq<Bound>)
    ensures HavingList(SpentHaving(having)) + SpentItems(having, items) == PseudoAll(HavingList(having) + items, 0)
  {
    if having.Some? {
      assert (HavingList(having) + items)[1..] == items;
      assert CollectAll([having.value]) == Collect(having.value) + CollectAll([]);
    } else {
      assert HavingList(having) + items == items;
    }
  }

  lemma PseudoUnplannable(call: Bound, schema: Schema)
    requires IsPseudo(call)
    ensures PlanAggCall(call, schema).Err?
  {
    assert PSEUDO_AGG[0] == call.func[0] != "count_star"[0];
  }

  /** A statement that has been lowered once can be lowered again if and only if it has no aggregate calls: the second
      time the placeholders of the first are collected, and no placeholder can be planned. */
  lemma LowersAgainExactly(groupBys: seq<Bound>, having: Option<Bound>, items: seq<Bound>, child: Plan)
    requires LowerAgg(groupBys, having, items, child).Ok?
    ensures LowerAgg(groupBys, SpentHaving(having), SpentItems(having, items), child).Ok?
            <==> Calls(having, items) == []
  {
    hide PlanList, PlanOver, Pseudo;
    SpentAll(having, items);
    if Calls(having, items) == [] {
      NoCallsAllSame(HavingList(having) + items, 0);
      SameParts(having, items, SpentHaving(having), SpentItems(having, items));
    } else {
      SpentFails(groupBys, having, items, child);
    }
  }

  lemma SameParts(having: Option<Bound>, items: seq<Bound>, h: Option<Bound>, its: seq<Bound>)
    requires HavingList(h) + its == HavingList(having) + items && (h.Some? <==> having.Some?)
    ensures h == having && its == items
  {
    assert its == (HavingList(h) + its)[|HavingList(h)|..];
    assert items == (HavingList(having) + items)[|HavingList(having)|..];
    if h.Some? {
      assert (HavingList(h) + its)[0] == h.value && (HavingList(having) + items)[0] == having.value;
    }
  }

  lemma SpentFails(groupBys: seq<Bound>, having: Option<Bound>, items: seq<Bound>, child: Plan)
    requires Calls(having, items) != []
    ensures LowerAgg(groupBys, SpentHaving(having), SpentItems(having, items), child).Err?
  {
    hide PlanList, PlanOver, Pseudo, CollectAll, PseudoAll;
    var all := HavingList(having) + items;
    SpentAll(having, items);
    CollectsAllPseudo(all, 0);
    CollectsAllCalls(PseudoAll(all, 0));
    var calls := CollectAll(PseudoAll(all, 0));
    PseudoUnplannable(calls[0], child.schema);
    assert PlanCalls(calls, child.schema).Err?;
  }

  // ---------------------------------------------------------------- what the query means on a group

  /** An aggregate of the bound argument over the rows of a group. */
  function AggregateBound(t: AggType, arg: Bound, schema: Schema, rows: seq<Row>): Value {
    if rows == [] then InitialAggregate(t)
    else CombineAggregate(t, AggregateBound(t, arg, schema, rows[..|rows| - 1]),
                          EvalBound(arg, schema, rows[|rows| - 1]))
  }

  function CallValue(call: Bound, schema: Schema, rows: seq<Row>): Value
    requires call.AggCall?
  {
    if |call.args| == 1 then
      var t := if call.func == "min" then MinAgg else if call.func == "max" then MaxAgg
               else if call.func == "sum" then SumAgg else CountAgg;
      AggregateBound(t, call.args[0], schema, rows)
    else AggregateBound(CountStar, Constant(Int(1)), schema, rows)
  }

  /** The query's expression on a group: a call aggregates the group, a column is read off any of its rows. */
  function EvalOnGroup(e: Bound, schema: Schema, rows: seq<Row>): Value {
    match e
    case AggCall(_, _, _) => CallValue(e, schema, rows)
    case ColumnRef(parts) => if rows == [] then Null else NamedValue(schema, rows[0], Dotted(parts))
    case Constant(v) => v
    case BinaryOp(op, l, r) => BinaryValue(op, EvalOnGroup(l, schema, rows), EvalOnGroup(r, schema, rows))
    case Alias(_, child) => EvalOnGroup(child, schema, rows)
    case Star => Null
  }

  function BoundKey(groupBys: seq<Bound>, schema: Schema, row: Row): (r: Row)
    ensures |r| == |groupBys| && forall i :: 0 <= i < |r| ==> r[i] == EvalBound(groupBys[i], schema, row)
  {
    seq(|groupBys|, i requires 0 <= i < |groupBys| => EvalBound(groupBys[i], schema, row))
  }

  function RowsWithKey(groupBys: seq<Bound>, schema: Schema, key: Row, rows: seq<Row>): seq<Row> {
    if rows == [] then []
    else (if BoundKey(groupBys, schema, rows[0]) == key then [rows[0]] else [])
         + RowsWithKey(groupBys, schema, key, rows[1..])
  }

  function BoundKeys(groupBys: seq<Bound>, schema: Schema, rows: seq<Row>, n: nat): seq<Row>
    requires n <= |rows|
  {
    if n == 0 then []
    else
      var keys := BoundKeys(groupBys, schema, rows, n - 1);
      var key := BoundKey(groupBys, schema, rows[n - 1]);
      if key in keys then keys else keys + [key]
  }

  /** The groups of the input, by first appearance of their keys; one empty group without GROUP BY or rows. */
  function Groups(groupBys: seq<Bound>, schema: Schema, rows: seq<Row>): seq<seq<Row>> {
    if groupBys == [] && rows == [] then [[]]
    else
      var keys := BoundKeys(groupBys, schema, rows, |rows|);
      seq(|keys|, i requires 0 <= i < |keys| => RowsWithKey(groupBys, schema, keys[i], rows))
  }

  predicate Keeps(having: Option<Bound>, schema: Schema, group: seq<Row>) {
    having.Some? ==> EvalOnGroup(having.value, schema, group) == Bool(true)
  }

  function ItemsOnGroup(items: seq<Bound>, schema: Schema, group: seq<Row>): (r: Row)
    ensures |r| == |items| && forall i :: 0 <= i < |r| ==> r[i] == EvalOnGroup(items[i], schema, group)
  {
    seq(|items|, i requires 0 <= i < |items| => EvalOnGroup(items[i], schema, group))
  }

  /** One row of select-list values for every group HAVING keeps. */
  function GroupRows(having: Option<Bound>, items: seq<Bound>, schema: Schema, groups: seq<seq<Row>>): seq<Row> {
    if groups == [] then []
    else (if Keeps(having, schema, groups[0]) then [ItemsOnGroup(items, schema, groups[0])] else [])
         + GroupRows(having, items, schema, groups[1..])
  }
}

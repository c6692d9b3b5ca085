/**
 * One select statement over a planned FROM clause: WHERE, the select list or the
 * aggregation, DISTINCT, ORDER BY and LIMIT, stacked as the planner stacks them, and
 * proved to mean what the statement says with every column read by name.
 */
module Selects {
  import opened Common
  import opened Expressions
  import opened Relations
  import opened Plans
  import opened Binding
  import opened Aggregates
  import opened Naming
  import opened FromClause
  import Lowering
  import Optimizer

  datatype SelectList = AllColumns | Items(items: seq<Bound>)

  datatype OrderBy = OrderBy(order: OrderType, expr: Bound)

  /** A bound select statement without its FROM clause; `outputId` is the planner's counter for unnamed columns. */
  datatype Body = Body(where: Option<Bound>, list: SelectList, groupBys: seq<Bound>, having: Option<Bound>,
                       distinct: bool, sort: seq<OrderBy>, limit: Option<Bound>, offset: Option<Bound>, outputId: nat)

  /** The select list, a star expanded to the columns of the FROM clause. */
  function ListItems(list: SelectList, names: seq<seq<string>>): seq<Bound> {
    if list.AllColumns? then Refs(names) else list.items
  }

  /** HAVING, GROUP BY or an aggregate call in the select list. */
  predicate IsAggregate(q: Body, items: seq<Bound>) {
    q.having.Some? || q.groupBys != [] || CollectAll(items) != []
  }

  // ---------------------------------------------------------------- the planner's stack

  /** A column keeps its dotted name, an alias names itself, anything else is unnamed. */
  function ColumnName(item: Bound): string {
    match item
    case ColumnRef(parts) => Dotted(parts)
    case Alias(alias, _) => alias
    case _ => UNNAMED_COLUMN
  }

  function ColumnNames(items: seq<Bound>): (r: seq<string>)
    ensures |r| == |items| && forall i :: 0 <= i < |items| ==> r[i] == ColumnName(items[i])
  {
    seq(|items|, i requires 0 <= i < |items| => ColumnName(items[i]))
  }

  function SchemaNames(schema: Schema): (r: seq<string>)
    ensures |r| == |schema| && forall i :: 0 <= i < |schema| ==> r[i] == schema[i].name
  {
    seq(|schema|, i requires 0 <= i < |schema| => schema[i].name)
  }

  /** Every unnamed column is numbered. */
  function Numbered(names: seq<string>, id: nat): (r: seq<string>)
    ensures |r| == |names|
  {
    if names == [] then []
    else if names[0] == UNNAMED_COLUMN then [UNNAMED_OUTPUT + Digits(id)] + Numbered(names[1..], id + 1)
    else [names[0]] + Numbered(names[1..], id)
  }

  function Renamed(schema: Schema, names: seq<string>): (r: Schema)
    requires |names| == |schema|
    ensures |r| == |schema| && forall i :: 0 <= i < |r| ==> r[i] == ColumnInfo(names[i], schema[i].ty)
  {
    seq(|schema|, i requires 0 <= i < |schema| => ColumnInfo(names[i], schema[i].ty))
  }

  function PlanSelectList(items: seq<Bound>, child: Plan, id: nat): Result<Plan> {
    var p := PlanItems(items, child);
    if p.Err? then p
    else Ok(p.value.(schema := Renamed(p.value.schema, Numbered(SchemaNames(p.value.schema), id))))
  }

  function PlanSelected(q: Body, items: seq<Bound>, child: Plan): Result<Plan> {
    if IsAggregate(q, items) then LowerAgg(q.groupBys, q.having, items, child)
    else PlanSelectList(items, child, q.outputId)
  }

  function AllOf(schema: Schema): (r: seq<Expr>)
    ensures |r| == |schema| && forall i :: 0 <= i < |r| ==> r[i] == Column(0, i, schema[i].ty)
  {
    seq(|schema|, i requires 0 <= i < |schema| => Column(0, i, schema[i].ty))
  }

  /** DISTINCT is planned as a grouping by every column. */
  function PlanDistinct(distinct: bool, child: Plan): Plan {
    if distinct then Plan(Aggregation(AllOf(child.schema), [], []), child.schema, [child]) else child
  }

  function SortKeys(sort: seq<OrderBy>): (r: seq<Bound>)
    ensures |r| == |sort| && forall i :: 0 <= i < |r| ==> r[i] == sort[i].expr
  {
    seq(|sort|, i requires 0 <= i < |sort| => sort[i].expr)
  }

  function Orders(sort: seq<OrderBy>, exprs: seq<Expr>): (r: seq<(OrderType, Expr)>)
    requires |exprs| == |sort|
    ensures |r| == |sort| && forall i :: 0 <= i < |r| ==> r[i] == (sort[i].order, exprs[i])
  {
    seq(|sort|, i requires 0 <= i < |sort| => (sort[i].order, exprs[i]))
  }

  function PlanSort(sort: seq<OrderBy>, child: Plan): Result<Plan> {
    if sort == [] then Ok(child)
    else
      var keys := PlanList(SortKeys(sort), [child.schema], [], 0);
      if keys.Err? then Err(keys.reason)
      else Ok(Plan(Sort(Orders(sort, Exprs(keys.value))), child.schema, [child]))
  }

  /** A signed count converted to an unsigned 64-bit one. */
  function Unsigned(n: int): nat {
    n % 0x1_0000_0000_0000_0000
  }

  /** The null count is stored as the least 32-bit integer. */
  function LimitOf(count: Bound): Result<nat> {
    match count
    case Constant(Int(n)) => Ok(Unsigned(n))
    case Constant(Null) => Ok(Unsigned(-0x8000_0000))
    case _ => Err("LIMIT clause must be an integer constant")
  }

  /** Any OFFSET is refused. */
  function PlanLimit(limit: Option<Bound>, offset: Option<Bound>, child: Plan): Result<Plan> {
    if limit.Some? && LimitOf(limit.value).Err? then Err(LimitOf(limit.value).reason)
    else if offset.Some? then Err("OFFSET clause is not supported")
    else if limit.None? then Ok(child)
    else Ok(Plan(Limit(LimitOf(limit.value).value), child.schema, [child]))
  }

  /** The statement over an input plan whose columns have these names. */
  function PlanBody(q: Body, input: Plan, names: seq<seq<string>>): Result<Plan> {
    var items := ListItems(q.list, names);
    if items == [] then Err("no select list")
    else
      var filtered := PlanWhere(q.where, input);
      if filtered.Err? then filtered
      else
        var selected := PlanSelected(q, items, filtered.value);
        if selected.Err? then selected
        else
          var sorted := PlanSort(q.sort, PlanDistinct(q.distinct, selected.value));
          if sorted.Err? then sorted else PlanLimit(q.limit, q.offset, sorted.value)
  }

  // ---------------------------------------------------------------- the statement after planning

  function Given(list: SelectList): seq<Bound> {
    if list.AllColumns? then [] else list.items
  }

  /** The aggregate calls that planning the statement collects from it. */
  function BodyCalls(q: Body): seq<Bound> {
    Calls(q.having, Given(q.list))
  }

  /** What planning leaves of the statement: placeholders for the collected calls. */
  function SpentBody(q: Body): Body {
    q.(having := SpentHaving(q.having),
       list := if q.list.AllColumns? then AllColumns else Items(SpentItems(q.having, q.list.items)))
  }

  /** A statement without calls is left as it is. */
  lemma SpentBodySame(q: Body)
    requires BodyCalls(q) == []
    ensures SpentBody(q) == q
  {
    hide Pseudo, PseudoAll;
    NoCallsAllSame(HavingList(q.having) + Given(q.list), 0);
    SpentAll(q.having, Given(q.list));
    SameParts(q.having, Given(q.list), SpentHaving(q.having), SpentItems(q.having, Given(q.list)));
  }

  lemma {:induction false} RefsHaveNoCalls(names: seq<seq<string>>)
    ensures CollectAll(Refs(names)) == []
  {
    if names != [] {
      assert Refs(names)[1..] == Refs(names[1..]);
      RefsHaveNoCalls(names[1..]);
    }
  }

  /** Expanding a star adds no calls, and commutes with what planning leaves. */
  lemma SpentListItems(q: Body, names: seq<seq<string>>)
    ensures Calls(q.having, ListItems(q.list, names)) == BodyCalls(q)
    ensures ListItems(SpentBody(q).list, names) == SpentItems(q.having, ListItems(q.list, names))
  {
    hide Pseudo, PseudoAll, Refs;
    if q.list.AllColumns? {
      RefsHaveNoCalls(names);
      CollectAllConcat(HavingList(q.having), Refs(names));
      assert HavingList(q.having) + [] == HavingList(q.having);
      NoCallsAllSame(Refs(names), |CollectAll(HavingList(q.having))|);
    }
  }

  /** A statement that had calls cannot be planned a second time, whatever it reads from. */
  lemma SpentBodyFails(q: Body, input: Plan, names: seq<seq<string>>)
    requires BodyCalls(q) != []
    ensures PlanBody(SpentBody(q), input, names).Err?
  {
    hide LowerAgg, PlanSelectList, PlanSort, PlanLimit, PlanWhere, PlanDistinct, CollectAll, SpentItems, ListItems;
    var items := ListItems(q.list, names);
    SpentListItems(q, names);
    if PlanWhere(q.where, input).Ok? {
      SpentFails(q.groupBys, q.having, items, PlanWhere(q.where, input).value);
    }
    SpentIsAggregate(q, items);
  }

  lemma SpentIsAggregate(q: Body, items: seq<Bound>)
    requires Calls(q.having, items) != []
    ensures IsAggregate(SpentBody(q), SpentItems(q.having, items))
  {
    hide Pseudo;
    if q.having.None? {
      assert HavingList(q.having) + items == items;
      CollectsAllPseudo(items, 0);
    }
  }

  // ---------------------------------------------------------------- what the statement means

  /** One row of select-list values per input row. */
  function ListRows(items: seq<Bound>, schema: Schema, rows: seq<Row>): (r: seq<Row>)
    ensures |r| == |rows|
  {
    seq(|rows|, i requires 0 <= i < |rows| => BoundKey(items, schema, rows[i]))
  }

  /** The different rows among the first `n`, by first appearance. */
  function DistinctRows(rows: seq<Row>, n: nat): seq<Row>
    requires n <= |rows|
  {
    if n == 0 then []
    else
      var seen := DistinctRows(rows, n - 1);
      if rows[n - 1] in seen then seen else seen + [rows[n - 1]]
  }

  /** Key `i` of a row of sort keys. */
  function KeyOrders(sort: seq<OrderBy>, from: nat): (r: seq<(OrderType, Expr)>)
    ensures |r| == |sort|
    ensures forall i :: 0 <= i < |r| ==> r[i] == (sort[i].order, Column(0, from + i, INTEGER))
  {
    seq(|sort|, i requires 0 <= i < |sort| => (sort[i].order, Column(0, from + i, INTEGER)))
  }

  /** The rows in the stable order of their sort keys, which are evaluated by name. */
  function NamedSort(sort: seq<OrderBy>, schema: Schema, rows: seq<Row>): seq<Row> {
    var keys := ListRows(SortKeys(sort), schema, rows);
    if sort == [] then rows else AtPositions(rows, SortPositions(KeyOrders(sort, 0), keys, |rows|))
  }

  /** The names ORDER BY can refer to. */
  function OutputNames(q: Body, items: seq<Bound>): (r: seq<string>)
    ensures |r| == |items|
  {
    if IsAggregate(q, items) then ColumnNames(items) else Numbered(ColumnNames(items), q.outputId)
  }

  function NameSchema(names: seq<string>): (r: Schema)
    ensures |r| == |names| && forall i :: 0 <= i < |r| ==> r[i].name == names[i]
  {
    seq(|names|, i requires 0 <= i < |names| => ColumnInfo(names[i], INTEGER))
  }

  function SelectedRows(q: Body, items: seq<Bound>, schema: Schema, rows: seq<Row>): seq<Row> {
    if IsAggregate(q, items) then GroupRows(q.having, items, schema, Groups(q.groupBys, schema, rows))
    else ListRows(items, schema, rows)
  }

  function DistinctIf(distinct: bool, rows: seq<Row>): seq<Row> {
    if distinct then DistinctRows(rows, |rows|) else rows
  }

  function LimitRows(limit: Option<Bound>, rows: seq<Row>): seq<Row> {
    if limit.Some? && LimitOf(limit.value).Ok? then FirstRows(rows, LimitOf(limit.value).value) else rows
  }

  /** The rows of the statement over input rows whose columns have these names. */
  function BodyRows(q: Body, names: seq<seq<string>>, rows: seq<Row>): seq<Row> {
    var items, schema := ListItems(q.list, names), StarSchema(names);
    var selected := SelectedRows(q, items, schema, NamedFilter(q.where, schema, rows));
    LimitRows(q.limit, NamedSort(q.sort, NameSchema(OutputNames(q, items)), DistinctIf(q.distinct, selected)))
  }

  // ---------------------------------------------------------------- values depend on column names only

  ghost predicate SameNames(a: Schema, b: Schema) {
    |a| == |b| && forall i :: 0 <= i < |a| ==> a[i].name == b[i].name
  }

  lemma {:induction false} AggregateByName(t: AggType, arg: Bound, a: Schema, b: Schema, rows: seq<Row>)
    requires SameNames(a, b)
    ensures AggregateBound(t, arg, a, rows) == AggregateBound(t, arg, b, rows)
  {
    hide EvalBound, CombineAggregate;
    if rows != [] {
      AggregateByName(t, arg, a, b, rows[..|rows| - 1]);
      SameNamesSameValue(arg, a, b, rows[|rows| - 1]);
    }
  }

  lemma {:induction false} OnGroupByName(e: Bound, a: Schema, b: Schema, rows: seq<Row>)
    requires SameNames(a, b)
    ensures EvalOnGroup(e, a, rows) == EvalOnGroup(e, b, rows)
  {
    hide BinaryValue, AggregateBound, NamedValue, SameNames;
    match e
    case AggCall(func, _, args) =>
      if |args| == 1 {
        AggregateByName(MinAgg, args[0], a, b, rows);
        AggregateByName(MaxAgg, args[0], a, b, rows);
        AggregateByName(SumAgg, args[0], a, b, rows);
        AggregateByName(CountAgg, args[0], a, b, rows);
      } else {
        AggregateByName(CountStar, Constant(Int(1)), a, b, rows);
      }
    case ColumnRef(parts) =>
      if rows != [] {
        ValueByName(a, b, rows[0], parts);
      }
    case BinaryOp(_, l, r) =>
      OnGroupByName(l, a, b, rows);
      OnGroupByName(r, a, b, rows);
    case Alias(_, child) => OnGroupByName(child, a, b, rows);
    case _ =>
  }

  lemma ValueByName(a: Schema, b: Schema, row: Row, parts: seq<string>)
    requires SameNames(a, b)
    ensures NamedValue(a, row, Dotted(parts)) == NamedValue(b, row, Dotted(parts))
  {
    SameNamesSameValue(ColumnRef(parts), a, b, row);
  }

  lemma KeyByName(es: seq<Bound>, a: Schema, b: Schema, row: Row)
    requires SameNames(a, b)
    ensures BoundKey(es, a, row) == BoundKey(es, b, row)
  {
    hide EvalBound;
    forall i | 0 <= i < |es| ensures EvalBound(es[i], a, row) == EvalBound(es[i], b, row) {
      SameNamesSameValue(es[i], a, b, row);
    }
  }

  lemma {:induction false} KeysByName(es: seq<Bound>, a: Schema, b: Schema, rows: seq<Row>, n: nat)
    requires SameNames(a, b) && n <= |rows|
    ensures BoundKeys(es, a, rows, n) == BoundKeys(es, b, rows, n)
  {
    hide BoundKey, SameNames;
    if n > 0 {
      KeysByName(es, a, b, rows, n - 1);
      KeyByName(es, a, b, rows[n - 1]);
    }
  }

  lemma {:induction false} WithKeyByName(es: seq<Bound>, a: Schema, b: Schema, key: Row, rows: seq<Row>)
    requires SameNames(a, b)
    ensures RowsWithKey(es, a, key, rows) == RowsWithKey(es, b, key, rows)
  {
    hide BoundKey, SameNames;
    if rows != [] {
      WithKeyByName(es, a, b, key, rows[1..]);
      KeyByName(es, a, b, rows[0]);
    }
  }

  lemma GroupsByName(es: seq<Bound>, a: Schema, b: Schema, rows: seq<Row>)
    requires SameNames(a, b)
    ensures Groups(es, a, rows) == Groups(es, b, rows)
  {
    hide BoundKeys, RowsWithKey, SameNames;
    KeysByName(es, a, b, rows, |rows|);
    var keys := BoundKeys(es, a, rows, |rows|);
    forall i | 0 <= i < |keys| ensures RowsWithKey(es, a, keys[i], rows) == RowsWithKey(es, b, keys[i], rows) {
      WithKeyByName(es, a, b, keys[i], rows);
    }
  }

  lemma ItemsByName(items: seq<Bound>, a: Schema, b: Schema, group: seq<Row>)
    requires SameNames(a, b)
    ensures ItemsOnGroup(items, a, group) == ItemsOnGroup(items, b, group)
  {
    hide EvalOnGroup, SameNames;
    forall i | 0 <= i < |items| ensures EvalOnGroup(items[i], a, group) == EvalOnGroup(items[i], b, group) {
      OnGroupByName(items[i], a, b, group);
    }
  }

  lemma {:induction false} GroupRowsByName(having: Option<Bound>, items: seq<Bound>, a: Schema, b: Schema,
                                           groups: seq<seq<Row>>)
    requires SameNames(a, b)
    ensures GroupRows(having, items, a, groups) == GroupRows(having, items, b, groups)
  {
    hide EvalOnGroup, ItemsOnGroup, SameNames;
    if groups != [] {
      GroupRowsByName(having, items, a, b, groups[1..]);
      ItemsByName(items, a, b, groups[0]);
      if having.Some? {
        OnGroupByName(having.value, a, b, groups[0]);
      }
    }
  }

  lemma ListRowsByName(items: seq<Bound>, a: Schema, b: Schema, rows: seq<Row>)
    requires SameNames(a, b)
    ensures ListRows(items, a, rows) == ListRows(items, b, rows)
  {
    hide BoundKey, SameNames;
    forall i | 0 <= i < |rows| ensures BoundKey(items, a, rows[i]) == BoundKey(items, b, rows[i]) {
      KeyByName(items, a, b, rows[i]);
    }
  }

  // ---------------------------------------------------------------- the select list

  lemma {:induction false} PlannedName(e: Bound, schemas: seq<Schema>, slots: seq<Expr>, next: nat)
    requires PlanExpr(e, schemas, slots, next).Ok?
    ensures PlanExpr(e, schemas, slots, next).value.name == ColumnName(e)
  {
    hide PlanColumnRef, BinaryFromFactory;
  }

  lemma {:induction false} PlannedNames(es: seq<Bound>, schemas: seq<Schema>, slots: seq<Expr>, next: nat, i: nat)
    requires PlanList(es, schemas, slots, next).Ok? && i < |es|
    ensures PlanList(es, schemas, slots, next).value[i].name == ColumnName(es[i])
  {
    hide PlanExpr, ColumnName;
    PlannedName(es[0], schemas, slots, next);
    if i > 0 {
      PlannedNames(es[1..], schemas, slots, PlanExpr(es[0], schemas, slots, next).value.next, i - 1);
    }
  }

  lemma PlannedKey(es: seq<Bound>, schema: Schema, row: Row)
    requires PlanList(es, [schema], [], 0).Ok?
    ensures EvalAll(Exprs(PlanList(es, [schema], [], 0).value), row) == BoundKey(es, schema, row)
  {
    hide PlanList, Eval, EvalBound;
    var ps := PlanList(es, [schema], [], 0).value;
    forall i | 0 <= i < |es| ensures Eval(ps[i].expr, row) == EvalBound(es[i], schema, row) {
      Lowering.ListPlans(es, schema, i);
      PlannedMeans(es[i], schema, 0, row);
    }
  }

  lemma ProjectionRows(cat: Catalog, p: Plan)
    requires p.op.Projection? && |p.children| == 1
    ensures Rows(cat, p) == MapRows(p.op.exprs, Rows(cat, p.children[0]))
  {
  }

  lemma ListMeans(cat: Catalog, items: seq<Bound>, child: Plan, id: nat)
    requires PlanSelectList(items, child, id).Ok?
    ensures var p := PlanSelectList(items, child, id).value;
            && Rows(cat, p) == ListRows(items, child.schema, Rows(cat, child))
            && SchemaNames(p.schema) == Numbered(ColumnNames(items), id)
  {
    hide PlanList, EvalAll, BoundKey;
    var p := PlanSelectList(items, child, id).value;
    ProjectionRows(cat, p);
    var rows := Rows(cat, child);
    forall i | 0 <= i < |rows| ensures EvalAll(p.op.exprs, rows[i]) == BoundKey(items, child.schema, rows[i]) {
      PlannedKey(items, child.schema, rows[i]);
    }
    var ps := PlanList(items, [child.schema], [], 0).value;
    forall i | 0 <= i < |items| ensures NamedTypes(ps)[i].name == ColumnName(items[i]) {
      PlannedNames(items, [child.schema], [], 0, i);
    }
    assert SchemaNames(NamedTypes(ps)) == ColumnNames(items);
  }

  lemma OverNames(having: Option<Bound>, items: seq<Bound>, agg: Plan, groupCount: nat, n: nat)
    requires PlanOver(having, items, agg, groupCount, n).Ok?
    ensures SchemaNames(PlanOver(having, items, agg, groupCount, n).value.schema) == ColumnNames(items)
  {
    Lowering.OverAsList(having, items, agg, groupCount, n);
    hide PlanOver, PlanList, ColumnName, Slots;
    var es, skip := HavingList(having) + items, |HavingList(having)|;
    var all := PlanList(es, [agg.schema], Slots(groupCount, n), 0).value;
    forall i | 0 <= i < |items| ensures NamedTypes(all[skip..])[i].name == ColumnName(items[i]) {
      PlannedNames(es, [agg.schema], Slots(groupCount, n), 0, skip + i);
      assert es[skip + i] == items[i];
    }
  }

  lemma {:induction false} LoweredNames(groupBys: seq<Bound>, having: Option<Bound>, items: seq<Bound>, child: Plan)
    requires LowerAgg(groupBys, having, items, child).Ok?
    ensures SchemaNames(LowerAgg(groupBys, having, items, child).value.schema) == ColumnNames(items)
  {
    hide PlanList, PlanCalls, PlanOver, ColumnNames, SchemaNames, CollectAll;
    CollectsAllCalls(HavingList(having) + items);
    var groups := PlanList(groupBys, [child.schema], [], 0).value;
    var aggs := PlanCalls(Calls(having, items), child.schema).value;
    OverNames(having, items, AggNode(groups, aggs, child), |groupBys|, |aggs|);
  }

  /** The select list or the aggregation, columns by name. */
  lemma SelectedMeans(cat: Catalog, q: Body, items: seq<Bound>, child: Plan, named: Schema)
    requires PlanSelected(q, items, child).Ok? && SameNames(child.schema, named)
    requires Lowering.NoAliases(q.groupBys) && Lowering.AllQualified(HavingList(q.having) + items)
    ensures var p := PlanSelected(q, items, child).value;
            && Rows(cat, p) == SelectedRows(q, items, named, Rows(cat, child))
            && SchemaNames(p.schema) == OutputNames(q, items)
  {
    hide PlanSelectList, LowerAgg, Groups, GroupRows, ListRows, SameNames, Rows, Numbered,
      Lowering.NoAliases, Lowering.AllQualified;
    if IsAggregate(q, items) {
      Lowering.LowerAggMeans(cat, q.groupBys, q.having, items, child);
      LoweredNames(q.groupBys, q.having, items, child);
      GroupsByName(q.groupBys, child.schema, named, Rows(cat, child));
      GroupRowsByName(q.having, items, child.schema, named, Groups(q.groupBys, named, Rows(cat, child)));
    } else {
      ListMeans(cat, items, child, q.outputId);
      ListRowsByName(items, child.schema, named, Rows(cat, child));
    }
  }

  // ---------------------------------------------------------------- distinct

  lemma IdentityKey(schema: Schema, row: Row)
    requires |row| == |schema|
    ensures EvalAll(AllOf(schema), row) == row
  {
  }

  lemma {:induction false} KeysAreRows(schema: Schema, rows: seq<Row>, n: nat)
    requires Wide(rows, |schema|) && n <= |rows|
    ensures GroupKeys(AllOf(schema), rows, n) == DistinctRows(rows, n)
  {
    hide EvalAll;
    if n > 0 {
      KeysAreRows(schema, rows, n - 1);
      IdentityKey(schema, rows[n - 1]);
    }
  }

  lemma DistinctMeans(cat: Catalog, distinct: bool, child: Plan)
    requires CatalogOk(cat) && WellFormed(cat, child) && child.schema != []
    ensures Rows(cat, PlanDistinct(distinct, child)) == DistinctIf(distinct, Rows(cat, child))
  {
    if distinct {
      var rows, es := Rows(cat, child), AllOf(child.schema);
      RowsMatchSchema(cat, child);
      KeysAreRows(child.schema, rows, |rows|);
      assert KidRows(cat, PlanDistinct(distinct, child))[0] == rows;
      assert es != [];
      var made := AggregateRows(es, [], [], rows);
      forall i | 0 <= i < |made| ensures made[i] == GroupKeys(es, rows, |rows|)[i] {
        assert made[i] == AggregateRow(GroupKeys(es, rows, |rows|)[i], [], [],
                                       GroupOf(es, GroupKeys(es, rows, |rows|)[i], rows));
      }
      assert made == GroupKeys(es, rows, |rows|);
    }
  }

  // ---------------------------------------------------------------- order by

  /** Comparing rows by the planned sort expressions is comparing their rows of key values. */
  lemma {:induction false} BeforeByKeys(sort: seq<OrderBy>, exprs: seq<Expr>, from: nat, a: Row, b: Row,
                                        ka: Row, kb: Row)
    requires |exprs| == |sort| && |ka| == |kb| == from + |sort|
    requires forall i :: 0 <= i < |sort| ==> ka[from + i] == Eval(exprs[i], a) && kb[from + i] == Eval(exprs[i], b)
    ensures RowBefore(Orders(sort, exprs), a, b) == RowBefore(KeyOrders(sort, from), ka, kb)
    decreases |sort|
  {
    hide SortsBefore;
    if sort != [] {
      assert Orders(sort, exprs)[1..] == Orders(sort[1..], exprs[1..]);
      assert KeyOrders(sort, from)[1..] == KeyOrders(sort[1..], from + 1);
      assert Eval(Column(0, from, INTEGER), ka) == ka[from] && Eval(Column(0, from, INTEGER), kb) == kb[from];
      assert ka[from + 0] == Eval(exprs[0], a) && kb[from + 0] == Eval(exprs[0], b);
      forall i | 0 <= i < |sort| - 1
        ensures ka[from + 1 + i] == Eval(exprs[1..][i], a) && kb[from + 1 + i] == Eval(exprs[1..][i], b)
      {
        assert ka[from + (i + 1)] == Eval(exprs[i + 1], a) && kb[from + (i + 1)] == Eval(exprs[i + 1], b);
      }
      BeforeByKeys(sort[1..], exprs[1..], from + 1, a, b, ka, kb);
    }
  }

  /** Two row sequences that compare alike position by position. */
  ghost predicate CompareAlike(f: seq<(OrderType, Expr)>, rows: seq<Row>, g: seq<(OrderType, Expr)>, keys: seq<Row>) {
    && |rows| == |keys|
    && forall i, j :: 0 <= i < |rows| && 0 <= j < |rows|
         ==> RowBefore(f, rows[i], rows[j]) == RowBefore(g, keys[i], keys[j])
  }

  lemma {:induction false} InsertAlike(f: seq<(OrderType, Expr)>, rows: seq<Row>, g: seq<(OrderType, Expr)>,
                                       keys: seq<Row>, listed: seq<nat>, p: nat)
    requires CompareAlike(f, rows, g, keys) && InRange(listed, |rows|) && p < |rows|
    ensures InsertPosition(f, rows, listed, p) == InsertPosition(g, keys, listed, p)
    decreases |listed|
  {
    hide RowBefore;
    if listed != [] {
      InsertAlike(f, rows, g, keys, listed[..|listed| - 1], p);
    }
  }

  lemma {:induction false} SortAlike(f: seq<(OrderType, Expr)>, rows: seq<Row>, g: seq<(OrderType, Expr)>,
                                     keys: seq<Row>, n: nat)
    requires CompareAlike(f, rows, g, keys) && n <= |rows|
    ensures SortPositions(f, rows, n) == SortPositions(g, keys, n)
  {
    hide RowBefore, InsertPosition, CompareAlike;
    if n > 0 {
      SortAlike(f, rows, g, keys, n - 1);
      InsertAlike(f, rows, g, keys, SortPositions(f, rows, n - 1), n - 1) by { SameCount(f, rows, g, keys); }
    }
  }

  lemma SameCount(f: seq<(OrderType, Expr)>, rows: seq<Row>, g: seq<(OrderType, Expr)>, keys: seq<Row>)
    requires CompareAlike(f, rows, g, keys)
    ensures |rows| == |keys|
  {
  }

  lemma SortByName(sort: seq<OrderBy>, schema: Schema, named: Schema, rows: seq<Row>)
    requires PlanList(SortKeys(sort), [schema], [], 0).Ok? && SameNames(schema, named) && sort != []
    ensures SortRows(Orders(sort, Exprs(PlanList(SortKeys(sort), [schema], [], 0).value)), rows)
            == NamedSort(sort, named, rows)
  {
    hide PlanList, BoundKey, EvalAll, RowBefore, SortPositions, SameNames;
    var es := SortKeys(sort);
    var exprs := Exprs(PlanList(es, [schema], [], 0).value);
    var keys := ListRows(es, named, rows);
    forall i | 0 <= i < |rows| ensures keys[i] == EvalAll(exprs, rows[i]) {
      PlannedKey(es, schema, rows[i]);
      KeyByName(es, schema, named, rows[i]);
    }
    forall i, j | 0 <= i < |rows| && 0 <= j < |rows|
      ensures RowBefore(Orders(sort, exprs), rows[i], rows[j]) == RowBefore(KeyOrders(sort, 0), keys[i], keys[j])
    {
      KeysCompare(sort, exprs, rows[i], rows[j]);
    }
    SortAlike(Orders(sort, exprs), rows, KeyOrders(sort, 0), keys, |rows|);
  }

  lemma KeysCompare(sort: seq<OrderBy>, exprs: seq<Expr>, a: Row, b: Row)
    requires |exprs| == |sort|
    ensures RowBefore(Orders(sort, exprs), a, b)
            == RowBefore(KeyOrders(sort, 0), EvalAll(exprs, a), EvalAll(exprs, b))
  {
    hide RowBefore;
    BeforeByKeys(sort, exprs, 0, a, b, EvalAll(exprs, a), EvalAll(exprs, b));
  }

  lemma SortMeans(cat: Catalog, sort: seq<OrderBy>, child: Plan, named: Schema)
    requires PlanSort(sort, child).Ok? && SameNames(child.schema, named)
    ensures Rows(cat, PlanSort(sort, child).value) == NamedSort(sort, named, Rows(cat, child))
  {
    hide PlanList, NamedSort, SortRows, SameNames;
    if sort != [] {
      SortByName(sort, child.schema, named, Rows(cat, child));
      assert KidRows(cat, PlanSort(sort, child).value)[0] == Rows(cat, child);
    } else {
      NoSort(named, Rows(cat, child));
    }
  }

  lemma NoSort(named: Schema, rows: seq<Row>)
    ensures NamedSort([], named, rows) == rows
  {
  }

  lemma LimitMeans(cat: Catalog, limit: Option<Bound>, offset: Option<Bound>, child: Plan)
    requires PlanLimit(limit, offset, child).Ok?
    ensures Rows(cat, PlanLimit(limit, offset, child).value) == LimitRows(limit, Rows(cat, child))
  {
    if limit.Some? {
      assert KidRows(cat, PlanLimit(limit, offset, child).value)[0] == Rows(cat, child);
    }
  }

  // ---------------------------------------------------------------- every stage is well-formed

  predicate TrueOuterJoin(p: Plan) {
    Optimizer.TrueJoin(p.op) && !p.op.join.INNER?
  }

  /** Well-formed, and if `inner` without a constant-true outer join anywhere. */
  ghost predicate Safe(cat: Catalog, inner: bool, p: Plan) {
    Lowering.Ready(cat, p) && (inner ==> Optimizer.Nowhere(p, TrueOuterJoin))
  }

  lemma {:induction false} PeelInner(p: Plan)
    requires Optimizer.Nowhere(p, TrueOuterJoin)
    ensures Optimizer.InnerIfTrue(Optimizer.Peel(p).op)
    decreases p
  {
    if Optimizer.Removable(p) {
      PeelInner(p.children[0]);
    }
  }

  /** Without constant-true outer joins the merge rule is safe on every filter. */
  lemma {:induction false} PlannableIfInner(p: Plan)
    requires Optimizer.Nowhere(p, TrueOuterJoin)
    ensures Optimizer.Plannable(p)
    decreases p
  {
    forall i | 0 <= i < |p.children| ensures Optimizer.Plannable(p.children[i]) {
      PlannableIfInner(p.children[i]);
    }
    if p.op.Filter? && |p.children| == 1 {
      PeelInner(p.children[0]);
    }
  }

  lemma NoJoinHere(op: Op, schema: Schema, child: Plan)
    requires !op.NestedLoopJoin?
    ensures Optimizer.Nowhere(child, TrueOuterJoin) ==> Optimizer.Nowhere(Plan(op, schema, [child]), TrueOuterJoin)
  {
  }

  lemma WhereSafe(cat: Catalog, inner: bool, where: Option<Bound>, child: Plan)
    requires Safe(cat, inner, child) && PlanWhere(where, child).Ok?
    ensures Safe(cat, inner, PlanWhere(where, child).value)
  {
    hide PlanExpr, Lowering.Ready, Optimizer.Nowhere;
    if where.Some? {
      NoJoinHere(Filter(PlanExpr(where.value, [child.schema], [], 0).value.expr), child.schema, child);
    }
    WhereReady(cat, where, child);
  }

  lemma RenameReady(cat: Catalog, p: Plan, schema: Schema)
    requires Lowering.Ready(cat, p) && |schema| == |p.schema|
    ensures Lowering.Ready(cat, p.(schema := schema))
  {
    var r := p.(schema := schema);
    assert r.children == p.children;
  }

  lemma ListSafe(cat: Catalog, inner: bool, items: seq<Bound>, child: Plan, id: nat)
    requires Safe(cat, inner, child) && PlanSelectList(items, child, id).Ok?
    ensures Safe(cat, inner, PlanSelectList(items, child, id).value)
  {
    hide PlanList, Lowering.Ready, Optimizer.Nowhere;
    var p, r := PlanItems(items, child).value, PlanSelectList(items, child, id).value;
    ItemsReady(cat, items, child);
    RenameReady(cat, p, r.schema);
    NoJoinHere(r.op, r.schema, child);
  }

  lemma LoweredSafe(cat: Catalog, inner: bool, groupBys: seq<Bound>, having: Option<Bound>, items: seq<Bound>,
                    child: Plan)
    requires Safe(cat, inner, child) && LowerAgg(groupBys, having, items, child).Ok?
    ensures Safe(cat, inner, LowerAgg(groupBys, having, items, child).value)
  {
    hide PlanList, PlanCalls, Lowering.Ready, Optimizer.Nowhere;
    Lowering.LowerAggReady(cat, groupBys, having, items, child);
    CollectsAllCalls(HavingList(having) + items);
    var groups := PlanList(groupBys, [child.schema], [], 0).value;
    var aggs := PlanCalls(Calls(having, items), child.schema).value;
    var agg := AggNode(groups, aggs, child);
    Lowering.OverAsList(having, items, agg, |groupBys|, |aggs|);
    NoJoinHere(agg.op, agg.schema, child);
    var plan := LowerAgg(groupBys, having, items, child).value;
    if having.Some? {
      NoJoinHere(plan.children[0].op, agg.schema, agg);
    }
    NoJoinHere(plan.op, plan.schema, plan.children[0]);
  }

  lemma SelectedSafe(cat: Catalog, inner: bool, q: Body, items: seq<Bound>, child: Plan)
    requires Safe(cat, inner, child) && PlanSelected(q, items, child).Ok?
    ensures Safe(cat, inner, PlanSelected(q, items, child).value)
  {
    hide Safe, LowerAgg, PlanSelectList;
    if IsAggregate(q, items) {
      LoweredSafe(cat, inner, q.groupBys, q.having, items, child);
    } else {
      ListSafe(cat, inner, items, child, q.outputId);
    }
  }

  lemma DistinctSafe(cat: Catalog, inner: bool, distinct: bool, child: Plan)
    requires Safe(cat, inner, child)
    ensures Safe(cat, inner, PlanDistinct(distinct, child)) && PlanDistinct(distinct, child).schema == child.schema
  {
    if distinct {
      var p := PlanDistinct(distinct, child);
      NoJoinHere(p.op, p.schema, child);
      assert Counts(p.children)[0] == |child.schema| && p.children[0] == child;
    }
  }

  lemma SortSafe(cat: Catalog, inner: bool, sort: seq<OrderBy>, child: Plan)
    requires Safe(cat, inner, child) && PlanSort(sort, child).Ok?
    ensures Safe(cat, inner, PlanSort(sort, child).value) && PlanSort(sort, child).value.schema == child.schema
  {
    hide PlanList;
    if sort != [] {
      var p := PlanSort(sort, child).value;
      Lowering.ListFits(SortKeys(sort), child.schema, [], 0);
      NoJoinHere(p.op, p.schema, child);
      assert Counts(p.children)[0] == |child.schema| && p.children[0] == child;
    }
  }

  lemma LimitSafe(cat: Catalog, inner: bool, limit: Option<Bound>, offset: Option<Bound>, child: Plan)
    requires Safe(cat, inner, child) && PlanLimit(limit, offset, child).Ok?
    ensures var p := PlanLimit(limit, offset, child).value;
            Safe(cat, inner, p) && p.schema == child.schema
  {
    if limit.Some? {
      var p := PlanLimit(limit, offset, child).value;
      NoJoinHere(p.op, p.schema, child);
      assert Counts(p.children)[0] == |child.schema| && p.children[0] == child;
    }
  }

  // ---------------------------------------------------------------- the whole statement

  /** What the binder guarantees: no alias in GROUP BY, qualified columns in HAVING and the select list. */
  predicate Bindable(q: Body, items: seq<Bound>) {
    Lowering.NoAliases(q.groupBys) && Lowering.AllQualified(HavingList(q.having) + items)
  }

  lemma WellFormedIfSafe(cat: Catalog, inner: bool, p: Plan)
    requires Safe(cat, inner, p)
    ensures WellFormed(cat, p)
  {
  }

  lemma ByNames(a: Schema, names: seq<string>)
    requires SchemaNames(a) == names
    ensures SameNames(a, NameSchema(names))
  {
    assert forall i :: 0 <= i < |a| ==> SchemaNames(a)[i] == names[i];
  }

  /** The planned statement produces the statement's rows, and is well-formed. */
  lemma BodyMeans(cat: Catalog, inner: bool, q: Body, input: Plan, names: seq<seq<string>>)
    requires CatalogOk(cat) && Safe(cat, inner, input) && NamesAgree(names, input.schema)
    requires Bindable(q, ListItems(q.list, names)) && PlanBody(q, input, names).Ok?
    ensures var p := PlanBody(q, input, names).value;
            && Safe(cat, inner, p) && |p.schema| == |ListItems(q.list, names)|
            && Rows(cat, p) == BodyRows(q, names, Rows(cat, input))
  {
    hide PlanWhere, PlanSelected, PlanDistinct, PlanSort, PlanLimit, SelectedRows, NamedFilter, DistinctIf, NamedSort,
      LimitRows, Rows, Safe, CatalogOk, WellFormed, SameNames, OutputNames, Lowering.NoAliases, Lowering.AllQualified;
    var items, named := ListItems(q.list, names), StarSchema(names);
    var filtered := PlanWhere(q.where, input).value;
    WhereSafe(cat, inner, q.where, input);
    WhereRows(cat, q.where, input, named);
    assert SameNames(filtered.schema, named) by { WhereNames(q.where, input, names); }
    var selected := PlanSelected(q, items, filtered).value;
    SelectedSafe(cat, inner, q, items, filtered);
    SelectedMeans(cat, q, items, filtered, named);
    ByNames(selected.schema, OutputNames(q, items));
    var distinct := PlanDistinct(q.distinct, selected);
    DistinctSafe(cat, inner, q.distinct, selected);
    WellFormedIfSafe(cat, inner, selected);
    assert |selected.schema| == |SchemaNames(selected.schema)|;
    DistinctMeans(cat, q.distinct, selected);
    var sorted := PlanSort(q.sort, distinct).value;
    SortSafe(cat, inner, q.sort, distinct);
    SortMeans(cat, q.sort, distinct, NameSchema(OutputNames(q, items)));
    LimitSafe(cat, inner, q.limit, q.offset, sorted);
    LimitMeans(cat, q.limit, q.offset, sorted);
  }

  lemma WhereNames(where: Option<Bound>, input: Plan, names: seq<seq<string>>)
    requires NamesAgree(names, input.schema) && PlanWhere(where, input).Ok?
    ensures SameNames(PlanWhere(where, input).value.schema, StarSchema(names))
  {
    hide PlanExpr;
  }
}

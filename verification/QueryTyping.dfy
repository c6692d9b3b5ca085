/**
 * Which nested queries the planner accepts: exactly those that are well-typed at every
 * level and reference no common table expression with aggregate calls twice.
 */
module QueryTyping {
  import opened Common
  import opened Expressions
  import opened Plans
  import opened Binding
  import opened Aggregates
  import opened FromClause
  import opened Selects
  import opened Queries
  import Lowering

  /** The columns of a statement or FROM tree: under planner names with types, and under the binder's names. */
  datatype Typed = Typed(schema: Schema, names: seq<seq<string>>)

  // ---------------------------------------------------------------- one statement

  /** The columns the select list is read from: the input's, or those of the aggregation. */
  function ListSchema(q: Body, items: seq<Bound>, schema: Schema): Schema {
    if IsAggregate(q, items) then Lowering.QuerySchema(q.groupBys, schema, |Calls(q.having, items)|) else schema
  }

  function ItemType(item: Bound, schema: Schema): TypeId {
    if TypeOfBound(item, schema).Some? then TypeOfBound(item, schema).value else INTEGER
  }

  function OutputSchema(q: Body, items: seq<Bound>, schema: Schema): (r: Schema)
    ensures |r| == |items|
  {
    var names := OutputNames(q, items);
    seq(|items|, i requires 0 <= i < |items| => ColumnInfo(names[i], ItemType(items[i], ListSchema(q, items, schema))))
  }

  ghost predicate ListTyped(q: Body, items: seq<Bound>, schema: Schema) {
    if IsAggregate(q, items) then Lowering.QueryOk(q.groupBys, q.having, items, schema)
    else Lowering.AllTyped(items, schema)
  }

  /** A well-typed expression without aggregate calls. */
  predicate PlainTyped(e: Bound, schema: Schema) {
    TypeOfBound(e, schema).Some? && Collect(e) == []
  }

  /** The columns of a well-typed statement over an input. */
  ghost function TypeBody(q: Body, input: Typed): Option<Schema> {
    var items := ListItems(q.list, input.names);
    var output := OutputSchema(q, items, input.schema);
    if && items != []
       && (q.where.Some? ==> PlainTyped(q.where.value, input.schema))
       && ListTyped(q, items, input.schema)
       && Lowering.AllTyped(SortKeys(q.sort), output) && CollectAll(SortKeys(q.sort)) == []
       && (q.limit.Some? ==> LimitOf(q.limit.value).Ok?) && q.offset.None?
    then Some(output) else None
  }

  lemma WhereTypes(where: Option<Bound>, child: Plan)
    ensures PlanWhere(where, child).Ok? <==> (where.Some? ==> PlainTyped(where.value, child.schema))
    ensures PlanWhere(where, child).Ok? ==> PlanWhere(where, child).value.schema == child.schema
  {
    hide PlanExpr, TypeOfBound, Collect;
    if where.Some? {
      PlansExactly(where.value, child.schema, [], 0);
    }
  }

  lemma {:induction false} PlannedTypes(es: seq<Bound>, schema: Schema, slots: seq<Expr>, next: nat, i: nat)
    requires PlanList(es, [schema], slots, next).Ok? && IntegerSlots(slots) && i < |es|
    ensures TypeOfBound(es[i], schema) == Some(TypeOf(PlanList(es, [schema], slots, next).value[i].expr))
  {
    hide PlanExpr, TypeOfBound, IntegerSlots, Collect;
    PlansExactly(es[0], schema, slots, next);
    if i > 0 {
      PlannedTypes(es[1..], schema, slots, PlanExpr(es[0], [schema], slots, next).value.next, i - 1);
    }
  }

  lemma SlotsAreIntegers(groupCount: nat, n: nat)
    ensures IntegerSlots(Slots(groupCount, n)) && IntegerSlots([])
  {
  }

  lemma {:induction false} LoweredTypes(groupBys: seq<Bound>, having: Option<Bound>, items: seq<Bound>, child: Plan,
                                        i: nat)
    requires LowerAgg(groupBys, having, items, child).Ok? && i < |items|
    ensures var inner := Lowering.QuerySchema(groupBys, child.schema, |Calls(having, items)|);
            var schema := LowerAgg(groupBys, having, items, child).value.schema;
            |schema| == |items| && TypeOfBound(items[i], inner) == Some(schema[i].ty)
  {
    hide PlanList, PlanCalls, TypeOfBound, Lowering.QuerySchema, CollectAll;
    CollectsAllCalls(HavingList(having) + items);
    var groups := PlanList(groupBys, [child.schema], [], 0).value;
    var aggs := PlanCalls(Calls(having, items), child.schema).value;
    Lowering.QuerySchemaAgrees(groupBys, child.schema, |aggs|);
    OverTypes(having, items, AggNode(groups, aggs, child), |groupBys|, |aggs|, i);
  }

  lemma {:induction false} OverTypes(having: Option<Bound>, items: seq<Bound>, agg: Plan, groupCount: nat, n: nat,
                                     i: nat)
    requires PlanOver(having, items, agg, groupCount, n).Ok? && i < |items|
    ensures var schema := PlanOver(having, items, agg, groupCount, n).value.schema;
            |schema| == |items| && TypeOfBound(items[i], agg.schema) == Some(schema[i].ty)
  {
    Lowering.OverAsList(having, items, agg, groupCount, n);
    hide PlanOver, PlanList, TypeOfBound, Slots;
    var es, skip := HavingList(having) + items, |HavingList(having)|;
    SlotsAreIntegers(groupCount, n);
    PlannedTypes(es, agg.schema, Slots(groupCount, n), 0, skip + i);
    assert es[skip + i] == items[i];
  }

  lemma {:induction false} SelectedTypes(q: Body, items: seq<Bound>, child: Plan)
    ensures PlanSelected(q, items, child).Ok? <==> ListTyped(q, items, child.schema)
    ensures PlanSelected(q, items, child).Ok?
            ==> PlanSelected(q, items, child).value.schema == OutputSchema(q, items, child.schema)
  {
    hide LowerAgg, PlanSelectList, Lowering.QueryOk, Lowering.AllTyped, Lowering.QuerySchema, TypeOfBound, CollectAll;
    if IsAggregate(q, items) {
      Lowering.LowersExactly(q.groupBys, q.having, items, child);
      if LowerAgg(q.groupBys, q.having, items, child).Ok? {
        LoweredNames(q.groupBys, q.having, items, child);
        forall i | 0 <= i < |items| {
          LoweredTypes(q.groupBys, q.having, items, child, i);
        }
        SchemaIs(q, items, child.schema, LowerAgg(q.groupBys, q.having, items, child).value.schema);
      }
    } else {
      ListTypes(q, items, child);
    }
  }

  lemma SchemaIs(q: Body, items: seq<Bound>, schema: Schema, made: Schema)
    requires SchemaNames(made) == OutputNames(q, items)
    requires forall i :: 0 <= i < |made| ==> TypeOfBound(items[i], ListSchema(q, items, schema)) == Some(made[i].ty)
    ensures made == OutputSchema(q, items, schema)
  {
    hide TypeOfBound, ListSchema, OutputNames;
    forall i | 0 <= i < |made| ensures made[i] == OutputSchema(q, items, schema)[i] {
      assert SchemaNames(made)[i] == OutputNames(q, items)[i];
    }
  }

  lemma {:induction false} ListTypes(q: Body, items: seq<Bound>, child: Plan)
    requires !IsAggregate(q, items)
    ensures var p := PlanSelectList(items, child, q.outputId);
            && (p.Ok? <==> Lowering.AllTyped(items, child.schema))
            && (p.Ok? ==> p.value.schema == OutputSchema(q, items, child.schema))
  {
    hide PlanList, Lowering.AllTyped, TypeOfBound, Numbered;
    var p := PlanSelectList(items, child, q.outputId);
    Lowering.ListPlansExactly(items, child.schema, [], 0);
    if p.Ok? {
      var ps := PlanList(items, [child.schema], [], 0).value;
      forall i | 0 <= i < |items| ensures NamedTypes(ps)[i].name == ColumnName(items[i]) {
        PlannedNames(items, [child.schema], [], 0, i);
      }
      assert SchemaNames(NamedTypes(ps)) == ColumnNames(items);
      forall i | 0 <= i < |items| ensures TypeOfBound(items[i], child.schema) == Some(p.value.schema[i].ty) {
        SlotsAreIntegers(0, 0);
        PlannedTypes(items, child.schema, [], 0, i);
      }
      assert SchemaNames(p.value.schema) == Numbered(ColumnNames(items), q.outputId);
      SchemaIs(q, items, child.schema, p.value.schema);
    }
  }

  lemma SortTypes(sort: seq<OrderBy>, child: Plan)
    ensures PlanSort(sort, child).Ok?
            <==> Lowering.AllTyped(SortKeys(sort), child.schema) && CollectAll(SortKeys(sort)) == []
    ensures PlanSort(sort, child).Ok? ==> PlanSort(sort, child).value.schema == child.schema
  {
    hide PlanList, TypeOfBound;
    SlotsAreIntegers(0, 0);
    Lowering.ListPlansExactly(SortKeys(sort), child.schema, [], 0);
  }

  /** A statement over a planned input is planned exactly when it is well-typed, with the columns of its type. */
  lemma BodyTypes(q: Body, input: Plan, names: seq<seq<string>>)
    ensures var t := TypeBody(q, Typed(input.schema, names));
            && (PlanBody(q, input, names).Ok? <==> t.Some?)
            && (t.Some? ==> PlanBody(q, input, names).value.schema == t.value)
  {
    hide PlanWhere, PlanSelected, PlanSort, ListTyped, PlainTyped, OutputSchema, Lowering.AllTyped, ListItems, LimitOf,
      CollectAll;
    var items := ListItems(q.list, names);
    WhereTypes(q.where, input);
    if PlanWhere(q.where, input).Ok? {
      SelectedTypes(q, items, PlanWhere(q.where, input).value);
      var selected := PlanSelected(q, items, PlanWhere(q.where, input).value);
      if selected.Ok? {
        SortTypes(q.sort, PlanDistinct(q.distinct, selected.value));
      }
    }
  }

  // ---------------------------------------------------------------- nested statements

  /** A statement's columns under the name of a reference to it. */
  function Under(alias: string, t: Typed): (r: Typed)
    requires |t.names| == |t.schema|
    ensures |r.schema| == |r.names|
  {
    Typed(seq(|t.schema|, i requires 0 <= i < |t.schema|
                => ColumnInfo(alias + "." + Dotted(t.names[i]), t.schema[i].ty)),
          Prefixed(alias, t.names))
  }

  ghost function TypeFrom(cat: Catalog, from: From, scope: seq<Cte>): (r: Option<Typed>)
    decreases FromSize(from) + CtesSize(scope)
  {
    match from
    case FromTable(table, alias, columns) =>
      if table in cat.oids && ("__" <= table ==> "__mock" <= table) then
        Some(Typed(InferScanSchema(BoundTableName(table, alias), columns),
                   GetAllColumns(BaseTable(table, alias, columns))))
      else None
    case FromProduct(left, right) =>
      var l, r := TypeFrom(cat, left, scope), TypeFrom(cat, right, scope);
      if l.Some? && r.Some? then Some(Typed(l.value.schema + r.value.schema, l.value.names + r.value.names)) else None
    case FromJoin(_, left, right, condition) =>
      var l, r := TypeFrom(cat, left, scope), TypeFrom(cat, right, scope);
      if l.Some? && r.Some? && TypeOfCondition(condition, l.value.schema, r.value.schema).Some?
      then Some(Typed(l.value.schema + r.value.schema, l.value.names + r.value.names)) else None
    case FromQuery(query, alias) =>
      var t := TypeQuery(cat, query, scope);
      if t.Some? then Some(Under(alias, t.value)) else None
    case FromCte(name, boundName) =>
      var i := FindCte(scope, name);
      if i.None? then None
      else
        CteSize(scope, i.value);
        var t := TypeQuery(cat, scope[i.value].query, []);
        if t.Some? then Some(Under(boundName, t.value)) else None
  }

  /** The columns of a well-typed query. */
  ghost function TypeQuery(cat: Catalog, q: Query, outer: seq<Cte>): (r: Option<Typed>)
    ensures r.Some? ==> |r.value.schema| == |r.value.names|
    decreases QuerySize(q) + CtesSize(outer)
  {
    var input := if q.from.None? then Some(Typed([], []))
                 else TypeFrom(cat, q.from.value, if q.ctes == [] then outer else q.ctes);
    if input.None? || (q.from.None? && q.body.list.AllColumns?) then None
    else
      var t := TypeBody(q.body, input.value);
      if t.None? then None else Some(Typed(t.value, ItemNames(ListItems(q.body.list, input.value.names), q.itemId)))
  }

  /** The planned FROM tree against its type. */
  ghost predicate FromHasType(cat: Catalog, from: From, scope: seq<Cte>) {
    var ref, t := FreshFrom(cat, from, scope), TypeFrom(cat, from, scope);
    && (ref.Ok? && PlanTableRef(cat, ref.value).Ok? <==> t.Some?)
    && (t.Some? ==> t.value == Typed(PlanTableRef(cat, ref.value).value.schema, GetAllColumns(ref.value)))
  }

  ghost predicate QueryHasType(cat: Catalog, q: Query, outer: seq<Cte>) {
    var a, t := FreshQuery(cat, q, outer), TypeQuery(cat, q, outer);
    && (a.Ok? <==> t.Some?)
    && (t.Some? ==> t.value == Typed(a.value.plan.schema, a.value.names))
  }

  lemma {:induction false} FromTypes(cat: Catalog, from: From, scope: seq<Cte>)
    ensures FromHasType(cat, from, scope)
    decreases FromSize(from) + CtesSize(scope)
  {
    hide FromHasType, QueryHasType;
    match from
    case FromTable(_, _, _) => TableTypes(cat, from, scope);
    case FromProduct(left, right) =>
      FromTypes(cat, left, scope);
      FromTypes(cat, right, scope);
      ProductTypes(cat, from, scope);
    case FromJoin(_, left, right, condition) =>
      FromTypes(cat, left, scope);
      FromTypes(cat, right, scope);
      JoinTypes(cat, from, scope);
    case FromQuery(query, alias) =>
      QueryTypes(cat, query, scope);
      SubTypes(cat, from, scope);
    case FromCte(name, boundName) =>
      var i := FindCte(scope, name);
      if i.Some? {
        CteSize(scope, i.value);
        QueryTypes(cat, scope[i.value].query, []);
      }
      CteTypes(cat, from, scope);
  }

  lemma TableTypes(cat: Catalog, from: From, scope: seq<Cte>)
    requires from.FromTable?
    ensures FromHasType(cat, from, scope)
  {
    hide GetAllColumns;
  }

  lemma ProductTypes(cat: Catalog, from: From, scope: seq<Cte>)
    requires from.FromProduct? && FromHasType(cat, from.left, scope) && FromHasType(cat, from.right, scope)
    ensures FromHasType(cat, from, scope)
  {
    hide PlanSubquery, InferScanSchema;
  }

  lemma SubTypes(cat: Catalog, from: From, scope: seq<Cte>)
    requires from.FromQuery? && QueryHasType(cat, from.query, scope)
    ensures FromHasType(cat, from, scope)
  {
    hide FreshQuery, TypeQuery;
  }

  lemma CteTypes(cat: Catalog, from: From, scope: seq<Cte>)
    requires from.FromCte?
    requires var i := FindCte(scope, from.cteName); i.Some? ==> QueryHasType(cat, scope[i.value].query, [])
    ensures FromHasType(cat, from, scope)
  {
    hide FreshQuery, TypeQuery;
  }

  lemma JoinTypes(cat: Catalog, from: From, scope: seq<Cte>)
    requires from.FromJoin? && FromHasType(cat, from.left, scope) && FromHasType(cat, from.right, scope)
    ensures FromHasType(cat, from, scope)
  {
    hide PlanExpr, TypeOfCondition;
    var l, r := TypeFrom(cat, from.left, scope), TypeFrom(cat, from.right, scope);
    if l.Some? && r.Some? {
      ConditionPlansExactly(from.condition, l.value.schema, r.value.schema, 0);
    }
  }

  lemma {:induction false} QueryTypes(cat: Catalog, q: Query, outer: seq<Cte>)
    ensures QueryHasType(cat, q, outer)
    decreases QuerySize(q) + CtesSize(outer)
  {
    hide PlanBody, TypeBody, PlanTableRef, GetAllColumns, ItemNames, ListItems;
    if q.from.None? {
      BodyTypes(q.body, OneEmptyRow(), []);
    } else {
      var scope := if q.ctes == [] then outer else q.ctes;
      FromTypes(cat, q.from.value, scope);
      var ref := FreshFrom(cat, q.from.value, scope);
      if ref.Ok? && PlanTableRef(cat, ref.value).Ok? {
        BodyTypes(q.body, PlanTableRef(cat, ref.value).value, GetAllColumns(ref.value));
      }
    }
  }

  /** The planner accepts a query, however its statements nest, exactly when it is well-typed at every level and no
      common table expression with aggregate calls is referenced twice; the plan has the columns of its type. */
  lemma QueryPlansExactly(cat: Catalog, q: Query)
    ensures PlanQuery(cat, q, []).Ok? <==> TypeQuery(cat, q, []).Some? && QueryOnce(q)
    ensures PlanQuery(cat, q, []).Ok? ==>
              var a := PlanQuery(cat, q, []).value.answer;
              TypeQuery(cat, q, []).value == Typed(a.plan.schema, a.names)
  {
    hide PlanQuery, FreshQuery, TypeQuery, QueryOnce;
    QueryTypes(cat, q, []);
    PlansLikeScratch(cat, q);
  }

  // ---------------------------------------------------------------- an expression with a call, referenced twice

  function CountBody(): Body {
    Body(None, Items([Alias("n", AggCall("count_star", false, []))]), [], None, false, [], None, None, 0)
  }

  /** `WITH c AS (SELECT count(*) AS n FROM t) SELECT * FROM` over the given references to `c`. */
  function OverCount(t: string, columns: Schema, from: From): Query {
    Query([Cte("c", Query([], Some(FromTable(t, None, columns)), CountBody(), 0))], Some(from),
          Body(None, AllColumns, [], None, false, [], None, None, 0), 0)
  }

  function DoubledCount(t: string, columns: Schema): Query {
    OverCount(t, columns, FromProduct(FromCte("c", "a"), FromCte("c", "b")))
  }

  lemma CountTypes(input: Typed)
    ensures TypeBody(CountBody(), input) == Some([ColumnInfo("n", INTEGER)])
  {
    var q, call := CountBody(), AggCall("count_star", false, []);
    var items := [Alias("n", call)];
    assert ListItems(q.list, input.names) == items && items[1..] == [];
    assert CollectAll(items) == Collect(items[0]) + CollectAll([]) == [call];
    assert HavingList(None) + items == items && Calls(None, items) == [call];
    assert IsAggregate(q, items);
    assert Lowering.CallsOk([call], input.schema);
    var inner := Lowering.QuerySchema([], input.schema, 1);
    assert TypeOfBound(items[0], inner) == Some(INTEGER);
    assert Lowering.QueryOk([], None, items, input.schema);
    assert OutputSchema(q, items, input.schema) == [ColumnInfo("n", INTEGER)];
  }

  /** A reference to the expression has one column. */
  lemma ReferenceTypes(cat: Catalog, q: Query, t: string, columns: Schema, alias: string)
    requires t in cat.oids && !("__" <= t) && q.ctes == DoubledCount(t, columns).ctes
    ensures TypeFrom(cat, FromCte("c", alias), q.ctes)
            == Some(Typed([ColumnInfo(alias + "." + "n", INTEGER)], [[alias, "n"]]))
  {
    hide TypeBody;
    var c, from := q.ctes[0].query, FromTable(t, None, columns);
    var input := TypeFrom(cat, from, []).value;
    CountTypes(input);
    CteSize(q.ctes, 0);
    assert FindCte(q.ctes, "c") == Some(0);
    var items := CountBody().list.items;
    assert items[..0] == [] && ItemNames(items[..0], 0) == [];
    assert ItemNames(items, 0) == [["n"]];
    var inner := Typed([ColumnInfo("n", INTEGER)], [["n"]]);
    assert TypeQuery(cat, c, []) == Some(inner);
    assert [alias] + ["n"] == [alias, "n"];
    assert Dotted(["n"]) == "n" && Prefixed(alias, [["n"]]) == [[alias, "n"]];
    assert Under(alias, inner) == Typed([ColumnInfo(alias + "." + "n", INTEGER)], [[alias, "n"]]);
  }

  lemma StarOverTwo(schema: Schema, names: seq<seq<string>>)
    requires schema == [ColumnInfo("a" + "." + "n", INTEGER), ColumnInfo("b" + "." + "n", INTEGER)]
    requires names == [["a", "n"], ["b", "n"]]
    ensures TypeBody(Body(None, AllColumns, [], None, false, [], None, None, 0), Typed(schema, names)).Some?
  {
    var q, items := Body(None, AllColumns, [], None, false, [], None, None, 0), Refs(names);
    RefsHaveNoCalls(names);
    assert ["a", "n"][1..] == ["n"] && ["b", "n"][1..] == ["n"] && Dotted(["n"]) == "n";
    assert Dotted(["a", "n"]) == "a" + "." + "n" && Dotted(["b", "n"]) == "b" + "." + "n";
    assert ("a" + "." + "n")[0] != ("b" + "." + "n")[0];
    forall i | 0 <= i < 2 ensures TypeOfBound(items[i], schema).Some? {
      assert DistinctNames(schema);
      DistinctOccursOnce(schema, schema[i].name);
      OccursAt(schema, schema[i].name, i);
    }
    assert !IsAggregate(q, items) && Lowering.AllTyped(items, schema);
  }

  /** The second reference to an expression with an aggregate call cannot be planned, although the query is well-typed
      and each of its statements can be planned from scratch. */
  lemma {:induction false} DoubledCteRefused(cat: Catalog, t: string, columns: Schema)
    requires t in cat.oids && !("__" <= t)
    ensures TypeQuery(cat, DoubledCount(t, columns), []).Some? && FreshQuery(cat, DoubledCount(t, columns), []).Ok?
    ensures PlanQuery(cat, DoubledCount(t, columns), []).Err?
  {
    var q := DoubledCount(t, columns);
    ReferenceTypes(cat, q, t, columns, "a");
    ReferenceTypes(cat, q, t, columns, "b");
    hide TypeBody, PlanQuery, FreshQuery;
    var from := TypeFrom(cat, q.from.value, q.ctes);
    var schema := [ColumnInfo("a" + "." + "n", INTEGER), ColumnInfo("b" + "." + "n", INTEGER)];
    assert [schema[0]] + [schema[1]] == schema && [["a", "n"]] + [["b", "n"]] == [["a", "n"], ["b", "n"]];
    assert from == Some(Typed(schema, [["a", "n"], ["b", "n"]]));
    StarOverTwo(schema, [["a", "n"], ["b", "n"]]);
    QueryTypes(cat, q, []);
    NotOnce(t, columns);
    QueryPlansExactly(cat, q);
  }

  lemma NotOnce(t: string, columns: Schema)
    ensures !QueryOnce(DoubledCount(t, columns))
  {
    var q := DoubledCount(t, columns);
    assert FindCte(q.ctes, "c") == Some(0);
    assert Mentions(q.from.value, q.ctes) == [0, 0];
    var c, items := q.ctes[0].query, CountBody().list.items;
    assert items[1..] == [] && HavingList(None) + items == items;
    assert CollectAll(items) == Collect(items[0]) + CollectAll([]);
    assert BodyCalls(c.body) != [];
    assert !QueryCallFree(c);
    assert [0, 0][1..] == [0];
    assert !Fine(q.ctes, {0}, [0]);
    assert {} + {0} == {0};
  }
}

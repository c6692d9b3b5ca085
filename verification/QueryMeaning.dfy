/**
 * What a nested query means, read by column name, and the proof that the planned query
 * produces exactly those rows, and still does when it is optimized.
 */
module QueryMeaning {
  import opened Common
  import opened Expressions
  import opened Relations
  import opened Plans
  import opened Binding
  import opened Aggregates
  import opened FromClause
  import opened Selects
  import opened Queries
  import Lowering
  import Optimizer

  // ---------------------------------------------------------------- what a query means

  /** Rows under column names. */
  datatype Rel = Rel(names: seq<seq<string>>, rows: seq<Row>)

  datatype NamedRel = NamedRel(name: string, rel: Rel)

  function FindRel(rels: seq<NamedRel>, name: string): Option<Rel> {
    if rels == [] then None else if rels[0].name == name then Some(rels[0].rel) else FindRel(rels[1..], name)
  }

  function TableNames(bound: string, columns: Schema): (r: seq<seq<string>>)
    ensures |r| == |columns| && forall i :: 0 <= i < |r| ==> r[i] == [bound, columns[i].name]
  {
    seq(|columns|, i requires 0 <= i < |columns| => [bound, columns[i].name])
  }

  function BaseRows(cat: Catalog, table: string): seq<Row> {
    if "__mock" <= table then (if table in cat.mocks then cat.mocks[table] else [])
    else if table in cat.oids then TableRows(cat, cat.oids[table]) else []
  }

  function JoinRel(join: JoinType, l: Rel, r: Rel, condition: Bound): Rel {
    var picks := NamedPicks(condition, StarSchema(l.names + r.names), l.rows, r.rows);
    Rel(l.names + r.names, JoinRows(join, l.rows, r.rows, picks, |l.names|, |r.names|))
  }

  function FromRel(cat: Catalog, from: From, scope: seq<NamedRel>): Rel
    decreases from
  {
    match from
    case FromTable(table, alias, columns) =>
      Rel(TableNames(BoundTableName(table, alias), columns), BaseRows(cat, table))
    case FromProduct(left, right) =>
      var l, r := FromRel(cat, left, scope), FromRel(cat, right, scope);
      Rel(l.names + r.names, Product(l.rows, r.rows))
    case FromJoin(join, left, right, condition) =>
      JoinRel(join, FromRel(cat, left, scope), FromRel(cat, right, scope), condition)
    case FromQuery(query, alias) =>
      var inner := QueryRel(cat, query, scope);
      Rel(Prefixed(alias, inner.names), inner.rows)
    case FromCte(name, boundName) =>
      var cte := FindRel(scope, name);
      if cte.None? then Rel([], []) else Rel(Prefixed(boundName, cte.value.names), cte.value.rows)
  }

  function CteRels(cat: Catalog, ctes: seq<Cte>): seq<NamedRel>
    decreases ctes
  {
    if ctes == [] then []
    else [NamedRel(ctes[0].name, QueryRel(cat, ctes[0].query, []))] + CteRels(cat, ctes[1..])
  }

  /** The query's rows: inner queries first, every column by name. */
  function QueryRel(cat: Catalog, q: Query, outer: seq<NamedRel>): Rel
    decreases q
  {
    var scope := if q.ctes == [] then outer else CteRels(cat, q.ctes);
    var from := if q.from.None? then Rel([], [[]]) else FromRel(cat, q.from.value, scope);
    Rel(ItemNames(ListItems(q.body.list, from.names), q.itemId), BodyRows(q.body, from.names, from.rows))
  }

  // ---------------------------------------------------------------- what the binder guarantees

  /** Base tables are the catalog's. */
  ghost predicate FromBound(cat: Catalog, from: From)
    decreases from
  {
    match from
    case FromTable(table, alias, columns) => RefOk(cat, BaseTable(table, alias, columns))
    case FromProduct(left, right) => FromBound(cat, left) && FromBound(cat, right)
    case FromJoin(_, left, right, _) => FromBound(cat, left) && FromBound(cat, right)
    case FromQuery(query, _) => QueryBound(cat, query)
    case FromCte(_, _) => true
  }

  ghost predicate CtesBound(cat: Catalog, ctes: seq<Cte>)
    decreases ctes
  {
    ctes != [] ==> QueryBound(cat, ctes[0].query) && CtesBound(cat, ctes[1..])
  }

  ghost predicate QueryBound(cat: Catalog, q: Query)
    decreases q
  {
    && CtesBound(cat, q.ctes)
    && (q.from.Some? ==> FromBound(cat, q.from.value))
    && Bindable(q.body, if q.body.list.Items? then q.body.list.items else [])
  }

  // ---------------------------------------------------------------- queries without outer joins on the constant true

  /** The condition is the constant true, under any aliases. */
  predicate TrueCondition(e: Bound) {
    match e
    case Constant(v) => v == Bool(true)
    case Alias(_, child) => TrueCondition(child)
    case _ => false
  }

  predicate FromInner(from: From)
    decreases from
  {
    match from
    case FromTable(_, _, _) => true
    case FromProduct(left, right) => FromInner(left) && FromInner(right)
    case FromJoin(join, left, right, condition) =>
      FromInner(left) && FromInner(right) && (TrueCondition(condition) ==> join.INNER?)
    case FromQuery(query, _) => QueryInner(query)
    case FromCte(_, _) => true
  }

  predicate CtesInner(ctes: seq<Cte>)
    decreases ctes
  {
    ctes != [] ==> QueryInner(ctes[0].query) && CtesInner(ctes[1..])
  }

  /** No outer join on the constant true at any depth. */
  predicate QueryInner(q: Query)
    decreases q
  {
    CtesInner(q.ctes) && (q.from.Some? ==> FromInner(q.from.value))
  }

  // ---------------------------------------------------------------- the planned query means the query

  ghost predicate NoEmptyName(names: seq<seq<string>>) {
    forall i :: 0 <= i < |names| ==> names[i] != []
  }

  /** The plan is safe to optimize, names its columns and has the rows of `rel`. */
  ghost predicate Means(cat: Catalog, inner: bool, plan: Plan, names: seq<seq<string>>, rel: Rel) {
    && Safe(cat, inner, plan) && |names| == |plan.schema| && NoEmptyName(names)
    && rel == Rel(names, Rows(cat, plan))
  }

  lemma {:induction false} TrueOnlyIfTrue(e: Bound, l: Schema, r: Schema)
    requires PlanExpr(e, [l, r], [], 0).Ok? && PlanExpr(e, [l, r], [], 0).value.expr == Const(Bool(true))
    ensures TrueCondition(e)
  {
    match e
    case Alias(_, child) => TrueOnlyIfTrue(child, l, r);
    case _ =>
  }

  /** No constant-true outer join in the tree or in a planned inner statement. */
  ghost predicate RefSafe(ref: TableRef) {
    match ref
    case BaseTable(_, _, _) => true
    case CrossProduct(l, r) => RefSafe(l) && RefSafe(r)
    case JoinOn(join, l, r, condition) =>
      RefSafe(l) && RefSafe(r) && (TrueCondition(condition) ==> join.INNER?)
    case Subquery(sub) => Optimizer.Nowhere(sub.body, TrueOuterJoin)
  }

  lemma JoinSafe(l: Plan, r: Plan, pred: Expr, join: JoinType)
    requires Optimizer.Nowhere(l, TrueOuterJoin) && Optimizer.Nowhere(r, TrueOuterJoin)
    requires pred == Const(Bool(true)) ==> join.INNER?
    ensures Optimizer.Nowhere(Plan(NestedLoopJoin(pred, join), l.schema + r.schema, [l, r]), TrueOuterJoin)
  {
  }

  lemma {:induction false} RefPlanSafe(cat: Catalog, ref: TableRef)
    requires RefSafe(ref) && PlanTableRef(cat, ref).Ok?
    ensures Optimizer.Nowhere(PlanTableRef(cat, ref).value, TrueOuterJoin)
  {
    hide PlanExpr, Optimizer.Nowhere;
    match ref
    case BaseTable(table, alias, columns) => LeafSafe(PlanTableRef(cat, ref).value);
    case CrossProduct(left, right) =>
      RefPlanSafe(cat, left);
      RefPlanSafe(cat, right);
      JoinSafe(PlanTableRef(cat, left).value, PlanTableRef(cat, right).value, Const(Bool(true)), INNER);
    case JoinOn(join, left, right, condition) =>
      RefPlanSafe(cat, left);
      RefPlanSafe(cat, right);
      var l, r := PlanTableRef(cat, left).value, PlanTableRef(cat, right).value;
      var c := PlanExpr(condition, [l.schema, r.schema], [], 0).value.expr;
      if c == Const(Bool(true)) {
        TrueOnlyIfTrue(condition, l.schema, r.schema);
      }
      JoinSafe(l, r, c, join);
    case Subquery(sub) =>
      var p := PlanTableRef(cat, ref).value;
      NoJoinHere(p.op, p.schema, sub.body);
  }

  lemma LeafSafe(p: Plan)
    requires p.children == [] && !p.op.NestedLoopJoin?
    ensures Optimizer.Nowhere(p, TrueOuterJoin)
  {
  }

  /** A resolved FROM tree names the columns and describes the rows of the query's tree. */
  ghost predicate RefMeans(cat: Catalog, inner: bool, ref: TableRef, rel: Rel) {
    && RefOk(cat, ref) && AllNamed(ref) && (inner ==> RefSafe(ref))
    && (PlanTableRef(cat, ref).Ok? ==>
          && GetAllColumns(ref) == rel.names && FromRows(cat, ref) == rel.rows
          && LongNames(rel.names))
  }

  ghost predicate LongNames(names: seq<seq<string>>) {
    forall i :: 0 <= i < |names| ==> |names[i]| >= 2
  }

  lemma PrefixedLong(alias: string, names: seq<seq<string>>)
    requires NoEmptyName(names)
    ensures LongNames(Prefixed(alias, names))
  {
  }

  lemma SubMeans(cat: Catalog, inner: bool, sub: Sub, rel: Rel)
    requires Means(cat, inner, sub.body, sub.names, rel)
    ensures RefMeans(cat, inner, Subquery(sub), Rel(Prefixed(sub.alias, rel.names), rel.rows))
  {
    hide Lowering.Ready, Optimizer.Nowhere, Rows;
    PrefixedLong(sub.alias, sub.names);
  }

  lemma PairMeans(cat: Catalog, inner: bool, l: TableRef, r: TableRef, a: Rel, b: Rel)
    requires RefMeans(cat, inner, l, a) && RefMeans(cat, inner, r, b)
    ensures RefMeans(cat, inner, CrossProduct(l, r), Rel(a.names + b.names, Product(a.rows, b.rows)))
  {
  }

  lemma JoinedMeans(cat: Catalog, inner: bool, join: JoinType, l: TableRef, r: TableRef, condition: Bound,
                    a: Rel, b: Rel)
    requires RefMeans(cat, inner, l, a) && RefMeans(cat, inner, r, b)
    requires inner && TrueCondition(condition) ==> join.INNER?
    ensures RefMeans(cat, inner, JoinOn(join, l, r, condition), JoinRel(join, a, b, condition))
  {
    hide PlanExpr, JoinRows, NamedPicks;
  }

  lemma TableMeans(cat: Catalog, inner: bool, table: string, alias: Option<string>, columns: Schema)
    requires RefOk(cat, BaseTable(table, alias, columns))
    ensures RefMeans(cat, inner, BaseTable(table, alias, columns),
                     Rel(TableNames(BoundTableName(table, alias), columns), BaseRows(cat, table)))
  {
    var ref := BaseTable(table, alias, columns);
    assert GetAllColumns(ref) == TableNames(BoundTableName(table, alias), columns);
  }

  /** The planned FROM clause: safe, named and with the rows of the query's FROM clause. */
  ghost predicate InputMeans(cat: Catalog, inner: bool, input: Answer, rel: Rel) {
    && Safe(cat, inner, input.plan) && NamesAgree(input.names, input.plan.schema) && LongNames(input.names)
    && rel == Rel(input.names, Rows(cat, input.plan))
  }

  lemma RefInput(cat: Catalog, inner: bool, ref: TableRef, rel: Rel)
    requires CatalogOk(cat) && RefMeans(cat, inner, ref, rel) && PlanTableRef(cat, ref).Ok?
    ensures InputMeans(cat, inner, Answer(PlanTableRef(cat, ref).value, GetAllColumns(ref)), rel)
  {
    hide PlanTableRef, Lowering.Ready, Optimizer.Nowhere, Rows, RefOk, AllNamed, RefSafe, FromRows, GetAllColumns,
      CatalogOk;
    FromReady(cat, ref);
    if inner {
      RefPlanSafe(cat, ref);
    }
    StarNamesAgree(cat, ref);
    FromMeans(cat, ref);
  }

  lemma NoFromInput(cat: Catalog, inner: bool)
    ensures InputMeans(cat, inner, Answer(OneEmptyRow(), []), Rel([], [[]]))
  {
    LeafSafe(OneEmptyRow());
    assert Rows(cat, OneEmptyRow()) == [[]];
  }

  lemma ItemsNamed(items: seq<Bound>, id: nat)
    requires Lowering.AllQualified(items)
    ensures NoEmptyName(ItemNames(items, id))
  {
    if items != [] {
      var front := items[..|items| - 1];
      ItemsNamed(front, id);
      assert Lowering.Qualified(items[|items| - 1]);
    }
  }

  /** A star over long names is a list of qualified columns. */
  lemma ListBindable(q: Body, names: seq<seq<string>>)
    requires LongNames(names) && Bindable(q, if q.list.Items? then q.list.items else [])
    ensures Bindable(q, ListItems(q.list, names)) && Lowering.AllQualified(ListItems(q.list, names))
  {
    var items, having := ListItems(q.list, names), HavingList(q.having);
    var given := having + if q.list.Items? then q.list.items else [];
    forall i | 0 <= i < |items| ensures Lowering.Qualified(items[i]) {
      if q.list.Items? {
        assert given[|having| + i] == items[i];
      }
    }
    forall i | 0 <= i < |having| ensures Lowering.Qualified(having[i]) {
      assert given[i] == having[i];
    }
  }

  lemma AnswerMeans(cat: Catalog, inner: bool, q: Body, input: Answer, rel: Rel, id: nat)
    requires CatalogOk(cat) && InputMeans(cat, inner, input, rel) && PlanBody(q, input.plan, input.names).Ok?
    requires Bindable(q, if q.list.Items? then q.list.items else [])
    ensures var items := ListItems(q.list, rel.names);
            Means(cat, inner, PlanBody(q, input.plan, input.names).value, ItemNames(items, id),
                  Rel(ItemNames(items, id), BodyRows(q, rel.names, rel.rows)))
  {
    hide PlanBody, BodyRows, Safe, Bindable, Rows, CatalogOk, Lowering.AllQualified, ListItems, NoEmptyName;
    ListBindable(q, input.names);
    BodyMeans(cat, inner, q, input.plan, input.names);
    ItemsNamed(ListItems(q.list, input.names), id);
  }

  /** The expression of that name, found alike by the planner and in the meaning. */
  lemma {:induction false} FindMeans(cat: Catalog, ctes: seq<Cte>, name: string)
    ensures var i := FindCte(ctes, name);
            FindRel(CteRels(cat, ctes), name)
            == if i.Some? then Some(QueryRel(cat, ctes[i.value].query, [])) else None
  {
    hide QueryRel;
    if ctes != [] {
      FindMeans(cat, ctes[1..], name);
      var rest := CteRels(cat, ctes[1..]);
      assert CteRels(cat, ctes)[1..] == rest;
    }
  }

  lemma {:induction false} CteBound(cat: Catalog, ctes: seq<Cte>, i: nat)
    requires CtesBound(cat, ctes) && i < |ctes|
    ensures QueryBound(cat, ctes[i].query) && (CtesInner(ctes) ==> QueryInner(ctes[i].query))
  {
    if i > 0 {
      CteBound(cat, ctes[1..], i - 1);
    }
  }

  lemma NothingBound(cat: Catalog)
    ensures CtesBound(cat, []) && CtesInner([]) && CteRels(cat, []) == []
  {
  }

  /** By induction over the nesting: every inner statement first, a reference to an expression by its statement. */
  lemma {:induction false} ScratchFromMeans(cat: Catalog, inner: bool, from: From, ctes: seq<Cte>)
    requires CatalogOk(cat) && FromBound(cat, from) && CtesBound(cat, ctes) && FreshFrom(cat, from, ctes).Ok?
    requires inner ==> FromInner(from) && CtesInner(ctes)
    ensures RefMeans(cat, inner, FreshFrom(cat, from, ctes).value, FromRel(cat, from, CteRels(cat, ctes)))
    decreases FromSize(from) + CtesSize(ctes)
  {
    hide RefMeans, Means, CatalogOk, FreshQuery, QueryRel, JoinRel, Product, RefOk, CtesBound, CtesInner, CteRels;
    var scope := CteRels(cat, ctes);
    match from
    case FromTable(table, alias, columns) => TableMeans(cat, inner, table, alias, columns);
    case FromProduct(left, right) =>
      ScratchFromMeans(cat, inner, left, ctes);
      ScratchFromMeans(cat, inner, right, ctes);
      PairMeans(cat, inner, FreshFrom(cat, left, ctes).value, FreshFrom(cat, right, ctes).value,
                FromRel(cat, left, scope), FromRel(cat, right, scope));
    case FromJoin(join, left, right, condition) =>
      ScratchFromMeans(cat, inner, left, ctes);
      ScratchFromMeans(cat, inner, right, ctes);
      JoinedMeans(cat, inner, join, FreshFrom(cat, left, ctes).value, FreshFrom(cat, right, ctes).value, condition,
                  FromRel(cat, left, scope), FromRel(cat, right, scope));
    case FromQuery(query, alias) =>
      ScratchMeans(cat, inner, query, ctes);
      var a := FreshQuery(cat, query, ctes).value;
      SubMeans(cat, inner, Sub(a.plan, a.names, alias), QueryRel(cat, query, scope));
    case FromCte(name, boundName) =>
      FindMeans(cat, ctes, name);
      var i := FindCte(ctes, name).value;
      CteSize(ctes, i);
      CteBound(cat, ctes, i);
      NothingBound(cat);
      ScratchMeans(cat, inner, ctes[i].query, []);
      var a := FreshQuery(cat, ctes[i].query, []).value;
      SubMeans(cat, inner, Sub(a.plan, a.names, boundName), QueryRel(cat, ctes[i].query, []));
  }

  lemma {:induction false} ScratchMeans(cat: Catalog, inner: bool, q: Query, outer: seq<Cte>)
    requires CatalogOk(cat) && QueryBound(cat, q) && CtesBound(cat, outer) && FreshQuery(cat, q, outer).Ok?
    requires inner ==> QueryInner(q) && CtesInner(outer)
    ensures var a := FreshQuery(cat, q, outer).value;
            Means(cat, inner, a.plan, a.names, QueryRel(cat, q, CteRels(cat, outer)))
    decreases QuerySize(q) + CtesSize(outer)
  {
    hide Means, RefMeans, Safe, NamesAgree, CteRels, FreshFrom, FromRel, FromBound, CtesBound, FromInner, CtesInner,
      PlanBody, PlanTableRef, GetAllColumns, BodyRows, Bindable, ItemNames, ListItems, CatalogOk, OneEmptyRow;
    var ctes := if q.ctes == [] then outer else q.ctes;
    if q.from.Some? {
      ScratchFromMeans(cat, inner, q.from.value, ctes);
      var ref := FreshFrom(cat, q.from.value, ctes).value;
      var rel := FromRel(cat, q.from.value, CteRels(cat, ctes));
      RefInput(cat, inner, ref, rel);
      AnswerMeans(cat, inner, q.body, Answer(PlanTableRef(cat, ref).value, GetAllColumns(ref)), rel, q.itemId);
    } else {
      NoFromInput(cat, inner);
      AnswerMeans(cat, inner, q.body, Answer(OneEmptyRow(), []), Rel([], [[]]), q.itemId);
    }
  }

  /** Whenever the planner accepts a query, its plan produces exactly the rows the query describes. */
  lemma QueryMeans(cat: Catalog, q: Query)
    requires CatalogOk(cat) && QueryBound(cat, q) && PlanQuery(cat, q, []).Ok?
    ensures var a, rel := PlanQuery(cat, q, []).value.answer, QueryRel(cat, q, []);
            && Rows(cat, a.plan) == rel.rows && a.names == rel.names && |a.names| == |a.plan.schema|
            && WellFormed(cat, a.plan) && Optimizer.Unfiltered(a.plan)
  {
    hide PlanQuery, FreshQuery, QueryRel, QueryBound, CatalogOk, Rows, WellFormed, Optimizer.Unfiltered;
    PlansLikeScratch(cat, q);
    NothingBound(cat);
    ScratchMeans(cat, false, q, []);
  }

  /** A query without an outer join on the constant true is planned into a plan the merge rule is safe on. */
  lemma QueryPlannable(cat: Catalog, q: Query)
    requires CatalogOk(cat) && QueryBound(cat, q) && QueryInner(q) && PlanQuery(cat, q, []).Ok?
    ensures Optimizer.Plannable(PlanQuery(cat, q, []).value.answer.plan)
  {
    hide PlanQuery, FreshQuery, QueryRel, QueryBound, QueryInner, Rows, CatalogOk, Optimizer.Nowhere,
      Optimizer.Plannable;
    PlansLikeScratch(cat, q);
    NothingBound(cat);
    ScratchMeans(cat, true, q, []);
    PlannableIfInner(PlanQuery(cat, q, []).value.answer.plan);
  }

  /** End to end: an accepted query, however its statements nest, is planned and optimized into a plan with exactly
      the query's rows in the query's order; only the cast of a constant join predicate can make that fail. */
  lemma OptimizedQueryMeans(cat: Catalog, q: Query, forceStarterRule: bool)
    requires CatalogOk(cat) && QueryBound(cat, q) && PlanQuery(cat, q, []).Ok?
    requires Optimizer.Plannable(PlanQuery(cat, q, []).value.answer.plan)
    ensures var plan := PlanQuery(cat, q, []).value.answer.plan;
            var optimized := Optimizer.Optimize(cat, forceStarterRule, plan);
            && (optimized.Ok? <==> Optimizer.Nowhere(Optimizer.MergeProjection(plan), Optimizer.CastThrows))
            && (optimized.Ok? ==>
                  Rows(cat, optimized.value) == QueryRel(cat, q, []).rows && optimized.value.schema == plan.schema)
  {
    hide PlanQuery, QueryRel, QueryBound, Optimizer.Optimize, Optimizer.MergeProjection, Rows, WellFormed,
      Optimizer.Unfiltered, Optimizer.Plannable, Optimizer.Nowhere, CatalogOk;
    QueryMeans(cat, q);
    Optimizer.PipelineKeepsRows(cat, PlanQuery(cat, q, []).value.answer.plan, forceStarterRule);
  }
}

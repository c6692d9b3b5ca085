/**
 * FROM trees: the binder expands `SELECT *` into column names, the planner turns the
 * same tree into a plan, and the two walk it independently.  They are proved to name
 * the same columns in the same places, so the star's projection is the identity, and
 * the planned tree is proved to mean what the tree says with columns read by name.
 */
module FromClause {
  import opened Common
  import opened Expressions
  import opened Relations
  import opened Plans
  import opened Binding
  import opened Aggregates
  import opened Naming
  import Lowering
  import Optimizer
  import FilterJoin

  /** A bound subquery: the plan of its select statement, a name per select item, an alias. */
  datatype Sub = Sub(body: Plan, names: seq<seq<string>>, alias: string)

  datatype TableRef =
    | BaseTable(table: string, alias: Option<string>, columns: Schema)
    | CrossProduct(left: TableRef, right: TableRef)
    | JoinOn(join: JoinType, left: TableRef, right: TableRef, condition: Bound)
    | Subquery(sub: Sub)

  function BoundTableName(table: string, alias: Option<string>): string {
    if alias.Some? then alias.value else table
  }

  // ---------------------------------------------------------------- the binder's star expansion

  /** A column keeps its parts, an alias names itself, anything else gets a generated name. */
  function ItemName(item: Bound, id: nat): (name: seq<string>)
    ensures name != [] || item == ColumnRef([])
  {
    match item
    case ColumnRef(parts) => parts
    case Alias(alias, _) => [alias]
    case _ => [UNNAMED_ITEM + Digits(id)]
  }

  /** One name per select item; only generated names advance the counter. */
  function ItemNames(items: seq<Bound>, id: nat): (names: seq<seq<string>>)
    ensures |names| == |items|
  {
    if items == [] then []
    else
      var front := items[..|items| - 1];
      ItemNames(front, id) + [ItemName(items[|items| - 1], id + Unnamed(front))]
  }

  /** The naming loop of BindSubquery, with its running counter. */
  method SelectListNames(items: seq<Bound>, universalId: nat) returns (names: seq<seq<string>>, nextId: nat)
    ensures names == ItemNames(items, universalId) && nextId == universalId + Unnamed(items)
  {
    names, nextId := [], universalId;
    for i := 0 to |items|
      invariant names == ItemNames(items[..i], universalId) && nextId == universalId + Unnamed(items[..i])
    {
      NamesStep(items, i, universalId);
      names := names + [ItemName(items[i], nextId)];
      if !items[i].ColumnRef? && !items[i].Alias? {
        nextId := nextId + 1;
      }
    }
    assert items[..|items|] == items;
  }

  lemma NamesStep(items: seq<Bound>, i: nat, id: nat)
    requires i < |items|
    ensures Unnamed(items[..i + 1])
            == Unnamed(items[..i]) + (if items[i].ColumnRef? || items[i].Alias? then 0 else 1)
    ensures ItemNames(items[..i + 1], id)
            == ItemNames(items[..i], id) + [ItemName(items[i], id + Unnamed(items[..i]))]
  {
    assert items[..i + 1][..i] == items[..i];
  }

  /** A star's select list is named by its own column names. */
  lemma {:induction false} StarItemNames(names: seq<seq<string>>, id: nat)
    ensures ItemNames(Refs(names), id) == names
  {
    if names != [] {
      var front := names[..|names| - 1];
      assert Refs(names)[..|names| - 1] == Refs(front);
      StarItemNames(front, id);
    }
  }

  /** How many items have no name of their own. */
  function Unnamed(items: seq<Bound>): nat {
    if items == [] then 0
    else
      var last := items[|items| - 1];
      Unnamed(items[..|items| - 1]) + (if last.ColumnRef? || last.Alias? then 0 else 1)
  }

  function Prefixed(alias: string, names: seq<seq<string>>): (r: seq<seq<string>>)
    ensures |r| == |names| && forall i :: 0 <= i < |names| ==> r[i] == [alias] + names[i]
  {
    seq(|names|, i requires 0 <= i < |names| => [alias] + names[i])
  }

  function GetAllColumns(ref: TableRef): seq<seq<string>> {
    match ref
    case BaseTable(table, alias, columns) =>
      seq(|columns|, i requires 0 <= i < |columns| => [BoundTableName(table, alias), columns[i].name])
    case CrossProduct(l, r) => GetAllColumns(l) + GetAllColumns(r)
    case JoinOn(_, l, r, _) => GetAllColumns(l) + GetAllColumns(r)
    case Subquery(sub) => Prefixed(sub.alias, sub.names)
  }

  // ---------------------------------------------------------------- the planner's walk

  function InferScanSchema(bound: string, columns: Schema): (r: Schema)
    ensures |r| == |columns|
    ensures forall i :: 0 <= i < |r| ==> r[i] == ColumnInfo(bound + "." + columns[i].name, columns[i].ty)
  {
    seq(|columns|, i requires 0 <= i < |columns| => ColumnInfo(bound + "." + columns[i].name, columns[i].ty))
  }

  function PlanBaseTable(cat: Catalog, table: string, alias: Option<string>, columns: Schema): Result<Plan> {
    var schema := InferScanSchema(BoundTableName(table, alias), columns);
    if table !in cat.oids then Err("table not found")
    else if "__mock" <= table then Ok(Plan(MockScan(table), schema, []))
    else if "__" <= table then Err("unsupported internal table")
    else Ok(Plan(SeqScan(cat.oids[table], table, None), schema, []))
  }

  /** The projection that only renames: column i under the name alias.name. */
  function PlanSubquery(sub: Sub, alias: string): Result<Plan> {
    var columns := sub.body.schema;
    if |sub.names| != |columns| then Err("mismatched number of columns")
    else Ok(Plan(Projection(seq(|columns|, i requires 0 <= i < |columns| => Column(0, i, columns[i].ty))),
                 seq(|columns|, i requires 0 <= i < |columns|
                       => ColumnInfo(alias + "." + Dotted(sub.names[i]), columns[i].ty)),
                 [sub.body]))
  }

  function PlanTableRef(cat: Catalog, ref: TableRef): Result<Plan> {
    match ref
    case BaseTable(table, alias, columns) => PlanBaseTable(cat, table, alias, columns)
    case CrossProduct(left, right) =>
      var l, r := PlanTableRef(cat, left), PlanTableRef(cat, right);
      if l.Err? then l else if r.Err? then r
      else Ok(Plan(NestedLoopJoin(Const(Bool(true)), INNER), l.value.schema + r.value.schema, [l.value, r.value]))
    case JoinOn(join, left, right, condition) =>
      var l, r := PlanTableRef(cat, left), PlanTableRef(cat, right);
      if l.Err? then l else if r.Err? then r
      else
        var c := PlanExpr(condition, [l.value.schema, r.value.schema], [], 0);
        if c.Err? then Err(c.reason)
        else Ok(Plan(NestedLoopJoin(c.value.expr, join), l.value.schema + r.value.schema, [l.value, r.value]))
    case Subquery(sub) => PlanSubquery(sub, sub.alias)
  }

  // ---------------------------------------------------------------- when a FROM tree can be planned

  function SubSchema(sub: Sub, alias: string): Schema {
    if |sub.names| != |sub.body.schema| then []
    else seq(|sub.names|, i requires 0 <= i < |sub.names|
               => ColumnInfo(alias + "." + Dotted(sub.names[i]), sub.body.schema[i].ty))
  }

  /** The columns of a FROM tree, read off the tree. */
  function RefSchema(ref: TableRef): Schema {
    match ref
    case BaseTable(table, alias, columns) => InferScanSchema(BoundTableName(table, alias), columns)
    case CrossProduct(l, r) => RefSchema(l) + RefSchema(r)
    case JoinOn(_, l, r, _) => RefSchema(l) + RefSchema(r)
    case Subquery(sub) => SubSchema(sub, sub.alias)
  }

  /** The type of a join condition: a column must be found on exactly one side. */
  function TypeOfCondition(e: Bound, left: Schema, right: Schema): Option<TypeId> {
    match e
    case ColumnRef(parts) =>
      var l, r := TryGetColIdx(left, Dotted(parts)), TryGetColIdx(right, Dotted(parts));
      if l.Some? && r.None? then Some(left[l.value].ty)
      else if l.None? && r.Some? then Some(right[r.value].ty)
      else None
    case Constant(v) => Some(if v.Bool? then BOOLEAN else INTEGER)
    case BinaryOp(op, larg, rarg) =>
      var l, r := TypeOfCondition(larg, left, right), TypeOfCondition(rarg, left, right);
      if l.Some? && r.Some? then BinaryType(op, l.value, r.value) else None
    case Alias(_, child) => TypeOfCondition(child, left, right)
    case AggCall(_, _, _) => None
    case Star => None
  }

  /** A join condition is planned exactly when it is well-typed over the two sides. */
  lemma {:induction false} ConditionPlansExactly(e: Bound, left: Schema, right: Schema, next: nat)
    ensures PlanExpr(e, [left, right], [], next).Ok? <==> TypeOfCondition(e, left, right).Some?
    ensures PlanExpr(e, [left, right], [], next).Ok?
            ==> TypeOfCondition(e, left, right) == Some(TypeOf(PlanExpr(e, [left, right], [], next).value.expr))
  {
    hide BinaryFromFactory, BinaryType;
    match e
    case BinaryOp(op, l, r) =>
      ConditionPlansExactly(l, left, right, next);
      var pl := PlanExpr(l, [left, right], [], next);
      if pl.Ok? {
        ConditionPlansExactly(r, left, right, pl.value.next);
        var pr := PlanExpr(r, [left, right], [], pl.value.next);
        if pr.Ok? {
          FactoryTypes(op, pl.value.expr, pr.value.expr);
        }
      }
    case Alias(_, child) => ConditionPlansExactly(child, left, right, next);
    case _ =>
  }

  predicate SubPlannable(sub: Sub) {
    |sub.names| == |sub.body.schema|
  }

  /** Known tables outside the reserved names, known CTEs, a name per subquery column, well-typed conditions. */
  predicate RefPlannable(cat: Catalog, ref: TableRef) {
    match ref
    case BaseTable(table, _, _) => table in cat.oids && ("__" <= table ==> "__mock" <= table)
    case CrossProduct(l, r) => RefPlannable(cat, l) && RefPlannable(cat, r)
    case JoinOn(_, l, r, condition) =>
      && RefPlannable(cat, l) && RefPlannable(cat, r)
      && TypeOfCondition(condition, RefSchema(l), RefSchema(r)).Some?
    case Subquery(sub) => SubPlannable(sub)
  }

  /** A FROM tree is planned exactly when it makes sense, and the plan has the tree's columns. */
  lemma {:induction false} FromPlansExactly(cat: Catalog, ref: TableRef)
    ensures PlanTableRef(cat, ref).Ok? <==> RefPlannable(cat, ref)
    ensures PlanTableRef(cat, ref).Ok? ==> PlanTableRef(cat, ref).value.schema == RefSchema(ref)
  {
    hide PlanExpr, TypeOfCondition;
    match ref
    case BaseTable(table, alias, columns) =>
    case CrossProduct(l, r) =>
      FromPlansExactly(cat, l);
      FromPlansExactly(cat, r);
    case JoinOn(_, l, r, condition) =>
      FromPlansExactly(cat, l);
      FromPlansExactly(cat, r);
      ConditionPlansExactly(condition, RefSchema(l), RefSchema(r), 0);
    case Subquery(sub) =>
  }

  // ---------------------------------------------------------------- star names are schema names

  /** Every select item of the subquery has a name. */
  predicate SubNamed(sub: Sub) {
    forall i :: 0 <= i < |sub.names| ==> sub.names[i] != []
  }

  predicate AllNamed(ref: TableRef) {
    match ref
    case BaseTable(_, _, _) => true
    case CrossProduct(l, r) => AllNamed(l) && AllNamed(r)
    case JoinOn(_, l, r, _) => AllNamed(l) && AllNamed(r)
    case Subquery(sub) => SubNamed(sub)
  }

  ghost predicate NamesAgree(names: seq<seq<string>>, schema: Schema) {
    |names| == |schema| && forall i :: 0 <= i < |names| ==> Dotted(names[i]) == schema[i].name
  }

  lemma DottedPrefix(alias: string, parts: seq<string>)
    requires parts != []
    ensures Dotted([alias] + parts) == alias + "." + Dotted(parts)
  {
    assert ([alias] + parts)[1..] == parts;
  }

  lemma SubqueryNames(sub: Sub, alias: string)
    requires SubNamed(sub) && PlanSubquery(sub, alias).Ok?
    ensures NamesAgree(Prefixed(alias, sub.names), PlanSubquery(sub, alias).value.schema)
  {
    forall i | 0 <= i < |sub.names|
      ensures Dotted(Prefixed(alias, sub.names)[i]) == PlanSubquery(sub, alias).value.schema[i].name
    {
      DottedPrefix(alias, sub.names[i]);
    }
  }

  /** Position by position, the expanded star names are the planned schema's column names. */
  lemma {:induction false} StarNamesAgree(cat: Catalog, ref: TableRef)
    requires PlanTableRef(cat, ref).Ok? && AllNamed(ref)
    ensures NamesAgree(GetAllColumns(ref), PlanTableRef(cat, ref).value.schema)
  {
    match ref
    case BaseTable(table, alias, columns) =>
      forall i | 0 <= i < |columns|
        ensures Dotted([BoundTableName(table, alias), columns[i].name])
                == BoundTableName(table, alias) + "." + columns[i].name
      {
        DottedPrefix(BoundTableName(table, alias), [columns[i].name]);
      }
    case CrossProduct(l, r) =>
      StarNamesAgree(cat, l);
      StarNamesAgree(cat, r);
    case JoinOn(_, l, r, _) =>
      StarNamesAgree(cat, l);
      StarNamesAgree(cat, r);
    case Subquery(sub) => SubqueryNames(sub, sub.alias);
  }

  // ---------------------------------------------------------------- the star's projection

  function Refs(names: seq<seq<string>>): (r: seq<Bound>)
    ensures |r| == |names| && forall i :: 0 <= i < |names| ==> r[i] == ColumnRef(names[i])
  {
    seq(|names|, i requires 0 <= i < |names| => ColumnRef(names[i]))
  }

  /** A select list of column references over a plan. */
  function PlanItems(items: seq<Bound>, child: Plan): Result<Plan> {
    var ps := PlanList(items, [child.schema], [], 0);
    if ps.Err? then Err(ps.reason) else Ok(Plan(Projection(Exprs(ps.value)), NamedTypes(ps.value), [child]))
  }

  lemma RefPlanned(parts: seq<string>, schema: Schema, i: nat)
    requires DistinctNames(schema) && i < |schema| && Dotted(parts) == schema[i].name
    ensures PlanExpr(ColumnRef(parts), [schema], [], 0)
            == Ok(Planned(schema[i].name, Column(0, i, schema[i].ty), 0))
  {
    DistinctOccursOnce(schema, schema[i].name);
    OneOccurrence(schema, schema[i].name, i);
  }

  lemma {:induction false} RefsPlanned(names: seq<seq<string>>, schema: Schema, from: nat)
    requires from <= |names| && NamesAgree(names, schema) && DistinctNames(schema)
    ensures var ps := PlanList(Refs(names)[from..], [schema], [], 0);
            && ps.Ok?
            && forall i :: 0 <= i < |names| - from
                 ==> ps.value[i] == Planned(schema[from + i].name, Column(0, from + i, schema[from + i].ty), 0)
    decreases |names| - from
  {
    hide PlanExpr, DistinctNames;
    if from < |names| {
      var refs := Refs(names);
      assert refs[from..][0] == refs[from] && refs[from..][1..] == refs[from + 1..];
      RefPlanned(names[from], schema, from);
      RefsPlanned(names, schema, from + 1);
      var rest := PlanList(refs[from + 1..], [schema], [], 0).value;
      var head := Planned(schema[from].name, Column(0, from, schema[from].ty), 0);
      assert PlanList(refs[from..], [schema], [], 0) == Ok([head] + rest);
      forall i | 0 <= i < |names| - from
        ensures ([head] + rest)[i] == Planned(schema[from + i].name, Column(0, from + i, schema[from + i].ty), 0)
      {
        if i > 0 {
          assert ([head] + rest)[i] == rest[i - 1];
        }
      }
    }
  }

  /** Over a plan with these distinct column names the list of all columns is the identity. */
  lemma AllColumnsIdentity(names: seq<seq<string>>, child: Plan)
    requires NamesAgree(names, child.schema) && DistinctNames(child.schema)
    ensures var star := PlanItems(Refs(names), child);
            star.Ok? && Optimizer.Removable(star.value) && star.value.schema == child.schema
  {
    RefsPlanned(names, child.schema, 0);
    assert Refs(names)[0..] == Refs(names);
  }

  lemma {:induction false} PlannedRef(items: seq<Bound>, schema: Schema, i: nat)
    requires PlanList(items, [schema], [], 0).Ok? && i < |items| && items[i].ColumnRef?
    ensures Occurrences(schema, Dotted(items[i].parts)) <= 1
  {
    Lowering.ListPlans(items, schema, i);
  }

  lemma {:induction false} TwiceOccurs(schema: Schema, i: nat, j: nat)
    requires i < j < |schema| && schema[i].name == schema[j].name
    ensures Occurrences(schema, schema[i].name) >= 2
  {
    if i == 0 {
      OccursAt(schema[1..], schema[0].name, j - 1);
    } else {
      TwiceOccurs(schema[1..], i - 1, j - 1);
    }
  }

  function PlanWhere(where: Option<Bound>, child: Plan): Result<Plan> {
    if where.None? then Ok(child)
    else
      var w := PlanExpr(where.value, [child.schema], [], 0);
      if w.Err? then Err(w.reason) else Ok(Plan(Filter(w.value.expr), child.schema, [child]))
  }

  /** `SELECT * FROM ref WHERE where`, without aggregates. */
  function PlanSelectStar(cat: Catalog, ref: TableRef, where: Option<Bound>): Result<Plan> {
    var from := PlanTableRef(cat, ref);
    if from.Err? then from
    else
      var filtered := PlanWhere(where, from.value);
      if filtered.Err? then filtered else PlanItems(Refs(GetAllColumns(ref)), filtered.value)
  }

  /** The star can be planned exactly when the FROM tree's column names are distinct. */
  lemma StarPlansExactly(cat: Catalog, ref: TableRef, where: Option<Bound>)
    requires PlanTableRef(cat, ref).Ok? && AllNamed(ref)
    requires PlanWhere(where, PlanTableRef(cat, ref).value).Ok?
    ensures PlanSelectStar(cat, ref, where).Ok? <==> DistinctNames(PlanTableRef(cat, ref).value.schema)
  {
    var child := PlanWhere(where, PlanTableRef(cat, ref).value).value;
    StarNamesAgree(cat, ref);
    var names := GetAllColumns(ref);
    if DistinctNames(child.schema) {
      AllColumnsIdentity(names, child);
    } else if PlanItems(Refs(names), child).Ok? {
      var i, j :| 0 <= i < j < |child.schema| && child.schema[i].name == child.schema[j].name;
      PlannedRef(Refs(names), child.schema, i);
      TwiceOccurs(child.schema, i, j);
    }
  }

  /** The star's projection is the identity, keeps every column's name and type, and the merge-projection
      rule removes it and leaves nothing of it behind. */
  lemma StarIsRemoved(cat: Catalog, ref: TableRef, where: Option<Bound>)
    requires PlanSelectStar(cat, ref, where).Ok? && AllNamed(ref)
    ensures var star := PlanSelectStar(cat, ref, where).value;
            var child := PlanWhere(where, PlanTableRef(cat, ref).value).value;
            && Optimizer.Removable(star) && star.schema == child.schema
            && Optimizer.MergeProjection(star) == Optimizer.MergeProjection(child)
            && NamesAgree(GetAllColumns(ref), Optimizer.MergeProjection(star).schema)
  {
    StarPlansExactly(cat, ref, where);
    StarNamesAgree(cat, ref);
    var child := PlanWhere(where, PlanTableRef(cat, ref).value).value;
    AllColumnsIdentity(GetAllColumns(ref), child);
    IdentityRemoved(PlanSelectStar(cat, ref, where).value, child);
  }

  lemma IdentityRemoved(star: Plan, child: Plan)
    requires Optimizer.Removable(star) && star.children == [child] && star.schema == child.schema
    ensures Optimizer.MergeProjection(star) == Optimizer.MergeProjection(child)
  {
    var kids := [Optimizer.MergeProjection(child)];
    Optimizer.RemovableKids(star, kids);
    assert seq(|star.children|, i requires 0 <= i < |star.children| => Optimizer.MergeProjection(star.children[i]))
           == kids;
  }

  // ---------------------------------------------------------------- what a FROM tree means, columns by name

  /** The tree's columns under their star names; values are looked up by name, so the types do not matter. */
  function StarSchema(names: seq<seq<string>>): (r: Schema)
    ensures |r| == |names| && forall i :: 0 <= i < |names| ==> r[i].name == Dotted(names[i])
  {
    seq(|names|, i requires 0 <= i < |names| => ColumnInfo(Dotted(names[i]), INTEGER))
  }

  function PairAll(l: Row, right: seq<Row>): seq<Row> {
    seq(|right|, j requires 0 <= j < |right| => l + right[j])
  }

  function Product(left: seq<Row>, right: seq<Row>): seq<Row> {
    if left == [] then [] else PairAll(left[0], right) + Product(left[1..], right)
  }

  /** The first `n` right rows that satisfy the condition with `l`, columns by name. */
  function NamedMatches(condition: Bound, schema: Schema, l: Row, right: seq<Row>, n: nat): (r: seq<nat>)
    requires n <= |right|
    ensures InRange(r, n)
  {
    if n == 0 then []
    else NamedMatches(condition, schema, l, right, n - 1)
         + (if EvalBound(condition, schema, l + right[n - 1]) == Bool(true) then [n - 1] else [])
  }

  function NamedPicks(condition: Bound, schema: Schema, left: seq<Row>, right: seq<Row>): (r: seq<seq<nat>>)
    ensures PicksOk(left, right, r)
  {
    seq(|left|, i requires 0 <= i < |left| => NamedMatches(condition, schema, left[i], right, |right|))
  }

  function FromRows(cat: Catalog, ref: TableRef): seq<Row> {
    match ref
    case BaseTable(table, _, _) =>
      if "__mock" <= table then (if table in cat.mocks then cat.mocks[table] else [])
      else if table in cat.oids then TableRows(cat, cat.oids[table]) else []
    case CrossProduct(l, r) => Product(FromRows(cat, l), FromRows(cat, r))
    case JoinOn(join, l, r, condition) =>
      var left, right := FromRows(cat, l), FromRows(cat, r);
      var schema := StarSchema(GetAllColumns(l) + GetAllColumns(r));
      JoinRows(join, left, right, NamedPicks(condition, schema, left, right), |GetAllColumns(l)|, |GetAllColumns(r)|)
    case Subquery(sub) => Rows(cat, sub.body)
  }

  // ---------------------------------------------------------------- planned FROM trees are well-formed

  ghost predicate SubReady(cat: Catalog, sub: Sub) {
    Lowering.Ready(cat, sub.body)
  }

  /** Base tables are the catalog's, subqueries are planned and ready. */
  ghost predicate RefOk(cat: Catalog, ref: TableRef) {
    match ref
    case BaseTable(table, _, columns) =>
      && table in cat.oids && cat.oids[table] in cat.tables
      && cat.tables[cat.oids[table]].name == table && cat.tables[cat.oids[table]].columns == columns
      && ("__mock" <= table ==> table in cat.mocks && Wide(cat.mocks[table], |columns|))
    case CrossProduct(l, r) => RefOk(cat, l) && RefOk(cat, r)
    case JoinOn(_, l, r, condition) =>
      RefOk(cat, l) && RefOk(cat, r)
    case Subquery(sub) => SubReady(cat, sub)
  }

  lemma SubqueryReady(cat: Catalog, sub: Sub, alias: string)
    requires SubReady(cat, sub) && PlanSubquery(sub, alias).Ok?
    ensures Lowering.Ready(cat, PlanSubquery(sub, alias).value)
  {
    var p := PlanSubquery(sub, alias).value;
    assert Counts(p.children)[0] == |sub.body.schema|;
  }

  lemma JoinReady(cat: Catalog, l: Plan, r: Plan, pred: Expr, join: JoinType)
    requires Lowering.Ready(cat, l) && Lowering.Ready(cat, r)
    requires FitsJoin(pred, |l.schema|, |r.schema|)
    ensures Lowering.Ready(cat, Plan(NestedLoopJoin(pred, join), l.schema + r.schema, [l, r]))
  {
    var p := Plan(NestedLoopJoin(pred, join), l.schema + r.schema, [l, r]);
    assert Counts(p.children)[0] == |l.schema| && Counts(p.children)[1] == |r.schema|;
    assert p.children[0] == l && p.children[1] == r;
  }

  lemma {:induction false} ConditionFits(condition: Bound, l: Schema, r: Schema)
    requires PlanExpr(condition, [l, r], [], 0).Ok?
    ensures FitsJoin(PlanExpr(condition, [l, r], [], 0).value.expr, |l|, |r|)
  {
    hide PlanExpr, EvalBound, EvalJoin;
    PlannedMeansJoin(condition, l, r, 0, Nulls(|l|), Nulls(|r|));
  }

  lemma {:induction false} FromReady(cat: Catalog, ref: TableRef)
    requires PlanTableRef(cat, ref).Ok? && RefOk(cat, ref)
    ensures Lowering.Ready(cat, PlanTableRef(cat, ref).value)
  {
    hide Lowering.Ready, PlanExpr;
    match ref
    case BaseTable(table, alias, columns) => BaseReady(cat, table, alias, columns);
    case CrossProduct(left, right) =>
      FromReady(cat, left);
      FromReady(cat, right);
      var l, r := PlanTableRef(cat, left).value, PlanTableRef(cat, right).value;
      JoinReady(cat, l, r, Const(Bool(true)), INNER);
    case JoinOn(join, left, right, condition) =>
      FromReady(cat, left);
      FromReady(cat, right);
      var l, r := PlanTableRef(cat, left).value, PlanTableRef(cat, right).value;
      ConditionFits(condition, l.schema, r.schema);
      JoinReady(cat, l, r, PlanExpr(condition, [l.schema, r.schema], [], 0).value.expr, join);
    case Subquery(sub) => SubqueryReady(cat, sub, sub.alias);
  }

  lemma BaseReady(cat: Catalog, table: string, alias: Option<string>, columns: Schema)
    requires PlanBaseTable(cat, table, alias, columns).Ok? && RefOk(cat, BaseTable(table, alias, columns))
    ensures Lowering.Ready(cat, PlanBaseTable(cat, table, alias, columns).value)
  {
  }

  // ---------------------------------------------------------------- the planned tree means the tree

  lemma {:induction false} SameNamesSameValue(e: Bound, a: Schema, b: Schema, row: Row)
    requires |a| == |b| && forall i :: 0 <= i < |a| ==> a[i].name == b[i].name
    ensures EvalBound(e, a, row) == EvalBound(e, b, row)
  {
    hide BinaryValue;
    match e
    case ColumnRef(parts) =>
      var name := Dotted(parts);
      var i, j := TryGetColIdx(a, name), TryGetColIdx(b, name);
      assert i.Some? ==> b[i.value].name == name;
      assert j.Some? ==> a[j.value].name == name;
    case BinaryOp(_, l, r) =>
      SameNamesSameValue(l, a, b, row);
      SameNamesSameValue(r, a, b, row);
    case Alias(_, child) => SameNamesSameValue(child, a, b, row);
    case _ =>
  }

  lemma {:induction false} MatchesByName(condition: Bound, l: Schema, r: Schema, named: Schema, row: Row,
                                         right: seq<Row>, n: nat)
    requires PlanExpr(condition, [l, r], [], 0).Ok? && |row| == |l| && Wide(right, |r|) && n <= |right|
    requires |named| == |l + r| && forall i :: 0 <= i < |named| ==> named[i].name == (l + r)[i].name
    ensures MatchesUpTo(PlanExpr(condition, [l, r], [], 0).value.expr, row, right, n)
            == NamedMatches(condition, named, row, right, n)
  {
    hide PlanExpr, EvalBound, EvalJoin;
    if n > 0 {
      MatchesByName(condition, l, r, named, row, right, n - 1);
      PlannedMeansJoin(condition, l, r, 0, row, right[n - 1]);
      SameNamesSameValue(condition, named, l + r, row + right[n - 1]);
    }
  }

  lemma PicksByName(condition: Bound, l: Schema, r: Schema, named: Schema, left: seq<Row>, right: seq<Row>)
    requires PlanExpr(condition, [l, r], [], 0).Ok? && Wide(left, |l|) && Wide(right, |r|)
    requires |named| == |l + r| && forall i :: 0 <= i < |named| ==> named[i].name == (l + r)[i].name
    ensures LoopPicks(PlanExpr(condition, [l, r], [], 0).value.expr, left, right)
            == NamedPicks(condition, named, left, right)
  {
    hide PlanExpr;
    forall i | 0 <= i < |left|
      ensures Matches(PlanExpr(condition, [l, r], [], 0).value.expr, left[i], right)
              == NamedMatches(condition, named, left[i], right, |right|)
    {
      MatchesByName(condition, l, r, named, left[i], right, |right|);
    }
  }

  lemma {:induction false} TrueJoinIsProduct(left: seq<Row>, right: seq<Row>, rightCount: nat)
    ensures JoinLeft(INNER, left, right, LoopPicks(Const(Bool(true)), left, right), rightCount) == Product(left, right)
  {
    if left != [] {
      TrueJoinIsProduct(left[1..], right, rightCount);
      FilterJoin.PicksTail(Const(Bool(true)), left, right);
      FilterJoin.TruePicksAll(left[0], right, |right|);
      assert Pair(left[0], right, Positions(|right|)) == PairAll(left[0], right);
    }
  }

  lemma SubqueryRows(cat: Catalog, sub: Sub, alias: string)
    requires CatalogOk(cat) && SubReady(cat, sub) && PlanSubquery(sub, alias).Ok?
    ensures Rows(cat, PlanSubquery(sub, alias).value) == Rows(cat, sub.body)
  {
    var p := PlanSubquery(sub, alias).value;
    RowsMatchSchema(cat, sub.body);
    Optimizer.IdenticalRows(p.op.exprs, Rows(cat, sub.body));
    assert KidRows(cat, p)[0] == Rows(cat, sub.body);
  }

  function JoinWithCondition(join: JoinType, l: Plan, r: Plan, condition: Bound): Plan
    requires PlanExpr(condition, [l.schema, r.schema], [], 0).Ok?
  {
    Plan(NestedLoopJoin(PlanExpr(condition, [l.schema, r.schema], [], 0).value.expr, join), l.schema + r.schema, [l, r])
  }

  lemma JoinPlanned(cat: Catalog, join: JoinType, left: TableRef, right: TableRef, condition: Bound)
    requires PlanTableRef(cat, JoinOn(join, left, right, condition)).Ok?
    ensures PlanTableRef(cat, left).Ok? && PlanTableRef(cat, right).Ok?
    ensures var l, r := PlanTableRef(cat, left).value, PlanTableRef(cat, right).value;
            && PlanExpr(condition, [l.schema, r.schema], [], 0).Ok?
            && PlanTableRef(cat, JoinOn(join, left, right, condition)).value
               == JoinWithCondition(join, l, r, condition)
  {
    hide PlanExpr;
  }

  lemma ConditionMeans(cat: Catalog, join: JoinType, l: Plan, r: Plan, condition: Bound, named: Schema)
    requires CatalogOk(cat) && Lowering.Ready(cat, l) && Lowering.Ready(cat, r)
    requires PlanExpr(condition, [l.schema, r.schema], [], 0).Ok?
    requires |named| == |l.schema + r.schema|
    requires forall i :: 0 <= i < |named| ==> named[i].name == (l.schema + r.schema)[i].name
    ensures Rows(cat, JoinWithCondition(join, l, r, condition))
            == JoinRows(join, Rows(cat, l), Rows(cat, r), NamedPicks(condition, named, Rows(cat, l), Rows(cat, r)),
                        |l.schema|, |r.schema|)
  {
    hide PlanExpr, JoinRows, LoopPicks, NamedPicks, OpRows;
    RowsMatchSchema(cat, l);
    RowsMatchSchema(cat, r);
    PicksByName(condition, l.schema, r.schema, named, Rows(cat, l), Rows(cat, r));
    Optimizer.JoinNodeRows(cat, JoinWithCondition(join, l, r, condition));
  }

  lemma JoinMeans(cat: Catalog, join: JoinType, left: TableRef, right: TableRef, condition: Bound)
    requires CatalogOk(cat) && RefOk(cat, JoinOn(join, left, right, condition))
    requires PlanTableRef(cat, JoinOn(join, left, right, condition)).Ok?
    requires AllNamed(left) && AllNamed(right)
    requires Rows(cat, PlanTableRef(cat, left).value) == FromRows(cat, left)
    requires Rows(cat, PlanTableRef(cat, right).value) == FromRows(cat, right)
    ensures Rows(cat, PlanTableRef(cat, JoinOn(join, left, right, condition)).value)
            == FromRows(cat, JoinOn(join, left, right, condition))
  {
    hide PlanExpr, Lowering.Ready, JoinRows, Rows, JoinWithCondition;
    var l, r := PlanTableRef(cat, left).value, PlanTableRef(cat, right).value;
    FromReady(cat, left);
    FromReady(cat, right);
    StarNamesAgree(cat, left);
    StarNamesAgree(cat, right);
    ConditionMeans(cat, join, l, r, condition, StarSchema(GetAllColumns(left) + GetAllColumns(right)));
    assert PlanTableRef(cat, JoinOn(join, left, right, condition)).value
           == JoinWithCondition(join, l, r, condition) by { JoinPlanned(cat, join, left, right, condition); }
  }

  /** The planned FROM tree produces the rows the tree describes, joins and conditions read by column name. */
  lemma {:induction false} FromMeans(cat: Catalog, ref: TableRef)
    requires CatalogOk(cat) && RefOk(cat, ref) && AllNamed(ref) && PlanTableRef(cat, ref).Ok?
    ensures Rows(cat, PlanTableRef(cat, ref).value) == FromRows(cat, ref)
    decreases ref
  {
    hide PlanExpr, SubReady;
    match ref
    case BaseTable(table, alias, columns) =>
    case CrossProduct(left, right) =>
      FromMeans(cat, left);
      FromMeans(cat, right);
      var l, r := PlanTableRef(cat, left).value, PlanTableRef(cat, right).value;
      Optimizer.JoinNodeRows(cat, PlanTableRef(cat, ref).value);
      Optimizer.InnerRows(Rows(cat, l), Rows(cat, r), Const(Bool(true)), |l.schema|, |r.schema|);
      TrueJoinIsProduct(Rows(cat, l), Rows(cat, r), |r.schema|);
    case JoinOn(join, left, right, condition) =>
      FromMeans(cat, left);
      FromMeans(cat, right);
      JoinMeans(cat, join, left, right, condition);
    case Subquery(sub) => SubqueryRows(cat, sub, sub.alias);
  }

  // ---------------------------------------------------------------- end to end

  function NamedFilter(where: Option<Bound>, schema: Schema, rows: seq<Row>): seq<Row> {
    if where.None? || rows == [] then rows
    else (if EvalBound(where.value, schema, rows[0]) == Bool(true) then [rows[0]] else [])
         + NamedFilter(where, schema, rows[1..])
  }

  lemma {:induction false} WhereByName(where: Bound, schema: Schema, named: Schema, rows: seq<Row>)
    requires PlanExpr(where, [schema], [], 0).Ok?
    requires |named| == |schema| && forall i :: 0 <= i < |named| ==> named[i].name == schema[i].name
    ensures FilterRows(PlanExpr(where, [schema], [], 0).value.expr, rows) == NamedFilter(Some(where), named, rows)
  {
    hide PlanExpr, EvalBound, Eval;
    if rows != [] {
      WhereByName(where, schema, named, rows[1..]);
      PlannedMeans(where, schema, 0, rows[0]);
      SameNamesSameValue(where, named, schema, rows[0]);
    }
  }

  lemma WhereReady(cat: Catalog, where: Option<Bound>, child: Plan)
    requires Lowering.Ready(cat, child) && PlanWhere(where, child).Ok?
    ensures Lowering.Ready(cat, PlanWhere(where, child).value)
  {
    hide PlanExpr;
    if where.Some? {
      PlannedMeans(where.value, child.schema, 0, []);
      var p := PlanWhere(where, child).value;
      assert Counts(p.children)[0] == |child.schema| && p.children[0] == child;
    }
  }

  lemma ItemsReady(cat: Catalog, items: seq<Bound>, child: Plan)
    requires Lowering.Ready(cat, child) && PlanItems(items, child).Ok?
    ensures Lowering.Ready(cat, PlanItems(items, child).value)
  {
    hide PlanList;
    Lowering.ListFits(items, child.schema, [], 0);
    var p := PlanItems(items, child).value;
    assert Counts(p.children)[0] == |child.schema| && p.children[0] == child;
  }

  lemma WhereRows(cat: Catalog, where: Option<Bound>, child: Plan, named: Schema)
    requires PlanWhere(where, child).Ok?
    requires |named| == |child.schema| && forall i :: 0 <= i < |named| ==> named[i].name == child.schema[i].name
    ensures Rows(cat, PlanWhere(where, child).value) == NamedFilter(where, named, Rows(cat, child))
  {
    hide PlanExpr;
    if where.Some? {
      Optimizer.FilterNodeRows(cat, PlanWhere(where, child).value);
      WhereByName(where.value, child.schema, named, Rows(cat, child));
    }
  }

  /** End to end: the optimized plan of `SELECT * FROM ref WHERE where` has the star's column names and
      produces the rows of the tree that satisfy the condition, everything read by column name. */
  lemma OptimizedStarMeans(cat: Catalog, ref: TableRef, where: Option<Bound>, forceStarterRule: bool)
    requires CatalogOk(cat) && RefOk(cat, ref) && AllNamed(ref)
    requires PlanSelectStar(cat, ref, where).Ok?
    requires Optimizer.Plannable(PlanSelectStar(cat, ref, where).value)
    ensures var plan := PlanSelectStar(cat, ref, where).value;
            var optimized := Optimizer.Optimize(cat, forceStarterRule, plan);
            && (optimized.Ok? <==> Optimizer.Nowhere(Optimizer.MergeProjection(plan), Optimizer.CastThrows))
            && (optimized.Ok? ==>
                  && NamesAgree(GetAllColumns(ref), optimized.value.schema)
                  && Rows(cat, optimized.value)
                     == NamedFilter(where, StarSchema(GetAllColumns(ref)), FromRows(cat, ref)))
  {
    hide PlanExpr, PlanTableRef, RefOk, FromRows, Optimizer.Optimize,
      NamedFilter, Rows, AllNamed, WellFormed, Optimizer.Unfiltered, Optimizer.Plannable;
    var from := PlanTableRef(cat, ref).value;
    var child := PlanWhere(where, from).value;
    var star := PlanSelectStar(cat, ref, where).value;
    FromReady(cat, ref);
    FromMeans(cat, ref);
    WhereReady(cat, where, from);
    ItemsReady(cat, Refs(GetAllColumns(ref)), child);
    StarNamesAgree(cat, ref);
    WhereRows(cat, where, from, StarSchema(GetAllColumns(ref)));
    StarIsRemoved(cat, ref, where);
    StarSameRows(cat, star, child);
    Optimizer.PipelineKeepsRows(cat, star, forceStarterRule);
  }

  lemma StarSameRows(cat: Catalog, star: Plan, child: Plan)
    requires CatalogOk(cat) && WellFormed(cat, star) && Optimizer.Removable(star) && star.children == [child]
    ensures Rows(cat, star) == Rows(cat, child)
  {
    Optimizer.RemoveProjection(cat, star);
    Optimizer.RenamedOk(cat, child, star.schema);
  }
}

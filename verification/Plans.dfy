/**
 * Plan nodes over a catalog, and the row sequence each plan stands for.  A node is
 * an operator, an output schema and a vector of children; its rows depend on its
 * children only through their rows and their column counts.
 */
module Plans {
  import opened Common
  import opened Expressions
  import opened Relations

  datatype ColumnInfo = ColumnInfo(name: string, ty: TypeId)

  type Schema = seq<ColumnInfo>

  datatype WriteOp = InsertInto(oid: nat) | DeleteFrom(oid: nat) | UpdateOf(oid: nat, targets: seq<Expr>)

  datatype Op =
    | SeqScan(oid: nat, table: string, filter: Option<Expr>)
    | IndexScan(index: nat)
    | MockScan(table: string)
    | Values(values: seq<seq<Expr>>)
    | Filter(pred: Expr)
    | Projection(exprs: seq<Expr>)
    | NestedLoopJoin(pred: Expr, join: JoinType)
    | NestedIndexJoin(key: Expr, oid: nat, index: nat, indexName: string, table: string, inner: Schema,
                      join: JoinType)
    | HashJoin(leftKey: Expr, rightKey: Expr, join: JoinType)
    | Aggregation(groupBys: seq<Expr>, aggs: seq<Expr>, types: seq<AggType>)
    | Sort(orders: seq<(OrderType, Expr)>)
    | Limit(limit: nat)
    | Write(write: WriteOp)

  datatype Plan = Plan(op: Op, schema: Schema, children: seq<Plan>)

  datatype Table = Table(name: string, columns: Schema, rows: seq<Row>)

  /** `listing` is the order in which the index walks its table's row positions. */
  datatype Index = Index(name: string, table: string, keyAttrs: seq<nat>, keyColumns: Schema, listing: seq<nat>)

  /** `affected` is how many rows a write reports for the rows its child feeds it. */
  datatype Catalog = Catalog(tables: map<nat, Table>, oids: map<string, nat>, indexes: map<nat, Index>,
                             tableIndexes: map<string, seq<nat>>, mocks: map<string, seq<Row>>,
                             affected: (WriteOp, seq<Row>) -> int)

  function TableRows(cat: Catalog, oid: nat): seq<Row> {
    if oid in cat.tables then cat.tables[oid].rows else []
  }

  function GetTableIndexes(cat: Catalog, table: string): seq<nat> {
    if table in cat.tableIndexes then cat.tableIndexes[table] else []
  }

  function KeyColumn(index: Index): nat {
    if |index.keyAttrs| == 1 then index.keyAttrs[0] else 0
  }

  // ---------------------------------------------------------------- the catalog

  predicate DistinctNames(columns: Schema) {
    forall i, j :: 0 <= i < j < |columns| ==> columns[i].name != columns[j].name
  }

  ghost predicate TableOk(cat: Catalog, oid: nat)
    requires oid in cat.tables
  {
    var t := cat.tables[oid];
    && t.name in cat.oids && cat.oids[t.name] == oid
    && DistinctNames(t.columns) && Wide(t.rows, |t.columns|)
  }

  /** A one-column index lists its table by key, ties in table order; its key is never null. */
  ghost predicate IndexOk(cat: Catalog, index: Index) {
    && index.table in cat.oids && cat.oids[index.table] in cat.tables
    && var t := cat.tables[cat.oids[index.table]];
       && InRange(index.keyAttrs, |t.columns|)
       && |index.keyColumns| == |index.keyAttrs|
       && (forall i :: 0 <= i < |index.keyAttrs| ==> index.keyColumns[i].name == t.columns[index.keyAttrs[i]].name)
       && InRange(index.listing, |t.rows|)
       && (|index.keyAttrs| == 1 ==>
             Keyed(t.rows, index.keyAttrs[0]) && Lists(t.rows, index.keyAttrs[0], index.listing))
  }

  ghost predicate Listed(cat: Catalog, table: string, oid: nat) {
    oid in cat.indexes && cat.indexes[oid].table == table
  }

  ghost predicate CatalogOk(cat: Catalog) {
    && (forall oid :: oid in cat.tables ==> TableOk(cat, oid))
    && (forall oid :: oid in cat.indexes ==> IndexOk(cat, cat.indexes[oid]))
    && (forall table, i :: table in cat.tableIndexes && 0 <= i < |cat.tableIndexes[table]|
          ==> Listed(cat, table, cat.tableIndexes[table][i]))
  }

  // ---------------------------------------------------------------- well-formed plans

  function Arity(op: Op): nat {
    match op
    case SeqScan(_, _, _) => 0
    case IndexScan(_) => 0
    case MockScan(_) => 0
    case Values(_) => 0
    case NestedLoopJoin(_, _) => 2
    case HashJoin(_, _, _) => 2
    case _ => 1
  }

  predicate AllFit(es: seq<Expr>, n: nat) {
    forall i :: 0 <= i < |es| ==> Fits(es[i], n)
  }

  /** The operator's expressions name columns its children have, and its schema has a column per value it makes. */
  ghost predicate NodeOk(cat: Catalog, op: Op, count: nat, kids: seq<nat>)
    requires |kids| == Arity(op)
  {
    match op
    case SeqScan(oid, table, filter) =>
      && oid in cat.tables && cat.tables[oid].name == table && count == |cat.tables[oid].columns|
      && (filter.Some? ==> Fits(filter.value, count))
    case IndexScan(index) =>
      && index in cat.indexes && cat.indexes[index].table in cat.oids
      && cat.oids[cat.indexes[index].table] in cat.tables
      && count == |cat.tables[cat.oids[cat.indexes[index].table]].columns|
    case MockScan(table) => table in cat.mocks && Wide(cat.mocks[table], count)
    case Values(values) => forall i :: 0 <= i < |values| ==> |values[i]| == count
    case Filter(pred) => count == kids[0] && Fits(pred, count)
    case Projection(exprs) => count == |exprs| && AllFit(exprs, kids[0])
    case NestedLoopJoin(pred, _) => count == kids[0] + kids[1] && FitsJoin(pred, kids[0], kids[1])
    case NestedIndexJoin(key, oid, index, indexName, table, inner, _) =>
      && oid in cat.tables && |inner| == |cat.tables[oid].columns| && count == kids[0] + |inner|
      && Fits(key, kids[0])
      && index in cat.indexes && cat.indexes[index].table == cat.tables[oid].name == table
      && cat.indexes[index].name == indexName
    case HashJoin(leftKey, rightKey, _) =>
      count == kids[0] + kids[1] && Fits(leftKey, kids[0]) && Fits(rightKey, kids[1])
    case Aggregation(groupBys, aggs, types) =>
      && |aggs| == |types| && count == |groupBys| + |aggs|
      && AllFit(groupBys, kids[0]) && AllFit(aggs, kids[0])
    case Sort(orders) =>
      count == kids[0] && forall i :: 0 <= i < |orders| ==> Fits(orders[i].1, count)
    case Limit(_) => count == kids[0]
    case Write(_) => count == 1
  }

  function Counts(ps: seq<Plan>): (r: seq<nat>)
    ensures |r| == |ps| && forall i :: 0 <= i < |ps| ==> r[i] == |ps[i].schema|
  {
    seq(|ps|, i requires 0 <= i < |ps| => |ps[i].schema|)
  }

  ghost predicate WellFormed(cat: Catalog, p: Plan) {
    && |p.children| == Arity(p.op)
    && NodeOk(cat, p.op, |p.schema|, Counts(p.children))
    && forall i :: 0 <= i < |p.children| ==> WellFormed(cat, p.children[i])
  }

  // ---------------------------------------------------------------- meaning

  function ValueRows(values: seq<seq<Expr>>): seq<Row> {
    seq(|values|, i requires 0 <= i < |values| => EvalAll(values[i], []))
  }

  function FirstRows(rows: seq<Row>, n: nat): seq<Row> {
    if |rows| <= n then rows else rows[..n]
  }

  function IndexRows(cat: Catalog, index: nat): seq<Row> {
    if index in cat.indexes && cat.indexes[index].table in cat.oids then
      var rows := TableRows(cat, cat.oids[cat.indexes[index].table]);
      if InRange(cat.indexes[index].listing, |rows|) then AtPositions(rows, cat.indexes[index].listing) else []
    else []
  }

  function IndexJoinRows(cat: Catalog, key: Expr, oid: nat, index: nat, join: JoinType, left: seq<Row>,
                         leftCount: nat, rightCount: nat): seq<Row> {
    var right := TableRows(cat, oid);
    if index in cat.indexes && InRange(cat.indexes[index].listing, |right|) then
      var picks := IndexPicks(key, left, right, KeyColumn(cat.indexes[index]), cat.indexes[index].listing);
      JoinRows(join, left, right, picks, leftCount, rightCount)
    else []
  }

  function LoopJoinRows(pred: Expr, join: JoinType, left: seq<Row>, right: seq<Row>, leftCount: nat,
                        rightCount: nat): seq<Row> {
    JoinRows(join, left, right, LoopPicks(pred, left, right), leftCount, rightCount)
  }

  function HashJoinRows(leftKey: Expr, rightKey: Expr, join: JoinType, left: seq<Row>, right: seq<Row>,
                        leftCount: nat, rightCount: nat): seq<Row> {
    JoinRows(join, left, right, HashPicks(leftKey, rightKey, left, right), leftCount, rightCount)
  }

  /** What one operator makes of its children's rows. */
  function OpRows(cat: Catalog, op: Op, kids: seq<seq<Row>>, counts: seq<nat>): seq<Row>
    requires |kids| == |counts| == Arity(op)
  {
    match op
    case SeqScan(oid, _, filter) =>
      if filter.Some? then FilterRows(filter.value, TableRows(cat, oid)) else TableRows(cat, oid)
    case IndexScan(index) => IndexRows(cat, index)
    case MockScan(table) => if table in cat.mocks then cat.mocks[table] else []
    case Values(values) => ValueRows(values)
    case Filter(pred) => FilterRows(pred, kids[0])
    case Projection(exprs) => MapRows(exprs, kids[0])
    case NestedLoopJoin(pred, join) => LoopJoinRows(pred, join, kids[0], kids[1], counts[0], counts[1])
    case NestedIndexJoin(key, oid, index, _, _, inner, join) =>
      IndexJoinRows(cat, key, oid, index, join, kids[0], counts[0], |inner|)
    case HashJoin(leftKey, rightKey, join) =>
      HashJoinRows(leftKey, rightKey, join, kids[0], kids[1], counts[0], counts[1])
    case Aggregation(groupBys, aggs, types) =>
      if |aggs| == |types| then AggregateRows(groupBys, aggs, types, kids[0]) else []
    case Sort(orders) => SortRows(orders, kids[0])
    case Limit(limit) => FirstRows(kids[0], limit)
    case Write(write) => [[Int(cat.affected(write, kids[0]))]]
  }

  function KidRows(cat: Catalog, p: Plan): (r: seq<seq<Row>>)
    ensures |r| == |p.children|
    ensures forall i :: 0 <= i < |p.children| ==> r[i] == Rows(cat, p.children[i])
    decreases p, 0
  {
    seq(|p.children|, i requires 0 <= i < |p.children| => Rows(cat, p.children[i]))
  }

  /** The rows a plan produces, in order. */
  function Rows(cat: Catalog, p: Plan): seq<Row>
    decreases p
  {
    if |p.children| == Arity(p.op) then OpRows(cat, p.op, KidRows(cat, p), Counts(p.children)) else []
  }

  // ---------------------------------------------------------------- row widths

  lemma IndexRowsWide(cat: Catalog, index: nat)
    requires CatalogOk(cat) && index in cat.indexes && cat.indexes[index].table in cat.oids
    requires cat.oids[cat.indexes[index].table] in cat.tables
    ensures Wide(IndexRows(cat, index), |cat.tables[cat.oids[cat.indexes[index].table]].columns|)
  {
    assert TableOk(cat, cat.oids[cat.indexes[index].table]);
  }

  lemma ValueRowsWide(values: seq<seq<Expr>>, n: nat)
    requires forall i :: 0 <= i < |values| ==> |values[i]| == n
    ensures Wide(ValueRows(values), n)
  {
  }

  lemma MapWide(exprs: seq<Expr>, rows: seq<Row>)
    ensures Wide(MapRows(exprs, rows), |exprs|)
  {
  }

  lemma SortWide(orders: seq<(OrderType, Expr)>, rows: seq<Row>, n: nat)
    requires Wide(rows, n)
    ensures Wide(SortRows(orders, rows), n)
  {
    hide SortPositions;
  }

  lemma FirstRowsWide(rows: seq<Row>, limit: nat, n: nat)
    requires Wide(rows, n)
    ensures Wide(FirstRows(rows, limit), n)
  {
  }

  lemma {:induction false} OpWide(cat: Catalog, op: Op, count: nat, kids: seq<seq<Row>>, counts: seq<nat>)
    requires CatalogOk(cat) && |kids| == |counts| == Arity(op) && NodeOk(cat, op, count, counts)
    requires forall i :: 0 <= i < |kids| ==> Wide(kids[i], counts[i])
    ensures Wide(OpRows(cat, op, kids, counts), count)
  {
    hide FilterRows, JoinRows, Fits, FitsJoin, IndexOk, IndexJoinRows, LoopPicks, HashPicks, MapRows, SortRows,
      AggregateRows, ValueRows, FirstRows, IndexRows;
    match op
    case SeqScan(oid, _, filter) =>
      assert TableOk(cat, oid);
      if filter.Some? { FilterWide(filter.value, TableRows(cat, oid), count); }
    case IndexScan(index) => IndexRowsWide(cat, index);
    case Values(values) => ValueRowsWide(values, count);
    case Filter(pred) => FilterWide(pred, kids[0], count);
    case Projection(exprs) => MapWide(exprs, kids[0]);
    case Sort(orders) => SortWide(orders, kids[0], count);
    case Limit(limit) => FirstRowsWide(kids[0], limit, count);
    case NestedLoopJoin(pred, join) =>
      JoinWide(join, kids[0], kids[1], LoopPicks(pred, kids[0], kids[1]), counts[0], counts[1]);
    case NestedIndexJoin(key, oid, index, _, _, inner, join) =>
      IndexJoinWide(cat, key, oid, index, join, kids[0], counts[0], |inner|);
    case HashJoin(leftKey, rightKey, join) =>
      JoinWide(join, kids[0], kids[1], HashPicks(leftKey, rightKey, kids[0], kids[1]), counts[0], counts[1]);
    case _ =>
  }

  lemma IndexJoinWide(cat: Catalog, key: Expr, oid: nat, index: nat, join: JoinType, left: seq<Row>, leftCount: nat,
                      rightCount: nat)
    requires CatalogOk(cat) && oid in cat.tables && rightCount == |cat.tables[oid].columns| && Wide(left, leftCount)
    ensures Wide(IndexJoinRows(cat, key, oid, index, join, left, leftCount, rightCount), leftCount + rightCount)
  {
    var right := TableRows(cat, oid);
    assert TableOk(cat, oid);
    if index in cat.indexes && InRange(cat.indexes[index].listing, |right|) {
      var picks := IndexPicks(key, left, right, KeyColumn(cat.indexes[index]), cat.indexes[index].listing);
      JoinWide(join, left, right, picks, leftCount, rightCount);
    }
  }

  /** Every row of a well-formed plan has one value per column of the plan's schema. */
  lemma {:induction false} RowsMatchSchema(cat: Catalog, p: Plan)
    requires CatalogOk(cat) && WellFormed(cat, p)
    ensures Wide(Rows(cat, p), |p.schema|)
    decreases p
  {
    forall i | 0 <= i < |p.children| ensures Wide(Rows(cat, p.children[i]), |p.children[i].schema|) {
      RowsMatchSchema(cat, p.children[i]);
    }
    OpWide(cat, p.op, |p.schema|, KidRows(cat, p), Counts(p.children));
  }
}

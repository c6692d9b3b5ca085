/**
 * Select statements in the words of SQL: when a statement groups, how many rows a
 * LIMIT keeps, what a star is, and which names the unnamed get.  The planner and the
 * meaning of a statement share the functions that decide these; here they are tied
 * to conditions read off the statement.
 */
module Statements {
  import opened Common
  import opened Expressions
  import opened Plans
  import opened Binding
  import opened Aggregates
  import opened Naming
  import opened FromClause
  import opened Selects
  import opened Queries
  import Lowering

  // ---------------------------------------------------------------- grouping

  /** An aggregate call occurs in the expression. */
  predicate HasCall(e: Bound) {
    match e
    case AggCall(_, _, _) => true
    case BinaryOp(_, l, r) => HasCall(l) || HasCall(r)
    case Alias(_, child) => HasCall(child)
    case _ => false
  }

  /** GROUP BY, HAVING or an aggregate call in the select list. */
  ghost predicate Grouping(q: Body, items: seq<Bound>) {
    q.groupBys != [] || q.having != None || exists i :: 0 <= i < |items| && HasCall(items[i])
  }

  lemma {:induction false} CollectsIfCalls(e: Bound)
    ensures Collect(e) == [] <==> !HasCall(e)
  {
    match e
    case BinaryOp(_, l, r) =>
      CollectsIfCalls(l);
      CollectsIfCalls(r);
      assert |Collect(e)| == |Collect(l)| + |Collect(r)|;
    case Alias(_, child) => CollectsIfCalls(child);
    case _ =>
  }

  lemma {:induction false} CollectsAllIfCalls(es: seq<Bound>)
    ensures CollectAll(es) == [] <==> forall i :: 0 <= i < |es| ==> !HasCall(es[i])
  {
    if es != [] {
      CollectsIfCalls(es[0]);
      CollectsAllIfCalls(es[1..]);
      assert |CollectAll(es)| == |Collect(es[0])| + |CollectAll(es[1..])|;
      assert forall i :: 0 <= i < |es| - 1 ==> es[1..][i] == es[i + 1];
      if forall i :: 0 <= i < |es| ==> !HasCall(es[i]) {
        assert !HasCall(es[0]);
      }
    }
  }

  /** A statement that groups produces a row for each group that HAVING keeps; any other produces one row for each
      input row. */
  lemma GroupedMeans(cat: Catalog, q: Body, items: seq<Bound>, child: Plan, named: Schema)
    requires PlanSelected(q, items, child).Ok? && SameNames(child.schema, named)
    requires Lowering.NoAliases(q.groupBys) && Lowering.AllQualified(HavingList(q.having) + items)
    ensures var rows := Rows(cat, PlanSelected(q, items, child).value);
            rows == if Grouping(q, items)
                    then GroupRows(q.having, items, named, Groups(q.groupBys, named, Rows(cat, child)))
                    else ListRows(items, named, Rows(cat, child))
    ensures !Grouping(q, items) ==> |Rows(cat, PlanSelected(q, items, child).value)| == |Rows(cat, child)|
  {
    hide PlanSelected, Groups, GroupRows, SameNames, Rows, Lowering.NoAliases, Lowering.AllQualified;
    SelectedMeans(cat, q, items, child, named);
    CollectsAllIfCalls(items);
  }

  /** A whole statement without DISTINCT, ORDER BY and LIMIT: the rows that satisfy WHERE, grouped or listed; a star
      is the list of all columns in their order. */
  lemma PlainBodyIs(cat: Catalog, inner: bool, q: Body, input: Plan, names: seq<seq<string>>)
    requires CatalogOk(cat) && Safe(cat, inner, input) && NamesAgree(names, input.schema)
    requires !q.distinct && q.sort == [] && q.limit == None && PlanBody(q, input, names).Ok?
    requires Bindable(q, if q.list == AllColumns then Refs(names) else q.list.items)
    ensures var items, schema := if q.list == AllColumns then Refs(names) else q.list.items, StarSchema(names);
            var rows := NamedFilter(q.where, schema, Rows(cat, input));
            Rows(cat, PlanBody(q, input, names).value)
            == if Grouping(q, items) then GroupRows(q.having, items, schema, Groups(q.groupBys, schema, rows))
               else ListRows(items, schema, rows)
  {
    hide PlanBody, Groups, GroupRows, ListRows, NamedFilter, Rows, Safe, Bindable, CatalogOk, StarSchema, OutputNames;
    BodyMeans(cat, inner, q, input, names);
    CollectsAllIfCalls(if q.list == AllColumns then Refs(names) else q.list.items);
  }

  // ---------------------------------------------------------------- limit

  lemma LimitPlansExactly(limit: Option<Bound>, offset: Option<Bound>, child: Plan)
    ensures PlanLimit(limit, offset, child).Ok?
            <==> offset == None && (limit.Some? ==> limit.value.Constant? && !limit.value.value.Bool?)
  {
  }

  /** A count keeps that many rows from the front, or all of them when there are fewer.  A negative or a null count
      keeps them all, for any number of rows that fits in 63 bits. */
  lemma LimitIs(cat: Catalog, count: Value, child: Plan)
    requires !count.Bool? && (count.Int? ==> -0x8000_0000 <= count.i < 0x8000_0000)
    ensures var planned, rows := PlanLimit(Some(Constant(count)), None, child), Rows(cat, child);
            && planned.Ok? && planned.value.schema == child.schema
            && (count.Int? && 0 <= count.i <= |rows| ==> Rows(cat, planned.value) == rows[..count.i])
            && (count.Int? && |rows| < count.i ==> Rows(cat, planned.value) == rows)
            && ((count == Null || count.i < 0) && |rows| < 0x8000_0000_0000_0000 ==> Rows(cat, planned.value) == rows)
  {
    hide Rows, Unsigned;
    LimitMeans(cat, Some(Constant(count)), None, child);
    UnsignedIs(if count.Int? then count.i else -0x8000_0000);
  }

  lemma UnsignedIs(n: int)
    requires -0x8000_0000 <= n < 0x8000_0000
    ensures Unsigned(n) == if 0 <= n then n else n + 0x1_0000_0000_0000_0000
  {
  }

  // ---------------------------------------------------------------- distinct

  ghost predicate NoneTwice(rows: seq<Row>) {
    forall i, j :: 0 <= i < j < |rows| ==> rows[i] != rows[j]
  }

  lemma OneMore(rows: seq<Row>, row: Row)
    requires NoneTwice(rows) && row !in rows
    ensures NoneTwice(rows + [row])
  {
    forall i | 0 <= i < |rows| ensures rows[i] != row {
      assert rows[i] in rows;
    }
  }

  /** DISTINCT keeps each row once. */
  lemma {:induction false} DistinctIs(rows: seq<Row>, n: nat)
    requires n <= |rows|
    ensures forall row :: row in DistinctRows(rows, n) <==> row in rows[..n]
    ensures NoneTwice(DistinctRows(rows, n))
  {
    if n > 0 {
      DistinctIs(rows, n - 1);
      assert rows[..n] == rows[..n - 1] + [rows[n - 1]];
      if rows[n - 1] !in DistinctRows(rows, n - 1) {
        OneMore(DistinctRows(rows, n - 1), rows[n - 1]);
      }
    }
  }

  // ---------------------------------------------------------------- made-up names

  lemma DigitAt(n: nat)
    requires n < 10
    ensures forall m: nat :: m < 10 && "0123456789"[m] == "0123456789"[n] ==> m == n
  {
  }

  lemma {:induction false} DigitsNonempty(n: nat)
    ensures |Digits(n)| >= 1 && (|Digits(n)| == 1 <==> n < 10)
  {
    if n >= 10 {
      DigitsNonempty(n / 10);
    }
  }

  /** Different numbers have different digits. */
  lemma {:induction false} DigitsDiffer(m: nat, n: nat)
    requires m != n
    ensures Digits(m) != Digits(n)
  {
    DigitsNonempty(m);
    DigitsNonempty(n);
    if m < 10 && n < 10 {
      DigitAt(n);
      assert Digits(m)[0] == "0123456789"[m] && Digits(n)[0] == "0123456789"[n];
    } else if m >= 10 && n >= 10 {
      var a, b := Digits(m), Digits(n);
      assert a[..|a| - 1] == Digits(m / 10) && b[..|b| - 1] == Digits(n / 10);
      assert a[|a| - 1] == "0123456789"[m % 10] && b[|b| - 1] == "0123456789"[n % 10];
      if m / 10 == n / 10 {
        DigitAt(n % 10);
      } else {
        DigitsDiffer(m / 10, n / 10);
      }
    }
  }

  lemma NumberedDiffer(prefix: string, m: nat, n: nat)
    requires m != n
    ensures prefix + Digits(m) != prefix + Digits(n)
  {
    DigitsDiffer(m, n);
    assert (prefix + Digits(m))[|prefix|..] == Digits(m) && (prefix + Digits(n))[|prefix|..] == Digits(n);
  }

  predicate HasNoName(item: Bound) {
    !item.ColumnRef? && !item.Alias?
  }

  lemma {:induction false} ItemNameAt(items: seq<Bound>, id: nat, i: nat)
    requires i < |items|
    ensures ItemNames(items, id)[i] == ItemName(items[i], id + Unnamed(items[..i]))
  {
    var n := |items| - 1;
    if i < n {
      ItemNameAt(items[..n], id, i);
      assert items[..n][..i] == items[..i];
    }
  }

  lemma {:induction false} UnnamedGrows(items: seq<Bound>, i: nat, j: nat)
    requires i < j <= |items|
    ensures Unnamed(items[..i]) + (if HasNoName(items[i]) then 1 else 0) <= Unnamed(items[..j]) <= j
  {
    assert items[..j][..j - 1] == items[..j - 1];
    if i < j - 1 {
      UnnamedGrows(items, i, j - 1);
    } else {
      UnnamedAtMost(items[..i]);
    }
  }

  lemma {:induction false} UnnamedAtMost(items: seq<Bound>)
    ensures Unnamed(items) <= |items|
  {
    if items != [] {
      UnnamedAtMost(items[..|items| - 1]);
    }
  }

  /** No two select items without a name of their own get the same name. */
  lemma ItemNamesDiffer(items: seq<Bound>, id: nat, i: nat, j: nat)
    requires i < j < |items| && HasNoName(items[i]) && HasNoName(items[j])
    ensures ItemNames(items, id)[i] != ItemNames(items, id)[j]
  {
    ItemNameAt(items, id, i);
    ItemNameAt(items, id, j);
    UnnamedGrows(items, i, j);
    NumberedDiffer(UNNAMED_ITEM, id + Unnamed(items[..i]), id + Unnamed(items[..j]));
  }

  ghost function UnnamedColumns(names: seq<string>): nat {
    if names == [] then 0 else (if names[0] == UNNAMED_COLUMN then 1 else 0) + UnnamedColumns(names[1..])
  }

  /** A column with a name keeps it; the others are numbered one after the other. */
  lemma {:induction false} NumberedAt(names: seq<string>, id: nat, i: nat)
    requires i < |names|
    ensures Numbered(names, id)[i]
            == if names[i] == UNNAMED_COLUMN then UNNAMED_OUTPUT + Digits(id + UnnamedColumns(names[..i]))
               else names[i]
  {
    hide Digits;
    if i > 0 {
      assert names[..i][0] == names[0] && names[..i][1..] == names[1..][..i - 1];
      NumberedAt(names[1..], if names[0] == UNNAMED_COLUMN then id + 1 else id, i - 1);
    }
  }

  lemma {:induction false} UnnamedColumnsGrow(names: seq<string>, i: nat, j: nat)
    requires i < j < |names| && names[i] == UNNAMED_COLUMN
    ensures UnnamedColumns(names[..i]) < UnnamedColumns(names[..j])
  {
    assert names[..j][0] == names[0] && names[..j][1..] == names[1..][..j - 1];
    if i > 0 {
      assert names[..i][0] == names[0] && names[..i][1..] == names[1..][..i - 1];
      UnnamedColumnsGrow(names[1..], i - 1, j - 1);
    }
  }

  /** No two unnamed output columns get the same name. */
  lemma OutputsDiffer(names: seq<string>, id: nat, i: nat, j: nat)
    requires i < j < |names| && names[i] == UNNAMED_COLUMN == names[j]
    ensures Numbered(names, id)[i] != Numbered(names, id)[j]
  {
    NumberedAt(names, id, i);
    NumberedAt(names, id, j);
    UnnamedColumnsGrow(names, i, j);
    NumberedDiffer(UNNAMED_OUTPUT, id + UnnamedColumns(names[..i]), id + UnnamedColumns(names[..j]));
  }

  // ---------------------------------------------------------------- the star

  /** Every name has a table and a column part. */
  ghost predicate TwoParts(names: seq<seq<string>>) {
    forall i :: 0 <= i < |names| ==> |names[i]| >= 2
  }

  lemma {:induction false} StarHasTwoParts(ref: TableRef)
    requires AllNamed(ref)
    ensures TwoParts(GetAllColumns(ref))
  {
    match ref
    case CrossProduct(l, r) =>
      StarHasTwoParts(l);
      StarHasTwoParts(r);
    case JoinOn(_, l, r, _) =>
      StarHasTwoParts(l);
      StarHasTwoParts(r);
    case _ =>
  }

  lemma {:induction false} NamedStay(names: seq<string>, id: nat)
    requires forall i :: 0 <= i < |names| ==> names[i] != UNNAMED_COLUMN
    ensures Numbered(names, id) == names
  {
    if names != [] {
      NamedStay(names[1..], id);
    }
  }

  /** The select list of all columns keeps the columns' names. */
  lemma StarKeepsNames(names: seq<seq<string>>, child: Plan, id: nat)
    requires TwoParts(names)
    ensures PlanSelectList(Refs(names), child, id) == PlanItems(Refs(names), child)
  {
    hide PlanList;
    var p := PlanItems(Refs(names), child);
    if p.Ok? {
      var found := SchemaNames(p.value.schema);
      forall i | 0 <= i < |names| ensures found[i] != UNNAMED_COLUMN {
        PlannedNames(Refs(names), [child.schema], [], 0, i);
        Lowering.QualifiedHasDot(names[i]);
        assert found[i] == Dotted(names[i]);
      }
      NamedStay(found, id);
      assert Renamed(p.value.schema, found) == p.value.schema;
    }
  }

  /** `SELECT *` with at most a WHERE. */
  predicate StarOnly(q: Body) {
    q.list == AllColumns && q.groupBys == [] && q.having == None && !q.distinct && q.sort == [] && q.limit == None
    && q.offset == None
  }

  /** The general planner plans `SELECT * FROM ref WHERE where` as the star of FromClause. */
  lemma StarIsPlanned(cat: Catalog, q: Body, ref: TableRef)
    requires StarOnly(q) && AllNamed(ref) && GetAllColumns(ref) != [] && PlanTableRef(cat, ref).Ok?
    ensures PlanBody(q, PlanTableRef(cat, ref).value, GetAllColumns(ref)) == PlanSelectStar(cat, ref, q.where)
  {
    hide PlanTableRef, PlanWhere, PlanItems, PlanSelectList;
    var names, from := GetAllColumns(ref), PlanTableRef(cat, ref).value;
    StarHasTwoParts(ref);
    RefsHaveNoCalls(names);
    if PlanWhere(q.where, from).Ok? {
      StarKeepsNames(names, PlanWhere(q.where, from).value, q.outputId);
    }
  }

  /** `SELECT * FROM ref`: every column of the FROM clause, in its place and under its name, with every row. */
  lemma StarBodyIs(cat: Catalog, q: Body, ref: TableRef)
    requires CatalogOk(cat) && RefOk(cat, ref) && AllNamed(ref) && GetAllColumns(ref) != []
    requires StarOnly(q) && q.where == None
    requires PlanTableRef(cat, ref).Ok? && DistinctNames(PlanTableRef(cat, ref).value.schema)
    ensures var plan, names := PlanBody(q, PlanTableRef(cat, ref).value, GetAllColumns(ref)), GetAllColumns(ref);
            && plan.Ok? && |plan.value.schema| == |names|
            && (forall i :: 0 <= i < |names| ==> plan.value.schema[i].name == Dotted(names[i]))
            && Rows(cat, plan.value) == FromRows(cat, ref)
  {
    hide PlanTableRef, RefOk, FromRows, Rows, AllNamed, PlanBody, WellFormed, CatalogOk;
    var from := PlanTableRef(cat, ref).value;
    StarIsPlanned(cat, q, ref);
    StarPlansExactly(cat, ref, None);
    StarNamesAgree(cat, ref);
    StarIsRemoved(cat, ref, None);
    FromReady(cat, ref);
    FromMeans(cat, ref);
    ItemsReady(cat, Refs(GetAllColumns(ref)), from);
    StarSameRows(cat, PlanSelectStar(cat, ref, None).value, from);
  }

  /** A query that is one star is planned as the star of FromClause, and its columns are named as its FROM clause
      names them. */
  lemma StarQueryIsPlanned(cat: Catalog, q: Query, ref: TableRef)
    requires q.from.Some? && PlanFrom(cat, q.from.value, q.ctes).Ok?
    requires ref == PlanFrom(cat, q.from.value, q.ctes).value.ref
    requires StarOnly(q.body) && AllNamed(ref) && GetAllColumns(ref) != []
    ensures var made := PlanQuery(cat, q, []);
            && (made.Ok? <==> PlanSelectStar(cat, ref, q.body.where).Ok?)
            && (made.Ok? ==> made.value.answer
                             == Answer(PlanSelectStar(cat, ref, q.body.where).value, GetAllColumns(ref)))
  {
    hide PlanFrom, PlanTableRef, PlanBody, AllNamed, GetAllColumns, SpentBody, PlanWhere, PlanItems;
    if PlanTableRef(cat, ref).Ok? {
      StarIsPlanned(cat, q.body, ref);
    }
    StarItemNames(GetAllColumns(ref), q.itemId);
  }

  // ---------------------------------------------------------------- base tables

  /** The columns of a table are the catalog's, under the alias if it has one and under the table's name if not. */
  lemma TableColumns(cat: Catalog, table: string, alias: Option<string>, columns: Schema, i: nat)
    requires PlanTableRef(cat, BaseTable(table, alias, columns)).Ok? && i < |columns|
    ensures var schema := PlanTableRef(cat, BaseTable(table, alias, columns)).value.schema;
            && |schema| == |columns| && schema[i].ty == columns[i].ty
            && (alias == None ==> schema[i].name == table + "." + columns[i].name
                                  && GetAllColumns(BaseTable(table, alias, columns))[i] == [table, columns[i].name])
            && (alias.Some? ==> schema[i].name == alias.value + "." + columns[i].name
                                && GetAllColumns(BaseTable(table, alias, columns))[i] == [alias.value, columns[i].name])
  {
  }
}

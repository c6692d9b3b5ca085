/**
 * Bound expressions as the binder hands them to the planner, planned into
 * executable expressions.  The reference meaning looks columns up by name; the
 * planned expression looks them up by position.
 */
module Binding {
  import opened Common
  import opened Expressions
  import opened Plans

  const UNNAMED_COLUMN := "<unnamed>"

  datatype Bound =
    | ColumnRef(parts: seq<string>)
    | Constant(value: Value)
    | BinaryOp(op: string, larg: Bound, rarg: Bound)
    | AggCall(func: string, distinct: bool, args: seq<Bound>)
    | Alias(alias: string, child: Bound)
    | Star

  /** The parts joined by dots. */
  function Dotted(parts: seq<string>): string {
    if parts == [] then ""
    else if |parts| == 1 then parts[0]
    else parts[0] + "." + Dotted(parts[1..])
  }

  // ---------------------------------------------------------------- columns by name

  /** How many columns carry the name. */
  function Occurrences(schema: Schema, name: string): nat {
    if schema == [] then 0
    else (if schema[0].name == name then 1 else 0) + Occurrences(schema[1..], name)
  }

  /** The first column of that name. */
  function TryGetColIdx(schema: Schema, name: string): (r: Option<nat>)
    ensures r.Some? ==> r.value < |schema| && schema[r.value].name == name
    ensures r.Some? ==> forall i :: 0 <= i < r.value ==> schema[i].name != name
    ensures r.None? ==> forall i :: 0 <= i < |schema| ==> schema[i].name != name
  {
    if schema == [] then None
    else if schema[0].name == name then Some(0)
    else
      var rest := TryGetColIdx(schema[1..], name);
      if rest.None? then None
      else
        assert forall i :: 1 <= i < |schema| ==> schema[i] == schema[1..][i - 1];
        Some(rest.value + 1)
  }

  /** The duplicate check of a single-child column reference: a flag and a pass over the columns. */
  method HasDuplicate(schema: Schema, name: string) returns (duplicated: bool)
    ensures duplicated <==> Occurrences(schema, name) > 1
  {
    var found := false;
    var i := 0;
    while i < |schema|
      invariant 0 <= i <= |schema|
      invariant Occurrences(schema, name) == (if found then 1 else 0) + Occurrences(schema[i..], name)
    {
      if schema[i].name == name {
        if found {
          return true;
        }
        found := true;
      }
      i := i + 1;
    }
    duplicated := false;
  }

  lemma {:induction false} OneOccurrence(schema: Schema, name: string, i: nat)
    requires Occurrences(schema, name) <= 1 && i < |schema| && schema[i].name == name
    ensures TryGetColIdx(schema, name) == Some(i)
  {
    if i > 0 {
      OccursAt(schema[1..], name, i - 1);
      OneOccurrence(schema[1..], name, i - 1);
    }
  }

  lemma {:induction false} OccursAt(schema: Schema, name: string, i: nat)
    requires i < |schema| && schema[i].name == name
    ensures Occurrences(schema, name) > 0
  {
    if i > 0 {
      OccursAt(schema[1..], name, i - 1);
    }
  }

  /** A name found nowhere else occurs once; distinct names all do. */
  lemma {:induction false} DistinctOccursOnce(schema: Schema, name: string)
    requires DistinctNames(schema)
    ensures Occurrences(schema, name) <= 1
  {
    if schema != [] {
      var rest := schema[1..];
      assert forall i :: 0 <= i < |rest| ==> rest[i] == schema[i + 1];
      DistinctOccursOnce(rest, name);
      if schema[0].name == name && Occurrences(rest, name) > 0 {
        var i := OccursSomewhere(rest, name);
      }
    }
  }

  lemma {:induction false} OccursSomewhere(schema: Schema, name: string) returns (i: nat)
    requires Occurrences(schema, name) > 0
    ensures i < |schema| && schema[i].name == name
  {
    if schema[0].name == name {
      i := 0;
    } else {
      var j := OccursSomewhere(schema[1..], name);
      i := j + 1;
    }
  }

  // ---------------------------------------------------------------- planning

  function TypeOf(e: Expr): TypeId {
    match e
    case Column(_, _, ty) => ty
    case Const(v) => if v.Bool? then BOOLEAN else INTEGER
    case Compare(_, _, _) => BOOLEAN
    case Arith(_, _, _) => INTEGER
    case Logic(_, _, _) => BOOLEAN
  }

  function PlanColumnRef(parts: seq<string>, schemas: seq<Schema>): Result<Expr> {
    var name := Dotted(parts);
    if |schemas| == 0 then Err("column ref should have at least one child")
    else if |schemas| == 1 then
      var idx := TryGetColIdx(schemas[0], name);
      if Occurrences(schemas[0], name) > 1 then Err("duplicated column found in schema")
      else if idx.None? then Err("Column does not exist")
      else Ok(Column(0, idx.value, schemas[0][idx.value].ty))
    else if |schemas| == 2 then
      var l, r := TryGetColIdx(schemas[0], name), TryGetColIdx(schemas[1], name);
      if l.Some? && r.Some? then Err("ambiguous column name")
      else if l.Some? then Ok(Column(0, l.value, schemas[0][l.value].ty))
      else if r.Some? then Ok(Column(1, r.value, schemas[1][r.value].ty))
      else Err("column name not found")
    else Err("no executor with expression has more than 2 children for now")
  }

  function BinaryFromFactory(op: string, l: Expr, r: Expr): Result<Expr> {
    if op == "=" || op == "==" then Ok(Compare(Equal, l, r))
    else if op == "!=" || op == "<>" then Ok(Compare(NotEqual, l, r))
    else if op == "<" then Ok(Compare(LessThan, l, r))
    else if op == "<=" then Ok(Compare(LessThanOrEqual, l, r))
    else if op == ">" then Ok(Compare(GreaterThan, l, r))
    else if op == ">=" then Ok(Compare(GreaterThanOrEqual, l, r))
    else if op == "+" || op == "-" then
      if TypeOf(l) != INTEGER || TypeOf(r) != INTEGER then Err("only support integer for now")
      else Ok(Arith(if op == "+" then Plus else Minus, l, r))
    else if op == "and" || op == "or" then
      if TypeOf(l) != BOOLEAN || TypeOf(r) != BOOLEAN then Err("expect boolean from either side")
      else Ok(Logic(if op == "and" then And else Or, l, r))
    else Err("binary op not supported in planner yet")
  }

  /** A planned expression, its column name and how far the aggregate slots are consumed. */
  datatype Planned = Planned(name: string, expr: Expr, next: nat)

  /** An aggregate call takes the next unused slot. */
  function PlanExpr(e: Bound, schemas: seq<Schema>, slots: seq<Expr>, next: nat): Result<Planned> {
    match e
    case AggCall(_, _, _) =>
      if next >= |slots| then Err("unexpected agg call") else Ok(Planned(UNNAMED_COLUMN, slots[next], next + 1))
    case ColumnRef(parts) =>
      var c := PlanColumnRef(parts, schemas);
      if c.Err? then Err(c.reason) else Ok(Planned(Dotted(parts), c.value, next))
    case BinaryOp(op, larg, rarg) =>
      var l := PlanExpr(larg, schemas, slots, next);
      if l.Err? then l
      else
        var r := PlanExpr(rarg, schemas, slots, l.value.next);
        if r.Err? then r
        else
          var b := BinaryFromFactory(op, l.value.expr, r.value.expr);
          if b.Err? then Err(b.reason) else Ok(Planned(UNNAMED_COLUMN, b.value, r.value.next))
    case Constant(v) => Ok(Planned(UNNAMED_COLUMN, Const(v), next))
    case Alias(alias, child) =>
      var c := PlanExpr(child, schemas, slots, next);
      if c.Err? then c else Ok(c.value.(name := alias))
    case Star => Err("expression type not supported in planner yet")
  }

  // ---------------------------------------------------------------- typing

  function BinaryType(op: string, l: TypeId, r: TypeId): Option<TypeId> {
    if op == "=" || op == "==" || op == "!=" || op == "<>" || op == "<" || op == "<=" || op == ">" || op == ">="
    then Some(BOOLEAN)
    else if (op == "+" || op == "-") && l == INTEGER && r == INTEGER then Some(INTEGER)
    else if (op == "and" || op == "or") && l == BOOLEAN && r == BOOLEAN then Some(BOOLEAN)
    else None
  }

  /** The type of an expression over a schema, aggregates being integers; none if it makes no sense there. */
  function TypeOfBound(e: Bound, schema: Schema): Option<TypeId> {
    match e
    case ColumnRef(parts) =>
      var idx := TryGetColIdx(schema, Dotted(parts));
      if idx.Some? && Occurrences(schema, Dotted(parts)) == 1 then Some(schema[idx.value].ty) else None
    case Constant(v) => Some(if v.Bool? then BOOLEAN else INTEGER)
    case BinaryOp(op, larg, rarg) =>
      var l, r := TypeOfBound(larg, schema), TypeOfBound(rarg, schema);
      if l.Some? && r.Some? then BinaryType(op, l.value, r.value) else None
    case AggCall(_, _, _) => Some(INTEGER)
    case Alias(_, child) => TypeOfBound(child, schema)
    case Star => None
  }

  lemma FactoryTypes(op: string, l: Expr, r: Expr)
    ensures BinaryFromFactory(op, l, r).Ok? <==> BinaryType(op, TypeOf(l), TypeOf(r)).Some?
    ensures BinaryFromFactory(op, l, r).Ok?
            ==> BinaryType(op, TypeOf(l), TypeOf(r)) == Some(TypeOf(BinaryFromFactory(op, l, r).value))
  {
  }

  lemma ColumnTypes(parts: seq<string>, schema: Schema)
    ensures PlanColumnRef(parts, [schema]).Ok? <==> TypeOfBound(ColumnRef(parts), schema).Some?
    ensures PlanColumnRef(parts, [schema]).Ok?
            ==> TypeOfBound(ColumnRef(parts), schema) == Some(TypeOf(PlanColumnRef(parts, [schema]).value))
  {
    var idx := TryGetColIdx(schema, Dotted(parts));
    if idx.Some? {
      OccursAt(schema, Dotted(parts), idx.value);
    }
  }

  // ---------------------------------------------------------------- meaning by name

  function NamedValue(schema: Schema, row: Row, name: string): Value {
    var idx := TryGetColIdx(schema, name);
    if idx.None? then Null else ValueAt(row, idx.value)
  }

  function BinaryValue(op: string, v: Value, w: Value): Value {
    if op == "=" || op == "==" then CompareValues(Equal, v, w)
    else if op == "!=" || op == "<>" then CompareValues(NotEqual, v, w)
    else if op == "<" then CompareValues(LessThan, v, w)
    else if op == "<=" then CompareValues(LessThanOrEqual, v, w)
    else if op == ">" then CompareValues(GreaterThan, v, w)
    else if op == ">=" then CompareValues(GreaterThanOrEqual, v, w)
    else if op == "+" then ArithValues(Plus, v, w)
    else if op == "-" then ArithValues(Minus, v, w)
    else if op == "and" then LogicValues(And, v, w)
    else if op == "or" then LogicValues(Or, v, w)
    else Null
  }

  /** What the expression means on one row: columns by name, no aggregates. */
  function EvalBound(e: Bound, schema: Schema, row: Row): Value {
    match e
    case ColumnRef(parts) => NamedValue(schema, row, Dotted(parts))
    case Constant(v) => v
    case BinaryOp(op, l, r) => BinaryValue(op, EvalBound(l, schema, row), EvalBound(r, schema, row))
    case Alias(_, child) => EvalBound(child, schema, row)
    case AggCall(_, _, _) => Null
    case Star => Null
  }

  lemma BinaryMeans(op: string, l: Expr, r: Expr, row: Row)
    requires BinaryFromFactory(op, l, r).Ok?
    ensures Eval(BinaryFromFactory(op, l, r).value, row) == BinaryValue(op, Eval(l, row), Eval(r, row))
  {
  }

  lemma BinaryMeansJoin(op: string, l: Expr, r: Expr, left: Row, right: Row)
    requires BinaryFromFactory(op, l, r).Ok?
    ensures EvalJoin(BinaryFromFactory(op, l, r).value, left, right)
            == BinaryValue(op, EvalJoin(l, left, right), EvalJoin(r, left, right))
  {
  }

  lemma BinaryFits(op: string, l: Expr, r: Expr, m: nat, n: nat)
    requires BinaryFromFactory(op, l, r).Ok?
    ensures Fits(l, m) && Fits(r, m) ==> Fits(BinaryFromFactory(op, l, r).value, m)
    ensures FitsJoin(l, m, n) && FitsJoin(r, m, n) ==> FitsJoin(BinaryFromFactory(op, l, r).value, m, n)
  {
  }

  /** Without aggregates, the planned expression means on a row what the bound one means by name. */
  lemma {:induction false} PlannedMeans(e: Bound, schema: Schema, next: nat, row: Row)
    requires PlanExpr(e, [schema], [], next).Ok?
    ensures var p := PlanExpr(e, [schema], [], next).value;
            Eval(p.expr, row) == EvalBound(e, schema, row) && Fits(p.expr, |schema|) && p.next == next
  {
    match e
    case BinaryOp(op, larg, rarg) =>
      PlannedMeans(larg, schema, next, row);
      PlannedMeans(rarg, schema, next, row);
      var l, r := PlanExpr(larg, [schema], [], next).value.expr, PlanExpr(rarg, [schema], [], next).value.expr;
      BinaryMeans(op, l, r, row);
      BinaryFits(op, l, r, |schema|, 0);
      hide BinaryValue, BinaryFromFactory;
    case Alias(_, child) => PlannedMeans(child, schema, next, row);
    case _ =>
  }

  lemma {:induction false} NamedInJoin(left: Schema, right: Schema, name: string)
    ensures TryGetColIdx(left, name).Some? ==> TryGetColIdx(left + right, name) == TryGetColIdx(left, name)
    ensures TryGetColIdx(left, name).None? && TryGetColIdx(right, name).Some?
            ==> TryGetColIdx(left + right, name) == Some(|left| + TryGetColIdx(right, name).value)
  {
    if left == [] {
      assert left + right == right;
    } else {
      assert (left + right)[0] == left[0] && (left + right)[1..] == left[1..] + right;
      NamedInJoin(left[1..], right, name);
    }
  }

  /** A join condition means on (left, right) what the bound one means by name on the joined row. */
  lemma {:induction false} PlannedMeansJoin(e: Bound, left: Schema, right: Schema, next: nat, l: Row, r: Row)
    requires PlanExpr(e, [left, right], [], next).Ok? && |l| == |left| && |r| == |right|
    ensures var p := PlanExpr(e, [left, right], [], next).value;
            && EvalJoin(p.expr, l, r) == EvalBound(e, left + right, l + r)
            && FitsJoin(p.expr, |left|, |right|) && p.next == next
  {
    match e
    case ColumnRef(parts) => NamedInJoin(left, right, Dotted(parts));
    case BinaryOp(op, larg, rarg) =>
      PlannedMeansJoin(larg, left, right, next, l, r);
      PlannedMeansJoin(rarg, left, right, next, l, r);
      var pl, pr := PlanExpr(larg, [left, right], [], next).value.expr,
                    PlanExpr(rarg, [left, right], [], next).value.expr;
      BinaryMeansJoin(op, pl, pr, l, r);
      BinaryFits(op, pl, pr, |left|, |right|);
      hide BinaryValue, BinaryFromFactory;
    case Alias(_, child) => PlannedMeansJoin(child, left, right, next, l, r);
    case _ =>
  }
}

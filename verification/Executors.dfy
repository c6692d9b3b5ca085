/**
 * The pull-based executors of values, filter and projection.  A stack of them is
 * initialised, then asked for one tuple at a time; draining it is proved to produce
 * the rows its plan stands for, and initialising it again to rewind it.
 */
module Executors {
  import opened Expressions
  import opened Relations
  import opened Plans

  /** Filters and projections over a values list. */
  predicate IsStack(p: Plan) {
    match p.op
    case Values(_) => p.children == []
    case Filter(_) => |p.children| == 1 && IsStack(p.children[0])
    case Projection(_) => |p.children| == 1 && IsStack(p.children[0])
    case _ => false
  }

  /** Evaluates the expressions one after the other. */
  method EvaluateAll(exprs: seq<Expr>, row: Row) returns (values: Row)
    ensures values == EvalAll(exprs, row)
  {
    values := [];
    var i := 0;
    while i < |exprs|
      invariant 0 <= i <= |exprs| && |values| == i
      invariant forall j :: 0 <= j < i ==> values[j] == Eval(exprs[j], row)
    {
      values := values + [Eval(exprs[i], row)];
      i := i + 1;
    }
  }

  lemma StackRows(cat: Catalog, p: Plan)
    requires IsStack(p)
    ensures p.op.Values? ==> Rows(cat, p) == ValueRows(p.op.values)
    ensures p.op.Filter? ==> Rows(cat, p) == FilterRows(p.op.pred, Rows(cat, p.children[0]))
    ensures p.op.Projection? ==> Rows(cat, p) == MapRows(p.op.exprs, Rows(cat, p.children[0]))
  {
    assert !p.op.Values? ==> KidRows(cat, p)[0] == Rows(cat, p.children[0]);
  }

  lemma MapNothing(exprs: seq<Expr>)
    ensures MapRows(exprs, []) == []
  {
  }

  lemma MapFirst(exprs: seq<Expr>, row: Row, rest: seq<Row>)
    ensures MapRows(exprs, [row] + rest) == [EvalAll(exprs, row)] + MapRows(exprs, rest)
  {
  }

  class Executor {
    const plan: Plan
    const child: Executor?
    var cursor: nat
    ghost const Repr: set<Executor>

    /** The executor mirrors its plan, and its child is an executor of the plan's child. */
    ghost predicate Valid()
      reads this, Repr
      decreases plan
    {
      && this in Repr && IsStack(plan)
      && (plan.op.Values? ==> child == null && Repr == {this} && cursor <= |plan.op.values|)
      && (!plan.op.Values? ==>
            && child != null && child in Repr && this !in child.Repr && Repr == {this} + child.Repr
            && child.plan == plan.children[0] && child.Valid())
    }

    /** The rows still to come. */
    ghost function Remaining(): seq<Row>
      requires Valid()
      reads this, Repr
      decreases plan
    {
      match plan.op
      case Values(values) => ValueRows(values)[cursor..]
      case Filter(pred) => FilterRows(pred, child.Remaining())
      case Projection(exprs) => MapRows(exprs, child.Remaining())
    }

    /** How many value lists the bottom of the stack has not handed out yet. */
    ghost function Left(): nat
      requires Valid()
      reads this, Repr
      decreases plan
    {
      if plan.op.Values? then |plan.op.values| - cursor else child.Left()
    }

    constructor (p: Plan, c: Executor?)
      requires IsStack(p)
      requires p.op.Values? <==> c == null
      requires c != null ==> c.Valid() && c.plan == p.children[0]
      ensures Valid() && plan == p
      ensures c == null ==> fresh(Repr)
      ensures c != null ==> fresh(Repr - c.Repr)
    {
      plan, child, cursor := p, c, 0;
      Repr := {this} + if c == null then {} else c.Repr;
    }

    /** Rewinds the whole stack. */
    method Init(ghost cat: Catalog)
      requires Valid()
      modifies Repr
      ensures Valid() && Remaining() == Rows(cat, plan)
      decreases plan
    {
      StackRows(cat, plan);
      if plan.op.Values? {
        cursor := 0;
      } else {
        child.Init(cat);
      }
    }

    /** Hands out the next row, if any; a filter pulls until a row passes or its child is exhausted. */
    method Next() returns (status: bool, tuple: Row)
      requires Valid()
      modifies Repr
      ensures Valid()
      ensures status <==> old(Remaining()) != []
      ensures status ==> [tuple] + Remaining() == old(Remaining()) && Left() < old(Left())
      ensures !status ==> Remaining() == [] && Left() == 0
      decreases plan, 1
    {
      match plan.op
      case Values(values) => status, tuple := NextValues();
      case Filter(pred) => status, tuple := NextFiltered();
      case Projection(exprs) => status, tuple := NextProjected();
    }

    method NextValues() returns (status: bool, tuple: Row)
      requires Valid() && plan.op.Values?
      modifies this`cursor
      ensures Valid()
      ensures status <==> old(Remaining()) != []
      ensures status ==> [tuple] + Remaining() == old(Remaining()) && Left() < old(Left())
      ensures !status ==> Remaining() == [] && Left() == 0
    {
      if cursor >= |plan.op.values| {
        return false, [];
      }
      tuple := EvaluateAll(plan.op.values[cursor], []);
      cursor := cursor + 1;
      status := true;
    }

    method NextFiltered() returns (status: bool, tuple: Row)
      requires Valid() && plan.op.Filter?
      modifies Repr
      ensures Valid()
      ensures status <==> old(Remaining()) != []
      ensures status ==> [tuple] + Remaining() == old(Remaining()) && Left() < old(Left())
      ensures !status ==> Remaining() == [] && Left() == 0
      decreases plan, 0
    {
      while true
        invariant Valid() && Left() <= old(Left())
        invariant Remaining() == old(Remaining())
        decreases Left()
      {
        ghost var before := child.Remaining();
        status, tuple := child.Next();
        if !status {
          return;
        }
        assert before[0] == tuple && before[1..] == child.Remaining();
        var value := Eval(plan.op.pred, tuple);
        if value == Bool(true) {
          return;
        }
      }
    }

    method NextProjected() returns (status: bool, tuple: Row)
      requires Valid() && plan.op.Projection?
      modifies Repr
      ensures Valid()
      ensures status <==> old(Remaining()) != []
      ensures status ==> [tuple] + Remaining() == old(Remaining()) && Left() < old(Left())
      ensures !status ==> Remaining() == [] && Left() == 0
      decreases plan, 0
    {
      hide MapRows, EvalAll;
      var childTuple;
      status, childTuple := child.Next();
      if !status {
        MapNothing(plan.op.exprs);
        return status, [];
      }
      MapFirst(plan.op.exprs, childTuple, child.Remaining());
      tuple := EvaluateAll(plan.op.exprs, childTuple);
    }

    /** Initialises the stack and polls it until it is exhausted. */
    method Drain(ghost cat: Catalog) returns (rows: seq<Row>)
      requires Valid()
      modifies Repr
      ensures Valid() && rows == Rows(cat, plan) && Remaining() == []
    {
      hide Valid, Remaining, Left, Rows;
      Init(cat);
      rows := [];
      var status := true;
      while status
        invariant Valid() && rows + Remaining() == Rows(cat, plan)
        invariant !status ==> Remaining() == []
        decreases Left(), status
      {
        var tuple;
        status, tuple := Next();
        if status {
          rows := rows + [tuple];
        }
      }
    }
  }

  /** Builds the executors of a plan from the bottom up. */
  method CreateExecutor(p: Plan) returns (e: Executor)
    requires IsStack(p)
    ensures e.Valid() && e.plan == p && fresh(e.Repr)
    decreases p
  {
    if p.op.Values? {
      e := new Executor(p, null);
    } else {
      var c := CreateExecutor(p.children[0]);
      e := new Executor(p, c);
    }
  }
}

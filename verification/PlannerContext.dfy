/**
 * The planner's mutable context for aggregate queries: collected calls, the columns
 * that stand for them, and the cursor over those columns.  Each method is proved to
 * compute the corresponding function of Binding and Aggregates.
 */
module PlannerContext {
  import opened Common
  import opened Expressions
  import opened Plans
  import opened Binding
  import opened Aggregates
  import opened Naming

  /** Puts what is already done in front of the result for the rest. */
  ghost function Prepend<T>(done: seq<T>, rest: Result<seq<T>>): Result<seq<T>> {
    if rest.Err? then rest else Ok(done + rest.value)
  }

  lemma PrependNothing<T>(rest: Result<seq<T>>)
    ensures Prepend([], rest) == rest
  {
    assert rest.Ok? ==> [] + rest.value == rest.value;
  }

  lemma PrependError<T>(done: seq<T>, rest: Result<seq<T>>)
    requires rest.Err?
    ensures Prepend(done, rest) == rest
  {
  }

  lemma PrependDone(es: seq<Bound>, done: seq<Planned>, schemas: seq<Schema>, slots: seq<Expr>, next: nat)
    ensures Prepend(done, PlanList(es[|es|..], schemas, slots, next)) == Ok(done)
  {
    assert done + [] == done;
  }

  lemma PrependStep<T>(done: seq<T>, x: T, rest: Result<seq<T>>)
    ensures Prepend(done, Prepend([x], rest)) == Prepend(done + [x], rest)
  {
    assert rest.Ok? ==> done + ([x] + rest.value) == (done + [x]) + rest.value;
  }

  lemma PlanListStep(es: seq<Bound>, i: nat, schemas: seq<Schema>, slots: seq<Expr>, next: nat)
    requires i < |es|
    ensures var p := PlanExpr(es[i], schemas, slots, next);
            PlanList(es[i..], schemas, slots, next)
            == if p.Err? then Err(p.reason) else Prepend([p.value], PlanList(es[i + 1..], schemas, slots, p.value.next))
  {
    assert es[i..][0] == es[i] && es[i..][1..] == es[i + 1..];
  }

  /** The two expressions plan alike whatever the schemas, the slots and the cursor. */
  ghost predicate SamePlans(e: Bound, f: Bound) {
    forall schemas, slots, next :: PlanExpr(e, schemas, slots, next) == PlanExpr(f, schemas, slots, next)
  }

  lemma PseudoSamePlans(e: Bound, base: nat)
    ensures SamePlans(e, Pseudo(e, base))
  {
    forall schemas, slots, next
      ensures PlanExpr(e, schemas, slots, next) == PlanExpr(Pseudo(e, base), schemas, slots, next)
    {
      PseudoPlansTheSame(e, base, schemas, slots, next);
    }
  }

  lemma {:induction false} PseudoAllSamePlans(es: seq<Bound>, base: nat, i: nat)
    requires i < |es|
    ensures SamePlans(es[i], PseudoAll(es, base)[i])
  {
    hide SamePlans;
    if i == 0 {
      PseudoSamePlans(es[0], base);
    } else {
      PseudoAllSamePlans(es[1..], base + |Collect(es[0])|, i - 1);
    }
  }

  lemma PseudoAllStep(es: seq<Bound>, i: nat, base: nat, done: seq<Bound>)
    requires i < |es|
    ensures done + PseudoAll(es[i..], base)
            == (done + [Pseudo(es[i], base)]) + PseudoAll(es[i + 1..], base + |Collect(es[i])|)
  {
    assert es[i..][0] == es[i] && es[i..][1..] == es[i + 1..];
  }

  lemma {:induction false} SamePlansList(es: seq<Bound>, fs: seq<Bound>, schemas: seq<Schema>, slots: seq<Expr>,
                                         next: nat)
    requires |es| == |fs| && forall i :: 0 <= i < |es| ==> SamePlans(es[i], fs[i])
    ensures PlanList(es, schemas, slots, next) == PlanList(fs, schemas, slots, next)
  {
    hide PlanExpr;
    if es != [] {
      assert SamePlans(es[0], fs[0]);
      var p := PlanExpr(es[0], schemas, slots, next);
      if p.Ok? {
        SamePlansList(es[1..], fs[1..], schemas, slots, p.value.next);
      }
    }
  }

  lemma CollectAllStep(es: seq<Bound>, i: nat, done: seq<Bound>)
    requires i < |es|
    ensures done + CollectAll(es[i..]) == (done + Collect(es[i])) + CollectAll(es[i + 1..])
  {
    assert es[i..][0] == es[i] && es[i..][1..] == es[i + 1..];
  }

  lemma PlanCallsStep(calls: seq<Bound>, i: nat, schema: Schema)
    requires AllCalls(calls) && i < |calls|
    ensures var a := Aggregates.PlanAggCall(calls[i], schema);
            PlanCalls(calls[i..], schema)
            == if a.Err? then Err(a.reason) else Prepend([a.value], PlanCalls(calls[i + 1..], schema))
  {
    assert calls[i..][0] == calls[i] && calls[i..][1..] == calls[i + 1..];
  }

  lemma PlanCallsDone(calls: seq<Bound>, done: seq<Agg>, schema: Schema)
    requires AllCalls(calls)
    ensures Prepend(done, PlanCalls(calls[|calls|..], schema)) == Ok(done)
  {
    assert done + [] == done;
  }

  lemma SlotsStep(groupCount: nat, n: nat)
    ensures Slots(groupCount, n) + [Column(0, groupCount + n, INTEGER)] == Slots(groupCount, n + 1)
  {
  }

  lemma SpentSamePlans(having: Option<Bound>, items: seq<Bound>)
    ensures having.Some? ==> SamePlans(having.value, SpentHaving(having).value)
    ensures forall i :: 0 <= i < |items| ==> SamePlans(items[i], SpentItems(having, items)[i])
  {
    hide SamePlans;
    if having.Some? {
      PseudoSamePlans(having.value, 0);
    }
    forall i | 0 <= i < |items| ensures SamePlans(items[i], SpentItems(having, items)[i]) {
      PseudoAllSamePlans(items, |CollectAll(HavingList(having))|, i);
    }
  }

  lemma SameOver(having: Option<Bound>, items: seq<Bound>, h: Option<Bound>, its: seq<Bound>, agg: Plan,
                 groupCount: nat, n: nat)
    requires (having.Some? <==> h.Some?) && (h.Some? ==> SamePlans(having.value, h.value))
    requires |items| == |its| && forall i :: 0 <= i < |items| ==> SamePlans(items[i], its[i])
    ensures PlanOver(h, its, agg, groupCount, n) == PlanOver(having, items, agg, groupCount, n)
  {
    var slots := Slots(groupCount, n);
    SamePlansList(HavingList(having), HavingList(h), [agg.schema], slots, 0);
    var hs := PlanList(HavingList(having), [agg.schema], slots, 0);
    if hs.Ok? {
      SamePlansList(items, its, [agg.schema], slots, if having.Some? then hs.value[0].next else 0);
    }
    hide SamePlans, PlanExpr, PlanList;
  }

  lemma SpentParts(having: Option<Bound>, items: seq<Bound>)
    ensures var all := PseudoAll(HavingList(having) + items, 0);
            && (having.Some? ==> SpentHaving(having) == Some(all[0]))
            && SpentItems(having, items) == all[|HavingList(having)|..]
  {
    hide PseudoAll, Pseudo;
    SpentAll(having, items);
    var front, back := HavingList(SpentHaving(having)), SpentItems(having, items);
    assert (front + back)[|front|..] == back;
  }

  /** The bound statement; planning it swaps its aggregate calls for placeholders. */
  class SelectStatement {
    const groupBys: seq<Bound>
    var having: Option<Bound>
    var items: seq<Bound>

    constructor (groupBys: seq<Bound>, having: Option<Bound>, items: seq<Bound>)
      ensures this.groupBys == groupBys && this.having == having && this.items == items
    {
      this.groupBys, this.having, this.items := groupBys, having, items;
    }
  }

  class Context {
    var allowAggregation: bool
    var next: nat
    var aggregations: seq<Bound>
    var exprInAgg: seq<Expr>

    constructor ()
      ensures !allowAggregation && next == 0 && aggregations == [] && exprInAgg == []
    {
      allowAggregation, next, aggregations, exprInAgg := false, 0, [], [];
    }

    method AddAggregation(call: Bound) returns (ok: bool)
      modifies this`aggregations
      ensures ok <==> allowAggregation
      ensures aggregations == if ok then old(aggregations) + [call] else old(aggregations)
    {
      ok := allowAggregation;
      if ok {
        aggregations := aggregations + [call];
      }
    }

    /** Moves the calls of `e` into the context and returns the tree with placeholders in their stead. */
    method AddAggCallToContext(e: Bound) returns (r: Result<Bound>)
      modifies this`aggregations
      ensures r.Ok? <==> Collectable(e) && (allowAggregation || Collect(e) == [])
      ensures r.Err? && allowAggregation ==> r.reason == "expression type not supported in planner yet"
      ensures r.Ok? ==> aggregations == old(aggregations) + Collect(e) && r.value == Pseudo(e, |old(aggregations)|)
      decreases e
    {
      match e
      case AggCall(func, distinct, args) =>
        var name := PSEUDO_AGG + Digits(|aggregations|);
        var ok := AddAggregation(e);
        if !ok {
          return Err("AggCall not allowed in this position");
        }
        r := Ok(AggCall(name, distinct, []));
      case ColumnRef(_) => r := Ok(e);
      case BinaryOp(op, larg, rarg) =>
        var l := AddAggCallToContext(larg);
        if l.Err? {
          return l;
        }
        var rr := AddAggCallToContext(rarg);
        if rr.Err? {
          return rr;
        }
        r := Ok(BinaryOp(op, l.value, rr.value));
      case Constant(_) => r := Ok(e);
      case Alias(alias, child) =>
        var c := AddAggCallToContext(child);
        if c.Err? {
          return c;
        }
        r := Ok(Alias(alias, c.value));
      case Star => r := Err("expression type not supported in planner yet");
    }

    /** Plans one expression; an aggregate call takes the next column and advances the cursor. */
    method PlanExpression(e: Bound, schemas: seq<Schema>) returns (r: Result<(string, Expr)>)
      modifies this`next
      ensures var p := PlanExpr(e, schemas, exprInAgg, old(next));
              && (p.Ok? ==> r == Ok((p.value.name, p.value.expr)) && next == p.value.next)
              && (p.Err? ==> r == Err(p.reason))
      decreases e
    {
      match e
      case AggCall(_, _, _) =>
        if next >= |exprInAgg| {
          return Err("unexpected agg call");
        }
        r := Ok((UNNAMED_COLUMN, exprInAgg[next]));
        next := next + 1;
      case ColumnRef(parts) =>
        var c := PlanColumnRef(parts, schemas);
        r := if c.Err? then Err(c.reason) else Ok((Dotted(parts), c.value));
      case BinaryOp(op, larg, rarg) =>
        var l := PlanExpression(larg, schemas);
        if l.Err? {
          return l;
        }
        var rr := PlanExpression(rarg, schemas);
        if rr.Err? {
          return rr;
        }
        var b := BinaryFromFactory(op, l.value.1, rr.value.1);
        r := if b.Err? then Err(b.reason) else Ok((UNNAMED_COLUMN, b.value));
      case Constant(v) => r := Ok((UNNAMED_COLUMN, Const(v)));
      case Alias(alias, child) =>
        var c := PlanExpression(child, schemas);
        r := if c.Err? then c else Ok((alias, c.value.1));
      case Star => r := Err("expression type not supported in planner yet");
    }

    /** Plans a list from left to right. */
    method PlanAll(es: seq<Bound>, schemas: seq<Schema>) returns (r: Result<seq<Planned>>)
      modifies this`next
      ensures r == PlanList(es, schemas, exprInAgg, old(next))
      ensures r.Ok? ==> next == if es == [] then old(next) else r.value[|es| - 1].next
    {
      var done: seq<Planned> := [];
      var i := 0;
      assert es[0..] == es;
      PrependNothing(PlanList(es, schemas, exprInAgg, next));
      hide PlanExpr, PlanList, Prepend;
      while i < |es|
        invariant 0 <= i <= |es| && |done| == i
        invariant next == if i == 0 then old(next) else done[i - 1].next
        invariant PlanList(es, schemas, exprInAgg, old(next))
                  == Prepend(done, PlanList(es[i..], schemas, exprInAgg, next))
      {
        PlanListStep(es, i, schemas, exprInAgg, next);
        ghost var before := next;
        var q := PlanExpression(es[i], schemas);
        if q.Err? {
          PrependError(done, PlanList(es[i..], schemas, exprInAgg, before));
          return Err(q.reason);
        }
        var p := Planned(q.value.0, q.value.1, next);
        PrependStep(done, p, PlanList(es[i + 1..], schemas, exprInAgg, next));
        done := done + [p];
        i := i + 1;
      }
      PrependDone(es, done, schemas, exprInAgg, next);
      r := Ok(done);
    }

    /** The arguments are planned in a context of their own, which is given back afterwards. */
    method PlanAggCall(call: Bound, schema: Schema) returns (r: Result<Agg>)
      requires call.AggCall?
      modifies this
      ensures unchanged(this)
      ensures r == Aggregates.PlanAggCall(call, schema)
    {
      if call.distinct {
        return Err("distinct agg is not implemented yet");
      }
      var allowed, cursor, collected, slots := allowAggregation, next, aggregations, exprInAgg;
      allowAggregation, next, aggregations, exprInAgg := false, 0, [], [];
      var args := PlanAll(call.args, [schema]);
      allowAggregation, next, aggregations, exprInAgg := allowed, cursor, collected, slots;
      if args.Err? {
        return Err(args.reason);
      }
      r := AggCallFromFactory(call.func, Exprs(args.value));
    }

    /** Collects the calls of HAVING, then those of the select list, leaving placeholders. */
    method CollectCalls(es: seq<Bound>) returns (r: Result<seq<Bound>>)
      requires allowAggregation && aggregations == []
      modifies this`aggregations
      ensures r.Ok? <==> AllCollectable(es)
      ensures r.Err? ==> r.reason == "expression type not supported in planner yet"
      ensures r.Ok? ==> aggregations == CollectAll(es) && r.value == PseudoAll(es, 0)
    {
      hide Collectable, Collect, Pseudo;
      var done: seq<Bound> := [];
      var i := 0;
      assert es[0..] == es && [] + PseudoAll(es, 0) == PseudoAll(es, 0);
      while i < |es|
        invariant 0 <= i <= |es| && |done| == i
        invariant aggregations + CollectAll(es[i..]) == CollectAll(es)
        invariant done + PseudoAll(es[i..], |aggregations|) == PseudoAll(es, 0)
        invariant forall j :: 0 <= j < i ==> Collectable(es[j])
      {
        CollectAllStep(es, i, aggregations);
        PseudoAllStep(es, i, |aggregations|, done);
        var p := AddAggCallToContext(es[i]);
        if p.Err? {
          return Err(p.reason);
        }
        done := done + [p.value];
        i := i + 1;
      }
      r := Ok(done);
    }

    /** Phase one: plans the collected calls and lays out one column for each behind the group-bys. */
    method PlanAggregations(schema: Schema, groupCount: nat) returns (r: Result<seq<Agg>>)
      requires AllCalls(aggregations) && exprInAgg == []
      modifies this
      ensures unchanged(`allowAggregation) && unchanged(`next) && unchanged(`aggregations)
      ensures r == PlanCalls(aggregations, schema)
      ensures r.Ok? ==> exprInAgg == Slots(groupCount, |r.value|)
    {
      var done: seq<Agg> := [];
      var termIdx := 0;
      assert aggregations[0..] == aggregations;
      PrependNothing(PlanCalls(aggregations, schema));
      hide PlanCalls, Prepend, Aggregates.PlanAggCall, Slots;
      while termIdx < |aggregations|
        invariant 0 <= termIdx <= |aggregations| == |old(aggregations)| && |done| == termIdx
        invariant unchanged(`allowAggregation) && unchanged(`next) && unchanged(`aggregations)
        invariant exprInAgg == Slots(groupCount, termIdx)
        invariant PlanCalls(aggregations, schema) == Prepend(done, PlanCalls(aggregations[termIdx..], schema))
      {
        PlanCallsStep(aggregations, termIdx, schema);
        var a := PlanAggCall(aggregations[termIdx], schema);
        if a.Err? {
          PrependError(done, PlanCalls(aggregations[termIdx..], schema));
          return Err(a.reason);
        }
        PrependStep(done, a.value, PlanCalls(aggregations[termIdx + 1..], schema));
        SlotsStep(groupCount, termIdx);
        exprInAgg := exprInAgg + [Column(0, groupCount + termIdx, INTEGER)];
        done := done + [a.value];
        termIdx := termIdx + 1;
      }
      PlanCallsDone(aggregations, done, schema);
      r := Ok(done);
    }

    /** Phase two over the aggregation node, with the cursor at the first column. */
    method PlanSelectOver(having: Option<Bound>, items: seq<Bound>, agg: Plan, ghost groupCount: nat)
      returns (r: Result<Plan>)
      requires next == 0 && exprInAgg == Slots(groupCount, |exprInAgg|)
      modifies this`next
      ensures r == PlanOver(having, items, agg, groupCount, |exprInAgg|)
      ensures r.Ok? ==> next == |Calls(having, items)|
    {
      hide PlanExpr, Collect;
      var plan := agg;
      if having.Some? {
        var h := PlanAll([having.value], [agg.schema]);
        if h.Err? {
          return Err(h.reason);
        }
        ListConsumesItsCalls([having.value], [agg.schema], exprInAgg, 0);
        plan := Plan(Filter(h.value[0].expr), agg.schema, [agg]);
      }
      ghost var start := next;
      var ps := PlanAll(items, [agg.schema]);
      if ps.Err? {
        return Err(ps.reason);
      }
      if items != [] {
        ListConsumesItsCalls(items, [agg.schema], exprInAgg, start);
      }
      CollectAllConcat(HavingList(having), items);
      r := Ok(Plan(Projection(Exprs(ps.value)), NamedTypes(ps.value), [plan]));
    }

    /** Lowers an aggregate query; the context is as before afterwards, and the statement has placeholders for calls. */
    method PlanSelectAgg(statement: SelectStatement, child: Plan) returns (r: Result<Plan>)
      modifies this, statement
      ensures unchanged(`allowAggregation) && unchanged(`next) && unchanged(`aggregations) && unchanged(`exprInAgg)
      ensures r == LowerAgg(statement.groupBys, old(statement.having), old(statement.items), child)
      ensures r.Ok? ==> && statement.having == SpentHaving(old(statement.having))
                        && statement.items == SpentItems(old(statement.having), old(statement.items))
    {
      var allowed, cursor, collected, slots := allowAggregation, next, aggregations, exprInAgg;
      allowAggregation, next, aggregations, exprInAgg := true, 0, [], [];
      r := PlanInContext(statement, child);
      allowAggregation, next, aggregations, exprInAgg := allowed, cursor, collected, slots;
    }

    method PlanInContext(statement: SelectStatement, child: Plan) returns (r: Result<Plan>)
      requires allowAggregation && next == 0 && aggregations == [] && exprInAgg == []
      modifies this, statement
      ensures r == LowerAgg(statement.groupBys, old(statement.having), old(statement.items), child)
      ensures r.Ok? ==> && statement.having == SpentHaving(old(statement.having))
                        && statement.items == SpentItems(old(statement.having), old(statement.items))
    {
      hide SamePlans, AllCollectable, PlanOver, PlanList, PlanCalls, CollectAll, Collect, Pseudo, PseudoAll;
      var groupBys, having, items := statement.groupBys, statement.having, statement.items;
      var groups := PlanAll(groupBys, [child.schema]);
      if groups.Err? {
        return Err(groups.reason);
      }
      if groupBys != [] {
        NoSlotsNoCalls(groupBys, [child.schema]);
        ListConsumesItsCalls(groupBys, [child.schema], [], 0);
      }
      var all := CollectCalls(HavingList(having) + items);
      if all.Err? {
        return Err(all.reason);
      }
      SpentParts(having, items);
      statement.having := if having.Some? then Some(all.value[0]) else None;
      statement.items := all.value[|HavingList(having)|..];
      CollectsAllCalls(HavingList(having) + items);
      var aggs := PlanAggregations(child.schema, |groupBys|);
      if aggs.Err? {
        return Err(aggs.reason);
      }
      var agg := AggNode(groups.value, aggs.value, child);
      r := PlanSelectOver(statement.having, statement.items, agg, |groupBys|);
      SameOver(having, items, statement.having, statement.items, agg, |groupBys|, |aggs.value|) by {
        SpentSamePlans(having, items);
      }
    }
  }
}

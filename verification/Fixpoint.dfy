/**
 * The optimizer runs each rule once, one after the other.  Proved here: no later
 * rule makes work for an earlier one, so the result has nothing left to rewrite
 * anywhere, and optimizing a second time changes nothing.
 */
module Fixpoint {
  import opened Common
  import opened Expressions
  import opened Plans
  import opened Optimizer

  predicate FilterLeft(p: Plan) {
    MergeFilterNode(p) != Ok(p)
  }

  predicate JoinLeft(cat: Catalog, p: Plan) {
    IndexJoinNode(cat, p) != p
  }

  predicate SortLeft(cat: Catalog, p: Plan) {
    OrderByNode(cat, p) != p
  }

  /** One of the rules would still rewrite this node, or refuse it. */
  predicate WorkLeft(cat: Catalog, p: Plan) {
    Removable(p) || FilterLeft(p) || JoinLeft(cat, p) || SortLeft(cat, p)
  }

  ghost predicate Merged(p: Plan) {
    Nowhere(p, Removable)
  }

  ghost predicate Filtered(p: Plan) {
    Nowhere(p, FilterLeft)
  }

  ghost predicate Joined(cat: Catalog, p: Plan) {
    Nowhere(p, n => JoinLeft(cat, n))
  }

  ghost predicate Sorted(cat: Catalog, p: Plan) {
    Nowhere(p, n => SortLeft(cat, n))
  }

  // ---------------------------------------------------------------- merging filters

  lemma MergeFilterNodeDone(q: Plan)
    requires MergeFilterNode(q).Ok? && !Removable(q)
    requires forall i :: 0 <= i < |q.children| ==> Merged(q.children[i]) && Filtered(q.children[i])
    ensures var r := MergeFilterNode(q).value;
            Merged(r) && Filtered(r) && r.schema == q.schema
  {
    hide RewriteExpressionForJoin;
    var r := MergeFilterNode(q).value;
    if r != q {
      var nlj := q.children[0];
      assert Merged(nlj) && Filtered(nlj);
      assert forall i :: 0 <= i < |r.children| ==> Merged(r.children[i]) && Filtered(r.children[i]);
    }
  }

  lemma {:induction false} MergeFilterDone(p: Plan)
    requires Merged(p) && MergeFilterNLJ(p).Ok?
    ensures var r := MergeFilterNLJ(p).value;
            Merged(r) && Filtered(r) && r.schema == p.schema
    decreases p
  {
    hide MergeFilterNode;
    var rs := seq(|p.children|, i requires 0 <= i < |p.children| => MergeFilterNLJ(p.children[i]));
    var kids := Gather(rs).value;
    forall i | 0 <= i < |p.children|
      ensures Merged(kids[i]) && Filtered(kids[i]) && kids[i].schema == p.children[i].schema
    {
      assert rs[i].Ok?;
      MergeFilterDone(p.children[i]);
    }
    RemovableKids(p, kids);
    MergeFilterNodeDone(p.(children := kids));
  }

  // ---------------------------------------------------------------- index joins

  /** The same node over children that stand in for its own. */
  ghost predicate Alike(p: Plan, q: Plan) {
    && q.op == p.op && q.schema == p.schema && |q.children| == |p.children|
    && forall i :: 0 <= i < |q.children| ==> AlikeKid(p.children[i], q.children[i])
  }

  /** The same operator over as many children, or one that is neither a scan nor a loop join. */
  ghost predicate AlikeKid(p: Plan, q: Plan) {
    && q.schema == p.schema
    && ((q.op == p.op && |q.children| == |p.children|) || (!q.op.SeqScan? && !q.op.NestedLoopJoin?))
  }

  lemma AlikeNoWork(cat: Catalog, p: Plan, q: Plan)
    requires Alike(p, q)
    ensures !Removable(p) ==> !Removable(q)
    ensures !FilterLeft(p) ==> !FilterLeft(q)
    ensures !JoinLeft(cat, p) ==> !JoinLeft(cat, q)
  {
    hide RewriteExpressionForJoin, MatchIndex, JoinKeys;
    RemovableKids(p, q.children);
    assert q == p.(children := q.children);
    if !FilterLeft(p) && p.op.Filter? && |p.children| == 1 {
      assert AlikeKid(p.children[0], q.children[0]);
    }
    if !JoinLeft(cat, p) && p.op.NestedLoopJoin? && |p.children| == 2 {
      assert AlikeKid(p.children[1], q.children[1]);
    }
  }

  lemma IndexJoinNodeDone(cat: Catalog, q: Plan)
    requires !Removable(q) && !FilterLeft(q)
    requires forall i :: 0 <= i < |q.children|
                     ==> Merged(q.children[i]) && Filtered(q.children[i]) && Joined(cat, q.children[i])
    ensures var r := IndexJoinNode(cat, q);
            Merged(r) && Filtered(r) && Joined(cat, r) && AlikeKid(q, r)
  {
    hide JoinKeys, MatchIndex;
    var r := IndexJoinNode(cat, q);
    if r != q {
      assert r.children == [q.children[0]];
    }
  }

  lemma {:induction false} IndexJoinDone(cat: Catalog, p: Plan)
    requires Merged(p) && Filtered(p)
    ensures var r := NLJAsIndexJoin(cat, p);
            Merged(r) && Filtered(r) && Joined(cat, r) && AlikeKid(p, r)
    decreases p
  {
    hide IndexJoinNode, FilterLeft, Removable;
    var kids := seq(|p.children|, i requires 0 <= i < |p.children| => NLJAsIndexJoin(cat, p.children[i]));
    forall i | 0 <= i < |p.children|
      ensures Merged(kids[i]) && Filtered(kids[i]) && Joined(cat, kids[i]) && AlikeKid(p.children[i], kids[i])
    {
      IndexJoinDone(cat, p.children[i]);
    }
    AlikeNoWork(cat, p, p.(children := kids));
    IndexJoinNodeDone(cat, p.(children := kids));
  }

  // ---------------------------------------------------------------- index scans

  lemma OrderByNodeDone(cat: Catalog, q: Plan)
    requires !Removable(q) && !FilterLeft(q) && !JoinLeft(cat, q)
    requires forall i :: 0 <= i < |q.children|
                     ==> && Merged(q.children[i]) && Filtered(q.children[i]) && Joined(cat, q.children[i])
                         && Sorted(cat, q.children[i])
    ensures var r := OrderByNode(cat, q);
            Merged(r) && Filtered(r) && Joined(cat, r) && Sorted(cat, r) && AlikeKid(q, r)
  {
    hide FirstNamed, IndexJoinNode;
    var r := OrderByNode(cat, q);
    if r != q {
      LeafDone(cat, r);
    }
  }

  lemma LeafDone(cat: Catalog, p: Plan)
    requires p.op.IndexScan? && p.children == []
    ensures Merged(p) && Filtered(p) && Joined(cat, p) && Sorted(cat, p)
  {
  }

  lemma {:induction false} OrderByDone(cat: Catalog, p: Plan)
    requires Merged(p) && Filtered(p) && Joined(cat, p)
    ensures var r := OrderByAsIndexScan(cat, p);
            Merged(r) && Filtered(r) && Joined(cat, r) && Sorted(cat, r) && AlikeKid(p, r)
    decreases p
  {
    hide OrderByNode, FilterLeft, Removable, JoinLeft;
    var kids := seq(|p.children|, i requires 0 <= i < |p.children| => OrderByAsIndexScan(cat, p.children[i]));
    forall i | 0 <= i < |p.children|
      ensures Merged(kids[i]) && Filtered(kids[i]) && Joined(cat, kids[i]) && Sorted(cat, kids[i])
      ensures AlikeKid(p.children[i], kids[i])
    {
      OrderByDone(cat, p.children[i]);
    }
    AlikeNoWork(cat, p, p.(children := kids));
    OrderByNodeDone(cat, p.(children := kids));
  }

  // ---------------------------------------------------------------- nothing is left

  lemma {:induction false} AllFour(cat: Catalog, p: Plan)
    requires Merged(p) && Filtered(p) && Joined(cat, p) && Sorted(cat, p)
    ensures Nowhere(p, n => WorkLeft(cat, n))
    decreases p
  {
    forall i | 0 <= i < |p.children| ensures Nowhere(p.children[i], n => WorkLeft(cat, n)) {
      AllFour(cat, p.children[i]);
    }
  }

  lemma OptimizedDone(cat: Catalog, forceStarterRule: bool, p: Plan)
    requires Optimize(cat, forceStarterRule, p).Ok?
    ensures var r := Optimize(cat, forceStarterRule, p).value;
            Merged(r) && Filtered(r) && Joined(cat, r) && Sorted(cat, r)
  {
    hide MergeProjection, MergeFilterNLJ, NLJAsIndexJoin, OrderByAsIndexScan, Merged, Filtered, Joined, Sorted;
    MergeProjectionMerged(p);
    var merged := MergeFilterNLJ(MergeProjection(p)).value;
    MergeFilterDone(MergeProjection(p));
    IndexJoinDone(cat, merged);
    OrderByDone(cat, NLJAsIndexJoin(cat, merged));
  }

  lemma MergeProjectionMerged(p: Plan)
    ensures Merged(MergeProjection(p))
  {
    MergeProjectionComplete(p);
  }

  /** The optimized plan has no node left that any of the rules would rewrite or refuse. */
  lemma NothingLeft(cat: Catalog, forceStarterRule: bool, p: Plan)
    requires Optimize(cat, forceStarterRule, p).Ok?
    ensures Nowhere(Optimize(cat, forceStarterRule, p).value, n => WorkLeft(cat, n))
  {
    hide Optimize;
    OptimizedDone(cat, forceStarterRule, p);
    AllFour(cat, Optimize(cat, forceStarterRule, p).value);
  }

  // ---------------------------------------------------------------- a second time

  lemma {:induction false} NothingToMerge(p: Plan)
    requires Merged(p)
    ensures MergeProjection(p) == p
    decreases p
  {
    forall i | 0 <= i < |p.children| ensures MergeProjection(p.children[i]) == p.children[i] {
      NothingToMerge(p.children[i]);
    }
    assert seq(|p.children|, i requires 0 <= i < |p.children| => MergeProjection(p.children[i])) == p.children;
  }

  lemma {:induction false} NothingToFilter(p: Plan)
    requires Filtered(p)
    ensures MergeFilterNLJ(p) == Ok(p)
    decreases p
  {
    hide MergeFilterNode;
    var rs := seq(|p.children|, i requires 0 <= i < |p.children| => MergeFilterNLJ(p.children[i]));
    forall i | 0 <= i < |p.children| ensures rs[i] == Ok(p.children[i]) {
      NothingToFilter(p.children[i]);
    }
    assert Gather(rs).value == p.children;
  }

  lemma {:induction false} NothingToJoin(cat: Catalog, p: Plan)
    requires Joined(cat, p)
    ensures NLJAsIndexJoin(cat, p) == p
    decreases p
  {
    hide IndexJoinNode;
    forall i | 0 <= i < |p.children| ensures NLJAsIndexJoin(cat, p.children[i]) == p.children[i] {
      NothingToJoin(cat, p.children[i]);
    }
    assert seq(|p.children|, i requires 0 <= i < |p.children| => NLJAsIndexJoin(cat, p.children[i])) == p.children;
  }

  lemma {:induction false} NothingToSort(cat: Catalog, p: Plan)
    requires Sorted(cat, p)
    ensures OrderByAsIndexScan(cat, p) == p
    decreases p
  {
    hide OrderByNode;
    forall i | 0 <= i < |p.children| ensures OrderByAsIndexScan(cat, p.children[i]) == p.children[i] {
      NothingToSort(cat, p.children[i]);
    }
    assert seq(|p.children|, i requires 0 <= i < |p.children| => OrderByAsIndexScan(cat, p.children[i])) == p.children;
  }

  /** Optimizing twice is optimizing once, in either mode. */
  lemma OptimizeTwice(cat: Catalog, forceStarterRule: bool, again: bool, p: Plan)
    requires Optimize(cat, forceStarterRule, p).Ok?
    ensures Optimize(cat, again, Optimize(cat, forceStarterRule, p).value) == Optimize(cat, forceStarterRule, p)
  {
    var r := Optimize(cat, forceStarterRule, p).value;
    hide MergeProjection, MergeFilterNLJ, NLJAsIndexJoin, OrderByAsIndexScan, Merged, Filtered, Joined, Sorted;
    OptimizedDone(cat, forceStarterRule, p);
    NothingToMerge(r);
    NothingToFilter(r);
    NothingToJoin(cat, r);
    NothingToSort(cat, r);
  }
}

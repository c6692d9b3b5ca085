/** The LRU-K replacer: two doubly linked lists of shared nodes and a map from frame ids to them. */
module Replacer {
  import opened Common
  import opened LruK

  /** A list node.  Sentinels use only the links. */
  class Frame {
    var frameId: int
    var pre: Frame?
    var nex: Frame?
    var timestamps: seq<nat>
    var recordCnt: nat
    var evictable: bool

    constructor (frameId: int)
      ensures this.frameId == frameId && recordCnt == 0 && timestamps == [] && evictable
    {
      this.frameId, pre, nex, timestamps, recordCnt, evictable := frameId, null, null, [], 0, true;
    }
  }

  ghost predicate Distinct(c: seq<Frame>) {
    forall i, j :: 0 <= i < j < |c| ==> c[i] != c[j]
  }

  /** `c` is the list from its head sentinel to its tail sentinel, linked both ways. */
  ghost predicate Linked(c: seq<Frame>)
    reads c`pre, c`nex
  {
    && (forall i {:trigger c[i].nex} :: 0 <= i < |c| - 1 ==> c[i].nex == c[i + 1])
    && (forall i {:trigger c[i].pre} :: 0 < i < |c| ==> c[i].pre == c[i - 1])
  }

  /** The nodes between the sentinels are the nodes of `ids`, in order. */
  ghost predicate Carries(c: seq<Frame>, ids: seq<int>, mp: map<int, Frame>) {
    |c| == |ids| + 2 && forall i {:trigger ids[i]} :: 0 <= i < |ids| ==> ids[i] in mp && c[i + 1] == mp[ids[i]]
  }

  /** Unlinks `p`, the `n`-th node of `c`. */
  method RemoveFromList(p: Frame, ghost c: seq<Frame>, ghost n: nat)
    requires Linked(c) && Distinct(c) && 0 < n < |c| - 1 && c[n] == p
    requires c[n].pre == c[n - 1] && c[n].nex == c[n + 1]
    modifies p.pre`nex, p.nex`pre
    ensures Linked(c[..n] + c[n + 1..])
  {
    var prev, ne := p.pre, p.nex;
    prev.nex := ne;
    ne.pre := prev;
    ghost var r := c[..n] + c[n + 1..];
    assert forall i :: 0 <= i < n ==> r[i] == c[i];
    assert forall i :: n <= i < |r| ==> r[i] == c[i + 1];
  }

  /** Unlinking from one list leaves the other alone. */
  method UnlinkFrom(p: Frame, ghost c: seq<Frame>, ghost n: nat, ghost d: seq<Frame>)
    requires Linked(c) && Distinct(c) && 0 < n < |c| - 1 && c[n] == p
    requires Linked(d) && Apart(c, d)
    modifies c`pre, c`nex
    ensures Linked(Cut(c, n)) && Linked(d)
  {
    assert c[n].pre == c[n - 1] && c[n].nex == c[n + 1];
    RemoveFromList(p, c, n);
  }

  /** Links `p` in right after the head sentinel. */
  method InsertToListHead(p: Frame, head: Frame, ghost c: seq<Frame>)
    requires |c| >= 2 && Linked(c) && Distinct(c) && c[0] == head && p !in c && c[0].nex == c[1]
    modifies head`nex, head.nex`pre, p`pre, p`nex
    ensures Linked([head, p] + c[1..])
  {
    var temp := head.nex;
    head.nex := p;
    p.nex := temp;
    temp.pre := p;
    p.pre := head;
    ghost var r := [head, p] + c[1..];
    assert forall i :: 2 <= i < |r| ==> r[i] == c[i - 1];
    assert forall i :: 0 <= i < |c| ==> c[i] != p;
  }

  method LinkInto(p: Frame, head: Frame, ghost c: seq<Frame>, ghost d: seq<Frame>)
    requires |c| >= 2 && Linked(c) && Distinct(c) && c[0] == head && p !in c
    requires Linked(d) && Apart(c, d) && p !in d
    modifies c`pre, c`nex, p`pre, p`nex
    ensures Linked(Pushed(c, p)) && Linked(d)
  {
    assert c[0].nex == c[1];
    InsertToListHead(p, head, c);
  }

  /** Walks from the tail towards the head; stops at the first evictable node, or at the head. */
  method FindFromTail(head: Frame, tail: Frame, ghost c: seq<Frame>, ghost ids: seq<int>, ghost mp: map<int, Frame>,
                      ghost recs: map<int, Rec>) returns (p: Frame)
    requires |c| >= 2 && Linked(c) && Distinct(c) && Carries(c, ids, mp) && c[0] == head && c[|c| - 1] == tail
    requires forall f :: f in mp ==> mp[f].frameId == f && f in recs && recs[f].evictable == mp[f].evictable
    ensures match LastEvictable(ids, recs)
            case None => p == head
            case Some(f) => f in mp && p == mp[f] && p != head
  {
    assert c[|c| - 1].pre == c[|c| - 2];
    p := tail.pre;
    ghost var j := |c| - 2;
    assert ids[..j] == ids;
    while p != head
      invariant 0 <= j <= |c| - 2 && p == c[j]
      invariant LastEvictable(ids[..j], recs) == LastEvictable(ids, recs)
      decreases j
    {
      assert ids[..j][..j - 1] == ids[..j - 1];
      if p.evictable { return; }
      assert c[j].pre == c[j - 1];
      p := p.pre;
      j := j - 1;
    }
  }

  method EmptyList() returns (head: Frame, tail: Frame)
    ensures fresh(head) && fresh(tail) && head != tail && Linked([head, tail])
  {
    head := new Frame(-1);
    tail := new Frame(-1);
    head.nex := tail;
    tail.pre := head;
  }

  ghost function Cut(c: seq<Frame>, n: nat): seq<Frame>
    requires n < |c|
  {
    c[..n] + c[n + 1..]
  }

  ghost function Pushed(c: seq<Frame>, p: Frame): seq<Frame>
    requires |c| >= 1
  {
    [c[0], p] + c[1..]
  }

  lemma CarriesNoDup(c: seq<Frame>, ids: seq<int>, mp: map<int, Frame>)
    requires Carries(c, ids, mp) && Distinct(c)
    ensures NoDup(ids)
  {
    forall i, j | 0 <= i < j < |ids| ensures ids[i] != ids[j] {
      assert c[i + 1] == mp[ids[i]] && c[j + 1] == mp[ids[j]];
    }
  }

  ghost predicate Apart(c: seq<Frame>, d: seq<Frame>) {
    forall i, j :: 0 <= i < |c| && 0 <= j < |d| ==> c[i] != d[j]
  }

  lemma ApartIds(c: seq<Frame>, ids: seq<int>, d: seq<Frame>, jds: seq<int>, mp: map<int, Frame>, f: int)
    requires Carries(c, ids, mp) && Carries(d, jds, mp) && Apart(c, d)
    ensures !(f in ids && f in jds)
  {
  }

  lemma CutCarries(c: seq<Frame>, ids: seq<int>, mp: map<int, Frame>, f: int, n: nat)
    requires Carries(c, ids, mp) && NoDup(ids) && n < |ids| && ids[n] == f
    ensures Carries(Cut(c, n + 1), WithoutId(ids, f), mp)
  {
    WithoutIdAt(ids, n);
    var r, d := WithoutId(ids, f), Cut(c, n + 1);
    forall i | 0 <= i < |r| ensures r[i] in mp && d[i + 1] == mp[r[i]] {
      if i < n {
        assert r[i] == ids[i] && d[i + 1] == c[i + 1];
      } else {
        assert r[i] == ids[i + 1] && d[i + 1] == c[i + 2];
      }
    }
  }

  lemma CarriesMinus(c: seq<Frame>, ids: seq<int>, mp: map<int, Frame>, f: int)
    requires Carries(c, ids, mp) && f !in ids
    ensures Carries(c, ids, mp - {f})
  {
    forall i | 0 <= i < |ids| ensures ids[i] in mp - {f} && c[i + 1] == (mp - {f})[ids[i]] { }
  }

  lemma PushCarries(c: seq<Frame>, ids: seq<int>, mp: map<int, Frame>, f: int)
    requires Carries(c, ids, mp) && f in mp
    ensures Carries(Pushed(c, mp[f]), [f] + ids, mp)
  {
    var r, d := [f] + ids, Pushed(c, mp[f]);
    forall i | 0 <= i < |r| ensures r[i] in mp && d[i + 1] == mp[r[i]] {
      if i > 0 { assert r[i] == ids[i - 1] && d[i + 1] == c[i]; }
    }
  }

  /** Which nodes stand in which list, and the frame ids they carry. */
  datatype Layout = Layout(histC: seq<Frame>, lruC: seq<Frame>, hist: seq<int>, lru: seq<int>)

  /** The two lists run between their sentinels, share no node, and carry their ids' nodes. */
  ghost predicate Shape(y: Layout, mp: map<int, Frame>, ends: seq<Frame>, nodes: set<Frame>) {
    && |ends| == 4 && |y.histC| >= 2 && |y.lruC| >= 2
    && y.histC[0] == ends[0] && y.histC[|y.histC| - 1] == ends[1]
    && y.lruC[0] == ends[2] && y.lruC[|y.lruC| - 1] == ends[3]
    && Distinct(y.histC) && Distinct(y.lruC) && Apart(y.histC, y.lruC)
    && Carries(y.histC, y.hist, mp) && Carries(y.lruC, y.lru, mp)
    && Within(y.histC, nodes) && Within(y.lruC, nodes)
  }

  ghost predicate Within(c: seq<Frame>, nodes: set<Frame>) {
    forall i :: 0 <= i < |c| ==> c[i] in nodes
  }

  /** Position of `f`'s node in the list that holds it. */
  ghost function Spot(ids: seq<int>, f: int): (n: nat)
    requires f in ids
    ensures 0 < n <= |ids| && ids[n - 1] == f
  {
    var n: nat :| n < |ids| && ids[n] == f;
    n + 1
  }

  ghost function Unlinked(y: Layout, f: int): Layout
    requires |y.histC| == |y.hist| + 2 && |y.lruC| == |y.lru| + 2 && (f in y.hist || f in y.lru)
  {
    if f in y.hist then y.(histC := Cut(y.histC, Spot(y.hist, f)), hist := WithoutId(y.hist, f))
    else y.(lruC := Cut(y.lruC, Spot(y.lru, f)), lru := WithoutId(y.lru, f))
  }

  lemma CutFacts(c: seq<Frame>, n: nat, d: seq<Frame>, nodes: set<Frame>)
    requires 0 < n < |c| - 1 && Distinct(c) && Apart(c, d) && Within(c, nodes)
    ensures Distinct(Cut(c, n)) && Apart(Cut(c, n), d) && Apart(d, Cut(c, n)) && Within(Cut(c, n), nodes)
    ensures c[n] !in Cut(c, n) && c[n] !in d
  {
    var r := Cut(c, n);
    assert forall i :: 0 <= i < n ==> r[i] == c[i];
    assert forall i :: n <= i < |r| ==> r[i] == c[i + 1];
  }

  lemma UnlinkedShape(y: Layout, mp: map<int, Frame>, ends: seq<Frame>, nodes: set<Frame>, f: int)
    requires Shape(y, mp, ends, nodes) && (f in y.hist || f in y.lru)
    ensures Shape(Unlinked(y, f), mp, ends, nodes)
    ensures Unlinked(y, f).hist == WithoutId(y.hist, f) && Unlinked(y, f).lru == WithoutId(y.lru, f)
    ensures f in mp && mp[f] !in Unlinked(y, f).histC && mp[f] !in Unlinked(y, f).lruC
  {
    CarriesNoDup(y.histC, y.hist, mp);
    CarriesNoDup(y.lruC, y.lru, mp);
    ApartIds(y.histC, y.hist, y.lruC, y.lru, mp, f);
    if f in y.hist {
      CutFacts(y.histC, Spot(y.hist, f), y.lruC, nodes);
      CutCarries(y.histC, y.hist, mp, f, Spot(y.hist, f) - 1);
      WithoutIdSpec(y.lru, f);
    } else {
      CutFacts(y.lruC, Spot(y.lru, f), y.histC, nodes);
      CutCarries(y.lruC, y.lru, mp, f, Spot(y.lru, f) - 1);
      WithoutIdSpec(y.hist, f);
    }
  }

  ghost function LinkedFirst(y: Layout, f: int, p: Frame, toHist: bool): Layout
    requires |y.histC| >= 1 && |y.lruC| >= 1
  {
    if toHist then y.(histC := Pushed(y.histC, p), hist := [f] + y.hist)
    else y.(lruC := Pushed(y.lruC, p), lru := [f] + y.lru)
  }

  lemma PushFacts(c: seq<Frame>, p: Frame, d: seq<Frame>, nodes: set<Frame>)
    requires |c| >= 2 && p !in c && p !in d && p in nodes
    requires Distinct(c) && Apart(c, d) && Within(c, nodes)
    ensures Distinct(Pushed(c, p)) && Apart(Pushed(c, p), d) && Apart(d, Pushed(c, p)) && Within(Pushed(c, p), nodes)
  {
    var r := Pushed(c, p);
    assert forall i :: 2 <= i < |r| ==> r[i] == c[i - 1];
    assert r[0] == c[0] && r[1] == p;
  }

  lemma LinkedFirstShape(y: Layout, mp: map<int, Frame>, ends: seq<Frame>, nodes: set<Frame>, f: int, toHist: bool)
    requires Shape(y, mp, ends, nodes) && f in mp && mp[f] in nodes && mp[f] !in y.histC && mp[f] !in y.lruC
    ensures Shape(LinkedFirst(y, f, mp[f], toHist), mp, ends, nodes)
  {
    if toHist {
      PushFacts(y.histC, mp[f], y.lruC, nodes);
      PushCarries(y.histC, y.hist, mp, f);
    } else {
      PushFacts(y.lruC, mp[f], y.histC, nodes);
      PushCarries(y.lruC, y.lru, mp, f);
    }
  }

  /** Forgetting a frame that is in neither list. */
  lemma ShapeMinus(y: Layout, mp: map<int, Frame>, ends: seq<Frame>, nodes: set<Frame>, f: int)
    requires Shape(y, mp, ends, nodes) && f !in y.hist && f !in y.lru
    ensures Shape(y, mp - {f}, ends, nodes)
  {
    CarriesMinus(y.histC, y.hist, mp, f);
    CarriesMinus(y.lruC, y.lru, mp, f);
  }

  lemma WithinNodes(c: seq<Frame>, nodes: set<Frame>)
    requires Within(c, nodes)
    ensures forall i :: 0 <= i < |c| ==> c[i] in nodes
  {
  }

  lemma MarkedLists(m: Lru, f: int, evictable: bool)
    requires Lists(m)
    ensures Lists(Marked(m, f, evictable))
  {
  }

  /** What unlinking `f` asks of the list that holds it, and what it makes of the layout. */
  lemma UnlinkReady(y: Layout, mp: map<int, Frame>, ends: seq<Frame>, nodes: set<Frame>, f: int)
    requires Shape(y, mp, ends, nodes) && (f in y.hist || f in y.lru)
    ensures var inHist := f in y.hist;
            var c, d := if inHist then y.histC else y.lruC, if inHist then y.lruC else y.histC;
            var n := Spot(if inHist then y.hist else y.lru, f);
            && |y.histC| == |y.hist| + 2 && |y.lruC| == |y.lru| + 2
            && f in mp && Distinct(c) && Apart(c, d) && 0 < n < |c| - 1 && c[n] == mp[f]
            && Within(c, nodes) && Within(d, nodes)
            && Unlinked(y, f).histC == (if inHist then Cut(c, n) else d)
            && Unlinked(y, f).lruC == (if inHist then d else Cut(c, n))
  {
    hide Cut;
    ghost var n := Spot(if f in y.hist then y.hist else y.lru, f);
    assert (if f in y.hist then y.hist else y.lru)[n - 1] == f;
  }

  class LRUKReplacer {
    const replacerSize: nat
    const k: nat
    const lruHead: Frame
    const lruTail: Frame
    const historyHead: Frame
    const historyTail: Frame
    var currentTimestamp: nat
    var currSize: int
    var totSize: int
    var mp: map<int, Frame>
    ghost var layout: Layout
    ghost var model: Lru
    ghost var nodes: set<Frame>
    ghost var Repr: set<object>

    ghost function Ends(): seq<Frame> {
      [historyHead, historyTail, lruHead, lruTail]
    }

    /** Two well-formed doubly linked lists, laid out as `layout` says. */
    ghost predicate Structure()
      reads `layout, `mp, `nodes, nodes`pre, nodes`nex
    {
      && Shape(layout, mp, Ends(), nodes)
      && Linked(layout.histC) && Linked(layout.lruC)
    }

    /** The nodes hold exactly the records `recs`. */
    ghost predicate Holds(recs: map<int, Rec>)
      reads `mp, (set f | f in mp :: mp[f])`frameId, (set f | f in mp :: mp[f])`recordCnt
      reads (set f | f in mp :: mp[f])`timestamps, (set f | f in mp :: mp[f])`evictable
    {
      && mp.Keys == recs.Keys
      && (forall f :: f in mp ==> mp[f].frameId == f && mp[f].recordCnt >= 1 &&
                                  recs[f] == Rec(mp[f].recordCnt, mp[f].timestamps, mp[f].evictable))
    }

    ghost predicate Counts()
      reads `model, `currentTimestamp, `totSize, `currSize
    {
      && model.k == k && model.cap == replacerSize && model.clock == currentTimestamp
      && totSize == model.tot && currSize == model.curr
    }

    ghost predicate InRepr()
      reads `Repr, `nodes, `mp
    {
      && this in Repr && nodes <= Repr && (forall f :: f in mp ==> mp[f] in nodes)
    }

    ghost predicate Valid()
      reads this, Repr
      ensures Valid() ==> this in Repr
    {
      && InRepr() && Structure() && Holds(model.recs) && Counts()
      && model.hist == layout.hist && model.lru == layout.lru
      && Lists(model)
    }

    constructor (numFrames: nat, k: nat)
      requires k >= 1
      ensures Valid() && fresh(Repr) && model == Start(k, numFrames)
      ensures this.k == k && replacerSize == numFrames
    {
      replacerSize, this.k := numFrames, k;
      currentTimestamp, currSize, totSize, mp := 0, 0, 0, map[];
      var lh, lt := EmptyList();
      var hh, ht := EmptyList();
      lruHead, lruTail, historyHead, historyTail := lh, lt, hh, ht;
      layout, model := Layout([hh, ht], [lh, lt], [], []), Start(k, numFrames);
      nodes := {lh, lt, hh, ht};
      Repr := {this, lh, lt, hh, ht};
    }

    /** The concrete state now is what `m` says. */
    ghost method Settle(m: Lru)
      requires InRepr() && Structure() && Holds(m.recs) && Lists(m)
      requires layout.hist == m.hist && layout.lru == m.lru
      requires m.k == k && m.cap == replacerSize && m.clock == currentTimestamp
      requires totSize == m.tot && currSize == m.curr
      modifies this`model
      ensures Valid() && model == m
    {
      model := m;
    }

    /** Takes frame `f`'s node out of whichever list holds it. */
    method Unlink(f: int)
      requires Structure() && f in mp && (f in layout.hist || f in layout.lru)
      modifies this`layout, nodes`pre, nodes`nex
      ensures Structure() && mp[f] !in layout.histC && mp[f] !in layout.lruC
      ensures layout.hist == WithoutId(old(layout).hist, f) && layout.lru == WithoutId(old(layout).lru, f)
    {
      hide Shape, Unlinked, Spot, Linked, Distinct, Apart, Cut, WithoutId, Within;
      UnlinkedShape(layout, mp, Ends(), nodes, f);
      UnlinkReady(layout, mp, Ends(), nodes, f);
      ghost var y := layout;
      ghost var inHist := f in y.hist;
      ghost var c, d := if inHist then y.histC else y.lruC, if inHist then y.lruC else y.histC;
      UnlinkFrom(mp[f], c, Spot(if inHist then y.hist else y.lru, f), d) by { WithinNodes(c, nodes); }
      layout := Unlinked(y, f);
    }

    /** Puts frame `f`'s node `p`, in neither list, at the head of one. */
    method LinkFirst(p: Frame, ghost f: int, toHist: bool)
      requires Structure() && f in mp && mp[f] == p && p in nodes && p !in layout.histC && p !in layout.lruC
      modifies this`layout, nodes`pre, nodes`nex
      ensures Structure() && layout == LinkedFirst(old(layout), f, p, toHist)
    {
      ghost var c, d := if toHist then layout.histC else layout.lruC, if toHist then layout.lruC else layout.histC;
      LinkedFirstShape(layout, mp, Ends(), nodes, f, toHist);
      LinkInto(p, if toHist then historyHead else lruHead, c, d);
      layout := LinkedFirst(layout, f, p, toHist);
    }

    method Unmap(f: int, ghost recs: map<int, Rec>)
      requires InRepr() && Structure() && Holds(recs) && f in mp && f !in layout.hist && f !in layout.lru
      modifies this`mp
      ensures InRepr() && Structure() && Holds(recs - {f})
    {
      hide Linked, Shape;
      ShapeMinus(layout, mp, Ends(), nodes, f);
      assert (mp - {f}).Keys == (recs - {f}).Keys;
      mp := mp - {f};
    }

    /** Forgets a frame whose node is in neither list any more. */
    method Erase(f: int)
      requires InRepr() && Structure() && Holds(model.recs) && Counts() && Lists(model) && f in mp
      requires layout.hist == WithoutId(model.hist, f) && layout.lru == WithoutId(model.lru, f)
      modifies this`mp, this`totSize, this`currSize, this`model
      ensures Valid() && model == Dropped(old(model), f)
    {
      assert f in model.recs;
      hide WithoutId, Structure, Lists, Holds, InRepr;
      WithoutIdSpec(model.hist, f);
      WithoutIdSpec(model.lru, f);
      DropListsSim(model, f);
      Unmap(f, model.recs);
      totSize, currSize := totSize - 1, currSize - 1;
      Settle(Dropped(model, f));
    }

    /** Stops tracking an evictable frame: unlink its node, forget it, adjust both sizes. */
    method Drop(f: int)
      requires Valid() && f in mp
      modifies Repr
      ensures Valid() && Repr == old(Repr)
      ensures model == Dropped(old(model), f)
    {
      assert f in layout.hist || f in layout.lru;
      Unlink(f);
      Erase(f);
    }

    /** Evicts and returns the chosen frame, if any.  The walk cannot fail once the size is not 0
        (`LruK.VictimSim`). */
    method Evict() returns (r: Option<int>)
      requires Valid()
      modifies Repr
      ensures Valid() && Repr == old(Repr)
      ensures r == Choice(old(model)) && model == Evicted(old(model))
    {
      if currSize == 0 { return None; }
      var p := FindFromTail(historyHead, historyTail, layout.histC, layout.hist, mp, model.recs);
      if p == historyHead {
        p := FindFromTail(lruHead, lruTail, layout.lruC, layout.lru, mp, model.recs);
        if p == lruHead { return None; }
      }
      r := Some(p.frameId);
      Drop(p.frameId);
    }

    method SetEvictable(f: int, evictable: bool)
      requires Valid()
      modifies Repr
      ensures Valid() && Repr == old(Repr)
      ensures model == Marked(old(model), f, evictable)
    {
      if f !in mp { return; }
      var p := mp[f];
      if p.evictable == evictable { return; }
      Toggle(p, evictable, f);
    }

    /** The flag changes, and with it the number of evictable frames. */
    method Toggle(p: Frame, evictable: bool, ghost f: int)
      requires Valid() && f in mp && p == mp[f] && p.evictable != evictable
      requires f in model.recs && model.recs[f].evictable != evictable
      modifies this`currSize, this`model, p`evictable
      ensures Valid() && model == Marked(old(model), f, evictable)
    {
      MarkedLists(model, f, evictable);
      hide Structure, Lists, Holds;
      currSize := currSize + if evictable then 1 else -1;
      Flip(p, evictable, f, model.recs);
      Settle(Marked(model, f, evictable));
    }

    /** Sets the node's flag; the other records are as before. */
    method Flip(p: Frame, evictable: bool, ghost f: int, ghost recs: map<int, Rec>)
      requires Holds(recs) && f in mp && p == mp[f] && f in recs
      modifies p`evictable
      ensures Holds(recs[f := recs[f].(evictable := evictable)])
    {
      p.evictable := evictable;
    }

    /** Removing a frame that is not evictable throws; an untracked one is ignored. */
    method Remove(f: int) returns (ok: bool)
      requires Valid()
      modifies Repr
      ensures Valid() && Repr == old(Repr)
      ensures ok <==> f in old(model).recs ==> old(model).recs[f].evictable
      ensures model == if f in old(model).recs && ok then Dropped(old(model), f) else old(model)
    {
      if f !in mp { return true; }
      if !mp[f].evictable { return false; }
      Drop(f);
      ok := true;
    }

    ghost predicate HoldsBut(recs: map<int, Rec>, f: int)
      reads `mp, (set g | g in mp :: mp[g])`frameId, (set g | g in mp :: mp[g])`recordCnt
      reads (set g | g in mp :: mp[g])`timestamps, (set g | g in mp :: mp[g])`evictable
    {
      && mp.Keys == recs.Keys + {f}
      && (forall g :: g in mp && g != f ==> mp[g].frameId == g && mp[g].recordCnt >= 1 &&
                                            recs[g] == Rec(mp[g].recordCnt, mp[g].timestamps, mp[g].evictable))
    }

    /** The frame's node, made on its first access. */
    method NodeOf(f: int) returns (p: Frame)
      requires InRepr() && Structure() && Holds(model.recs)
      modifies this`mp, this`nodes, this`Repr
      ensures InRepr() && Structure() && HoldsBut(model.recs, f) && fresh(Repr - old(Repr))
      ensures f in mp && p == mp[f] && p.frameId == f && (p in old(nodes) || fresh(p))
      ensures Rec(p.recordCnt, p.timestamps, p.evictable) == if f in model.recs then model.recs[f] else Rec(0, [], true)
      ensures f !in model.recs ==> p !in layout.histC && p !in layout.lruC
    {
      if f !in mp {
        p := new Frame(f);
        mp := mp[f := p];
        nodes, Repr := nodes + {p}, Repr + {p};
      } else {
        p := mp[f];
      }
    }

    /** Counts the access and keeps the last k time stamps. */
    method Stamp(p: Frame)
      modifies p`timestamps, p`recordCnt
      ensures p.recordCnt == old(p.recordCnt) + 1
      ensures p.timestamps == PushStamp(old(p.timestamps), k, currentTimestamp)
    {
      if |p.timestamps| == k && k > 0 {
        p.timestamps := p.timestamps[1..];
      }
      p.recordCnt := p.recordCnt + 1;
      p.timestamps := p.timestamps + [currentTimestamp];
    }

    /** The list work of an access: a first access enters the history list; from the k-th access
        on the node moves to the head of the LRU list. */
    method Place(p: Frame, f: int)
      requires InRepr() && Structure() && f in mp && mp[f] == p && Lists(model)
      requires p.recordCnt == (if f in model.recs then model.recs[f].cnt else 0) + 1
      requires f in model.recs ==> model.recs[f].cnt >= 1
      requires layout.hist == model.hist && layout.lru == model.lru && k == model.k
      requires f !in model.recs ==> p !in layout.histC && p !in layout.lruC && totSize != replacerSize
      modifies this`layout, this`currSize, this`totSize, nodes`pre, nodes`nex
      ensures InRepr() && Structure()
      ensures layout.hist == Accessed(model, f).hist && layout.lru == Accessed(model, f).lru
      ensures currSize - old(currSize) == totSize - old(totSize) == if f in model.recs then 0 else 1
    {
      hide Structure;
      if p.recordCnt == 1 {
        if totSize == replacerSize {
          assert false;
        }
        LinkFirst(p, f, true);
        currSize, totSize := currSize + 1, totSize + 1;
      }
      if p.recordCnt >= k {
        Unlink(f);
        LinkFirst(p, f, false);
      }
    }

    /** The bookkeeping of an access, before the lists are touched. */
    method Count(f: int) returns (p: Frame)
      requires InRepr() && Structure() && Holds(model.recs) && currentTimestamp == model.clock && model.k == k
      modifies this`currentTimestamp, this`mp, this`nodes, this`Repr, nodes`timestamps, nodes`recordCnt
      ensures InRepr() && Structure() && fresh(Repr - old(Repr))
      ensures currentTimestamp == model.clock + 1
      ensures f in mp && p == mp[f] && Holds(model.recs[f := NextRec(model, f)])
      ensures f !in model.recs ==> p !in layout.histC && p !in layout.lruC
    {
      hide Structure, HoldsBut, Holds;
      p := NodeOf(f);
      currentTimestamp := currentTimestamp + 1;
      StampNode(p, f, model.recs);
    }

    /** Counts the access in the node; the other records are as before. */
    method StampNode(p: Frame, f: int, ghost recs: map<int, Rec>)
      requires HoldsBut(recs, f) && f in mp && p == mp[f] && p.frameId == f
      modifies p`timestamps, p`recordCnt
      ensures Holds(recs[f := Rec(old(p.recordCnt) + 1, PushStamp(old(p.timestamps), k, currentTimestamp),
                                  p.evictable)])
    {
      Stamp(p);
    }

    method Enter(p: Frame, f: int)
      requires InRepr() && Structure() && f in mp && mp[f] == p && Lists(model)
      requires Holds(model.recs[f := NextRec(model, f)]) && (f in model.recs ==> model.recs[f].cnt >= 1)
      requires layout.hist == model.hist && layout.lru == model.lru
      requires model.k == k && model.cap == replacerSize && model.clock + 1 == currentTimestamp
      requires totSize == model.tot && currSize == model.curr
      requires f !in model.recs ==> p !in layout.histC && p !in layout.lruC && totSize != replacerSize
      modifies this`layout, this`currSize, this`totSize, this`model, nodes`pre, nodes`nex
      ensures Valid() && model == Accessed(old(model), f)
    {
      assert p.recordCnt == NextRec(model, f).cnt;
      hide Structure, Lists, Holds;
      Place(p, f);
      AccessLists(model, f);
      Settle(Accessed(model, f));
    }

    /** An id above the capacity throws.  The eviction that RecordAccess would perform when the
        replacer is full is never reached: `Fits` is what makes the caller's id safe. */
    method RecordAccess(f: int) returns (ok: bool)
      requires Valid() && (f <= replacerSize ==> Fits(model, f))
      modifies Repr
      ensures Valid() && fresh(Repr - old(Repr))
      ensures ok <==> f <= replacerSize
      ensures model == if ok then Accessed(old(model), f) else old(model)
    {
      if f > replacerSize { return false; }
      var p := Count(f);
      Enter(p, f);
      ok := true;
    }
  }
}

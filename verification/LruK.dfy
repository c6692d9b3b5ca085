/** The LRU-K replacer as values.  `Lru` mirrors the code: two id lists (newest first), a record
    per tracked frame holding a counter and the last k time stamps.  `History` is the reference:
    every access time of every tracked frame, and eviction defined from those times alone. */
module LruK {
  import opened Common

  // ---------------------------------------------------------------- the coded state

  datatype Rec = Rec(cnt: nat, stamps: seq<nat>, evictable: bool)

  datatype Lru = Lru(k: nat, cap: nat, clock: nat, hist: seq<int>, lru: seq<int>, recs: map<int, Rec>,
                     tot: int, curr: int)

  function WithoutId(ids: seq<int>, f: int): seq<int> {
    if ids == [] then [] else if ids[0] == f then ids[1..] else [ids[0]] + WithoutId(ids[1..], f)
  }

  /** Walking from the tail towards the head, the first evictable frame. */
  function LastEvictable(ids: seq<int>, recs: map<int, Rec>): Option<int> {
    if ids == [] then None
    else
      var f := ids[|ids| - 1];
      if f in recs && recs[f].evictable then Some(f) else LastEvictable(ids[..|ids| - 1], recs)
  }

  function Victim(s: Lru): Option<int> {
    var v := LastEvictable(s.hist, s.recs);
    if v.Some? then v else LastEvictable(s.lru, s.recs)
  }

  function Dropped(s: Lru, f: int): Lru {
    s.(hist := WithoutId(s.hist, f), lru := WithoutId(s.lru, f), recs := s.recs - {f},
       tot := s.tot - 1, curr := s.curr - 1)
  }

  /** The frame Evict picks: none when the size is 0, otherwise what the walk finds. */
  function Choice(s: Lru): Option<int> {
    if s.curr == 0 then None else Victim(s)
  }

  function Evicted(s: Lru): Lru {
    match Choice(s)
    case None => s
    case Some(f) => Dropped(s, f)
  }

  function PushStamp(stamps: seq<nat>, k: nat, now: nat): seq<nat> {
    if |stamps| == k && k > 0 then stamps[1..] + [now] else stamps + [now]
  }

  /** Frame `f`'s record after one more access. */
  function NextRec(s: Lru, f: int): Rec {
    var r := if f in s.recs then s.recs[f] else Rec(0, [], true);
    Rec(r.cnt + 1, PushStamp(r.stamps, s.k, s.clock + 1), r.evictable)
  }

  function Accessed(s: Lru, f: int): Lru {
    var r := NextRec(s, f);
    var hist := if r.cnt == 1 then [f] + s.hist else s.hist;
    var n := if r.cnt == 1 then 1 else 0;
    var s' := s.(clock := s.clock + 1, hist := hist, tot := s.tot + n, curr := s.curr + n, recs := s.recs[f := r]);
    if r.cnt >= s.k then s'.(hist := WithoutId(hist, f), lru := [f] + WithoutId(s.lru, f)) else s'
  }

  function Marked(s: Lru, f: int, evictable: bool): Lru {
    if f !in s.recs || s.recs[f].evictable == evictable then s
    else s.(recs := s.recs[f := s.recs[f].(evictable := evictable)], curr := s.curr + if evictable then 1 else -1)
  }

  /** Frames that may be evicted now; `curr_size_` counts them. */
  function Evictable(recs: map<int, Rec>): set<int> {
    set f | f in recs && recs[f].evictable
  }

  /** A new frame can be tracked without the replacer having to evict under its own latch. */
  predicate Fits(s: Lru, f: int) {
    f in s.recs || s.tot != s.cap
  }

  // ---------------------------------------------------------------- the reference

  datatype Past = Past(times: seq<nat>, evictable: bool)

  datatype History = History(k: nat, clock: nat, past: map<int, Past>)

  predicate CanGo(h: History, f: int) {
    f in h.past && h.past[f].evictable
  }

  /** First and last access time of a tracked frame; 0 for an untracked one (times start at 1). */
  function First(h: History, f: int): nat {
    if f in h.past && h.past[f].times != [] then h.past[f].times[0] else 0
  }

  function Last(h: History, f: int): nat {
    if f in h.past && h.past[f].times != [] then h.past[f].times[|h.past[f].times| - 1] else 0
  }

  predicate Few(h: History, f: int)
    requires f in h.past
  {
    |h.past[f].times| < h.k
  }

  /** `f` is the evictable frame with fewer than k accesses and the earliest first access; or, when
      every evictable frame has k or more, the one whose last access is oldest. */
  ghost predicate IsVictim(h: History, f: int) {
    && CanGo(h, f)
    && if Few(h, f) then (forall g :: CanGo(h, g) && Few(h, g) ==> First(h, f) <= First(h, g))
       else (forall g :: CanGo(h, g) ==> !Few(h, g) && Last(h, f) <= Last(h, g))
  }

  /** The eviction the header documents: among frames with fewer than k accesses classical LRU, the one
      whose last access is oldest; else the one whose k-th most recent access is oldest. */
  ghost predicate IsDocumentedVictim(h: History, f: int) {
    && CanGo(h, f)
    && if Few(h, f) then (forall g :: CanGo(h, g) && Few(h, g) ==> Last(h, f) <= Last(h, g))
       else (forall g :: CanGo(h, g) ==> !Few(h, g) && KthLast(h, f) <= KthLast(h, g))
  }

  function KthLast(h: History, f: int): nat {
    if f in h.past && 1 <= h.k <= |h.past[f].times| then h.past[f].times[|h.past[f].times| - h.k] else 0
  }

  ghost predicate SomeoneCanGo(h: History) {
    exists f :: CanGo(h, f)
  }

  function Forget(h: History, f: int): History {
    h.(past := h.past - {f})
  }

  function Touch(h: History, f: int): History {
    var p := if f in h.past then h.past[f] else Past([], true);
    h.(clock := h.clock + 1, past := h.past[f := Past(p.times + [h.clock + 1], p.evictable)])
  }

  function Remark(h: History, f: int, evictable: bool): History {
    if f in h.past then h.(past := h.past[f := h.past[f].(evictable := evictable)]) else h
  }

  // ---------------------------------------------------------------- how the two are tied

  ghost predicate Increasing(t: seq<nat>) {
    |t| >= 2 ==> t[|t| - 2] < t[|t| - 1] && Increasing(t[..|t| - 1])
  }

  /** The last `k` elements, or all of them when there are fewer. */
  ghost function LastK(t: seq<nat>, k: nat): seq<nat> {
    if |t| <= k then t else LastK(t[1..], k)
  }

  ghost predicate RecOk(r: Rec, p: Past, k: nat, clock: nat) {
    && r.cnt == |p.times| >= 1
    && r.evictable == p.evictable
    && r.stamps == LastK(p.times, k)
    && Increasing(p.times)
    && p.times[|p.times| - 1] <= clock
  }

  ghost predicate NoDup(ids: seq<int>) {
    forall i, j :: 0 <= i < j < |ids| ==> ids[i] != ids[j]
  }

  ghost predicate HistOrdered(ids: seq<int>, h: History) {
    forall i, j :: 0 <= i < j < |ids| ==> First(h, ids[i]) > First(h, ids[j])
  }

  ghost predicate LruOrdered(ids: seq<int>, h: History) {
    forall i, j :: 0 <= i < j < |ids| ==> Last(h, ids[i]) > Last(h, ids[j])
  }

  /** The two lists partition the tracked frames by access count. */
  ghost predicate Lists(s: Lru) {
    && s.k >= 1
    && NoDup(s.hist) && NoDup(s.lru)
    && (forall f :: f in s.hist <==> f in s.recs && s.recs[f].cnt < s.k)
    && (forall f :: f in s.lru <==> f in s.recs && s.recs[f].cnt >= s.k)
  }

  ghost predicate Recs(s: Lru, h: History) {
    s.k == h.k && s.clock == h.clock && RecsOk(s.recs, h.past, s.k, s.clock)
  }

  ghost predicate RecsOk(recs: map<int, Rec>, past: map<int, Past>, k: nat, clock: nat) {
    && recs.Keys == past.Keys
    && (forall f :: f in recs ==> RecOk(recs[f], past[f], k, clock))
  }

  /** `tot_size_` counts the tracked frames, `curr_size_` the evictable ones. */
  ghost predicate Sized(s: Lru) {
    s.tot == |s.recs| && s.curr == |Evictable(s.recs)|
  }

  /** The coded state is what the reference history says it should be. */
  ghost predicate Sim(s: Lru, h: History) {
    Sized(s) && Lists(s) && Recs(s, h) && HistOrdered(s.hist, h) && LruOrdered(s.lru, h)
  }

  // ---------------------------------------------------------------- list facts

  lemma {:induction false} WithoutIdSpec(ids: seq<int>, f: int)
    requires NoDup(ids)
    ensures NoDup(WithoutId(ids, f))
    ensures forall g :: g in WithoutId(ids, f) <==> g in ids && g != f
    ensures f !in ids ==> WithoutId(ids, f) == ids
  {
    if ids != [] {
      var t := ids[1..];
      assert NoDup(t);
      WithoutIdSpec(t, f);
      assert ids == [ids[0]] + t;
      assert ids[0] !in t;
    }
  }

  /** A list stays ordered when an element leaves it. */
  lemma {:induction false} WithoutIdAt(ids: seq<int>, n: nat)
    requires NoDup(ids) && n < |ids|
    ensures WithoutId(ids, ids[n]) == ids[..n] + ids[n + 1..]
  {
    if n > 0 {
      WithoutIdAt(ids[1..], n - 1);
      assert ids[1..][..n - 1] == ids[1..n];
      assert [ids[0]] + (ids[1..n] + ids[n + 1..]) == ids[..n] + ids[n + 1..];
    }
  }

  /** Where in `ids` the `i`-th element of the list without `f` stands: the order is kept. */
  lemma WithoutIdKeepsOrder(ids: seq<int>, f: int, i: nat, j: nat) returns (i': nat, j': nat)
    requires NoDup(ids) && i < j < |WithoutId(ids, f)|
    ensures i' < j' < |ids| && WithoutId(ids, f)[i] == ids[i'] && WithoutId(ids, f)[j] == ids[j']
  {
    i', j' := i, j;
    if f in ids {
      var n :| 0 <= n < |ids| && ids[n] == f;
      WithoutIdAt(ids, n);
      if i >= n { i' := i + 1; }
      if j >= n { j' := j + 1; }
    } else {
      WithoutIdSpec(ids, f);
    }
  }

  lemma WithoutIdHist(ids: seq<int>, f: int, h: History)
    requires NoDup(ids) && HistOrdered(ids, h)
    ensures HistOrdered(WithoutId(ids, f), h)
  {
    forall i, j | 0 <= i < j < |WithoutId(ids, f)|
      ensures First(h, WithoutId(ids, f)[i]) > First(h, WithoutId(ids, f)[j])
    {
      var i', j' := WithoutIdKeepsOrder(ids, f, i, j);
    }
  }

  lemma WithoutIdLru(ids: seq<int>, f: int, h: History)
    requires NoDup(ids) && LruOrdered(ids, h)
    ensures LruOrdered(WithoutId(ids, f), h)
  {
    forall i, j | 0 <= i < j < |WithoutId(ids, f)|
      ensures Last(h, WithoutId(ids, f)[i]) > Last(h, WithoutId(ids, f)[j])
    {
      var i', j' := WithoutIdKeepsOrder(ids, f, i, j);
    }
  }

  lemma {:induction false} LastEvictableSpec(ids: seq<int>, recs: map<int, Rec>)
    ensures match LastEvictable(ids, recs)
            case None => forall f :: f in ids ==> f !in recs || !recs[f].evictable
            case Some(f) => exists n :: 0 <= n < |ids| && ids[n] == f && f in recs && recs[f].evictable &&
                                        forall m :: n < m < |ids| ==> ids[m] !in recs || !recs[ids[m]].evictable
  {
    if ids != [] {
      var t := ids[..|ids| - 1];
      LastEvictableSpec(t, recs);
      assert ids == t + [ids[|ids| - 1]];
    }
  }

  // ---------------------------------------------------------------- each step keeps the tie

  lemma DropListsSim(s: Lru, f: int)
    requires Lists(s)
    ensures Lists(Dropped(s, f))
  {
    WithoutIdSpec(s.hist, f);
    WithoutIdSpec(s.lru, f);
  }

  lemma SameFirst(ids: seq<int>, h: History, h': History)
    requires HistOrdered(ids, h) && forall g :: g in ids ==> First(h', g) == First(h, g)
    ensures HistOrdered(ids, h')
  {
  }

  lemma SameLast(ids: seq<int>, h: History, h': History)
    requires LruOrdered(ids, h) && forall g :: g in ids ==> Last(h', g) == Last(h, g)
    ensures LruOrdered(ids, h')
  {
  }

  lemma DropRecs(s: Lru, h: History, f: int)
    requires Recs(s, h)
    ensures Recs(Dropped(s, f), Forget(h, f))
  {
    var s', h' := Dropped(s, f), Forget(h, f);
    forall g | g in s'.recs ensures RecOk(s'.recs[g], h'.past[g], s.k, s.clock) {
      assert RecOk(s.recs[g], h.past[g], s.k, s.clock);
    }
  }

  lemma DropOrder(s: Lru, h: History, f: int)
    requires NoDup(s.hist) && NoDup(s.lru) && HistOrdered(s.hist, h) && LruOrdered(s.lru, h)
    ensures HistOrdered(WithoutId(s.hist, f), Forget(h, f)) && LruOrdered(WithoutId(s.lru, f), Forget(h, f))
  {
    WithoutIdHist(s.hist, f, h);
    WithoutIdLru(s.lru, f, h);
    assert f !in WithoutId(s.hist, f) by { WithoutIdSpec(s.hist, f); }
    assert f !in WithoutId(s.lru, f) by { WithoutIdSpec(s.lru, f); }
    SameFirst(WithoutId(s.hist, f), h, Forget(h, f));
    SameLast(WithoutId(s.lru, f), h, Forget(h, f));
  }

  lemma DropSized(s: Lru, f: int)
    requires Sized(s) && f in s.recs && s.recs[f].evictable
    ensures Sized(Dropped(s, f))
  {
    assert s.recs.Keys == (s.recs - {f}).Keys + {f};
    assert Evictable(s.recs) == Evictable(s.recs - {f}) + {f};
  }

  lemma MarkSized(s: Lru, f: int, evictable: bool)
    requires Sized(s)
    ensures Sized(Marked(s, f, evictable))
  {
    var s' := Marked(s, f, evictable);
    if s' != s {
      assert s'.recs.Keys == s.recs.Keys;
      if evictable {
        assert Evictable(s'.recs) == Evictable(s.recs) + {f};
      } else {
        assert Evictable(s.recs) == Evictable(s'.recs) + {f};
      }
    }
  }

  lemma RefreshCounts(recs: map<int, Rec>, f: int, r: Rec)
    requires f in recs && r.evictable == recs[f].evictable
    ensures |recs[f := r]| == |recs| && |Evictable(recs[f := r])| == |Evictable(recs)|
  {
    assert recs[f := r].Keys == recs.Keys;
    assert Evictable(recs[f := r]) == Evictable(recs);
  }

  lemma InsertCounts(recs: map<int, Rec>, f: int, r: Rec)
    requires f !in recs && r.evictable
    ensures |recs[f := r]| == |recs| + 1 && |Evictable(recs[f := r])| == |Evictable(recs)| + 1
  {
    assert recs[f := r].Keys == recs.Keys + {f};
    assert Evictable(recs[f := r]) == Evictable(recs) + {f};
  }

  lemma AccessSized(s: Lru, f: int)
    requires Sized(s) && (f in s.recs ==> s.recs[f].cnt >= 1)
    ensures Sized(Accessed(s, f))
  {
    if f in s.recs {
      RefreshCounts(s.recs, f, Accessed(s, f).recs[f]);
    } else {
      InsertCounts(s.recs, f, Accessed(s, f).recs[f]);
    }
  }

  lemma DropSim(s: Lru, h: History, f: int)
    requires Sim(s, h) && f in s.recs && s.recs[f].evictable
    ensures Sim(Dropped(s, f), Forget(h, f))
  {
    DropSized(s, f);
    DropListsSim(s, f);
    DropRecs(s, h, f);
    DropOrder(s, h, f);
  }

  lemma MarkRecs(s: Lru, h: History, f: int, evictable: bool)
    requires Recs(s, h)
    ensures Recs(Marked(s, f, evictable), Remark(h, f, evictable))
  {
    var s', h' := Marked(s, f, evictable), Remark(h, f, evictable);
    forall g | g in s'.recs ensures RecOk(s'.recs[g], h'.past[g], s.k, s.clock) {
      assert RecOk(s.recs[g], h.past[g], s.k, s.clock);
    }
  }

  lemma MarkSim(s: Lru, h: History, f: int, evictable: bool)
    requires Sim(s, h)
    ensures Sim(Marked(s, f, evictable), Remark(h, f, evictable))
  {
    MarkSized(s, f, evictable);
    MarkRecs(s, h, f, evictable);
    SameFirst(s.hist, h, Remark(h, f, evictable));
    SameLast(s.lru, h, Remark(h, f, evictable));
  }

  lemma {:induction false} LastKSuffix(t: seq<nat>, k: nat)
    requires k <= |t|
    ensures LastK(t, k) == t[|t| - k..]
  {
    if |t| > k { LastKSuffix(t[1..], k); }
  }

  lemma {:induction false} LastKAppend(t: seq<nat>, k: nat, x: nat)
    requires k >= 1
    ensures LastK(t + [x], k) == PushStamp(LastK(t, k), k, x)
  {
    assert |t| >= 1 ==> (t + [x])[1..] == t[1..] + [x];
    if |t| > k {
      LastKAppend(t[1..], k, x);
    } else if |t| == k {
      assert LastK(t[1..] + [x], k) == t[1..] + [x];
    }
  }

  lemma {:induction false} FirstBelowLast(t: seq<nat>)
    requires Increasing(t) && t != []
    ensures t[0] <= t[|t| - 1]
  {
    if |t| >= 2 { FirstBelowLast(t[..|t| - 1]); }
  }

  lemma PushStampOk(r: Rec, p: Past, k: nat, clock: nat)
    requires RecOk(r, p, k, clock) && k >= 1
    ensures RecOk(Rec(r.cnt + 1, PushStamp(r.stamps, k, clock + 1), r.evictable),
                  Past(p.times + [clock + 1], p.evictable), k, clock + 1)
  {
    LastKAppend(p.times, k, clock + 1);
    var t := p.times + [clock + 1];
    assert t[..|t| - 1] == p.times && t[|t| - 2] == p.times[|p.times| - 1];
  }

  lemma FirstStampOk(k: nat, clock: nat)
    requires k >= 1
    ensures RecOk(Rec(1, PushStamp([], k, clock + 1), true), Past([] + [clock + 1], true), k, clock + 1)
  {
    assert [] + [clock + 1] == [clock + 1];
  }

  lemma LaterStillOk(r: Rec, p: Past, k: nat, clock: nat)
    requires RecOk(r, p, k, clock)
    ensures RecOk(r, p, k, clock + 1)
  {
  }

  lemma AccessRecOfFrame(s: Lru, h: History, f: int)
    requires Recs(s, h) && s.k >= 1
    ensures RecOk(Accessed(s, f).recs[f], Touch(h, f).past[f], s.k, s.clock + 1)
  {
    if f in s.recs {
      PushStampOk(s.recs[f], h.past[f], s.k, s.clock);
    } else {
      FirstStampOk(s.k, s.clock);
    }
  }

  lemma UpdateRecs(recs: map<int, Rec>, past: map<int, Past>, k: nat, clock: nat, f: int, r: Rec, p: Past)
    requires RecsOk(recs, past, k, clock) && RecOk(r, p, k, clock + 1)
    ensures RecsOk(recs[f := r], past[f := p], k, clock + 1)
  {
    forall g | g in recs && g != f ensures RecOk(recs[g], past[g], k, clock + 1) {
      LaterStillOk(recs[g], past[g], k, clock);
    }
  }

  lemma AccessRecs(s: Lru, h: History, f: int)
    requires Recs(s, h) && s.k >= 1
    ensures Recs(Accessed(s, f), Touch(h, f))
  {
    AccessRecOfFrame(s, h, f);
    UpdateRecs(s.recs, h.past, s.k, s.clock, f, Accessed(s, f).recs[f], Touch(h, f).past[f]);
  }

  lemma AccessLists(s: Lru, f: int)
    requires Lists(s) && (f in s.recs ==> s.recs[f].cnt >= 1)
    ensures Lists(Accessed(s, f))
  {
    var hist := if f in s.recs then s.hist else [f] + s.hist;
    assert NoDup(hist);
    WithoutIdSpec(hist, f);
    WithoutIdSpec(s.lru, f);
    assert NoDup([f] + WithoutId(s.lru, f));
  }

  /** Every recorded time lies in the past, so the frame touched now is the newest. */
  lemma PastIsPast(s: Lru, h: History, g: int)
    requires Recs(s, h)
    ensures First(h, g) <= Last(h, g) <= h.clock
  {
    if g in h.past {
      assert RecOk(s.recs[g], h.past[g], s.k, s.clock);
      FirstBelowLast(h.past[g].times);
    }
  }

  lemma PrependHist(ids: seq<int>, f: int, h: History)
    requires HistOrdered(ids, h) && forall g :: g in ids ==> First(h, g) < First(h, f)
    ensures HistOrdered([f] + ids, h)
  {
    var r := [f] + ids;
    assert forall i :: 0 < i < |r| ==> r[i] == ids[i - 1];
  }

  lemma PrependLru(ids: seq<int>, f: int, h: History)
    requires LruOrdered(ids, h) && forall g :: g in ids ==> Last(h, g) < Last(h, f)
    ensures LruOrdered([f] + ids, h)
  {
    var r := [f] + ids;
    assert forall i :: 0 < i < |r| ==> r[i] == ids[i - 1];
  }

  lemma AccessSim(s: Lru, h: History, f: int)
    requires Sim(s, h)
    ensures Sim(Accessed(s, f), Touch(h, f))
  {
    var s', h' := Accessed(s, f), Touch(h, f);
    AccessRecs(s, h, f);
    assert f in s.recs ==> RecOk(s.recs[f], h.past[f], s.k, s.clock);
    AccessSized(s, f);
    AccessLists(s, f);
    forall g ensures g != f ==> First(h', g) == First(h, g) && Last(h', g) == Last(h, g)
      ensures First(h, g) <= h.clock && Last(h, g) <= h.clock
    {
      PastIsPast(s, h, g);
    }
    assert Last(h', f) == h.clock + 1;
    var hist := if f in s.recs then s.hist else [f] + s.hist;
    if f in s.recs {
      assert First(h', f) == First(h, f);
      SameFirst(s.hist, h, h');
    } else {
      SameFirst(s.hist, h, h');
      PrependHist(s.hist, f, h');
    }
    WithoutIdSpec(s.lru, f);
    WithoutIdLru(s.lru, f, h);
    SameLast(WithoutId(s.lru, f), h, h');
    PrependLru(WithoutId(s.lru, f), f, h');
    assert NoDup(hist);
    WithoutIdHist(hist, f, h');
  }

  /** The coded victim is exactly the reference victim, and there is none exactly when no tracked
      frame is evictable: the walk over both lists cannot come back empty-handed otherwise. */
  lemma VictimSim(s: Lru, h: History)
    requires Sim(s, h)
    ensures Choice(s) == Victim(s)
    ensures Choice(s).None? <==> !SomeoneCanGo(h)
    ensures forall f :: Choice(s) == Some(f) <==> IsVictim(h, f)
  {
    VictimIsRight(s, h);
    if Victim(s).Some? {
      assert Victim(s).value in Evictable(s.recs);
    }
    forall f | IsVictim(h, f) ensures Victim(s) == Some(f) {
      VictimUnique(s, h, f, Victim(s).value);
    }
  }

  lemma VictimIsRight(s: Lru, h: History)
    requires Sim(s, h)
    ensures match Victim(s)
            case None => forall f :: !CanGo(h, f)
            case Some(f) => IsVictim(h, f)
  {
    LastEvictableSpec(s.hist, s.recs);
    LastEvictableSpec(s.lru, s.recs);
    forall g | CanGo(h, g) ensures g in (if Few(h, g) then s.hist else s.lru) && s.recs[g].evictable {
      assert RecOk(s.recs[g], h.past[g], s.k, s.clock);
    }
  }

  lemma VictimUnique(s: Lru, h: History, f: int, g: int)
    requires Sim(s, h) && IsVictim(h, f) && IsVictim(h, g)
    ensures f == g
  {
    assert RecOk(s.recs[f], h.past[f], s.k, s.clock) && RecOk(s.recs[g], h.past[g], s.k, s.clock);
    var ids := if Few(h, f) then s.hist else s.lru;
    assert f in ids && g in ids;
    var i :| 0 <= i < |ids| && ids[i] == f;
    var j :| 0 <= j < |ids| && ids[j] == g;
  }

  // ---------------------------------------------------------------- whole runs

  datatype Event = Access(frame: int) | SetEvictable(frame: int, evictable: bool) | Remove(frame: int) | Evict

  datatype Outcome = Done | Rejected | Chosen(victim: Option<int>)

  /** What one call does and answers.  An access beyond the capacity and the removal of a pinned
      frame throw, and change nothing. */
  function Step(s: Lru, e: Event): (Lru, Outcome) {
    match e
    case Access(f) => if f > s.cap then (s, Rejected) else (Accessed(s, f), Done)
    case SetEvictable(f, b) => (Marked(s, f, b), Done)
    case Remove(f) => if f !in s.recs then (s, Done)
                      else if s.recs[f].evictable then (Dropped(s, f), Done) else (s, Rejected)
    case Evict => (Evicted(s), Chosen(Choice(s)))
  }

  ghost function RefVictim(h: History): Option<int> {
    if exists f :: IsVictim(h, f) then (var f :| IsVictim(h, f); Some(f)) else None
  }

  ghost function RefStep(h: History, cap: nat, e: Event): (History, Outcome) {
    match e
    case Access(f) => if f > cap then (h, Rejected) else (Touch(h, f), Done)
    case SetEvictable(f, b) => (Remark(h, f, b), Done)
    case Remove(f) => if f !in h.past then (h, Done)
                      else if h.past[f].evictable then (Forget(h, f), Done) else (h, Rejected)
    case Evict => match RefVictim(h)
                  case None => (h, Chosen(None))
                  case Some(f) => (Forget(h, f), Chosen(Some(f)))
  }

  function Start(k: nat, cap: nat): Lru {
    Lru(k, cap, 0, [], [], map[], 0, 0)
  }

  function Run(s: Lru, es: seq<Event>): (Lru, seq<Outcome>)
    decreases es
  {
    if es == [] then (s, []) else
    var (s1, o) := Step(s, es[0]);
    var (s2, os) := Run(s1, es[1..]);
    (s2, [o] + os)
  }

  ghost function RefRun(h: History, cap: nat, es: seq<Event>): (History, seq<Outcome>)
    decreases es
  {
    if es == [] then (h, []) else
    var (h1, o) := RefStep(h, cap, es[0]);
    var (h2, os) := RefRun(h1, cap, es[1..]);
    (h2, [o] + os)
  }

  lemma StepSim(s: Lru, h: History, e: Event)
    requires Sim(s, h)
    ensures Step(s, e).1 == RefStep(h, s.cap, e).1 && Sim(Step(s, e).0, RefStep(h, s.cap, e).0)
    ensures Step(s, e).0.cap == s.cap && Step(s, e).0.k == s.k
  {
    match e
    case Access(f) => AccessSim(s, h, f);
    case SetEvictable(f, b) => MarkSim(s, h, f, b);
    case Remove(f) =>
      if f in s.recs {
        assert RecOk(s.recs[f], h.past[f], s.k, s.clock);
        if s.recs[f].evictable { DropSim(s, h, f); }
      }
    case Evict =>
      VictimSim(s, h);
      VictimIsRight(s, h);
      assert RefVictim(h) == Victim(s);
      if Victim(s).Some? {
        assert CanGo(h, Victim(s).value);
        DropSim(s, h, Victim(s).value);
      }
  }

  /** In every run the coded replacer answers exactly as the access history prescribes, and its
      records, lists and order are exactly those of the history. */
  lemma {:induction false} RunRefinesHistory(s: Lru, h: History, es: seq<Event>)
    requires Sim(s, h)
    ensures Run(s, es).1 == RefRun(h, s.cap, es).1
    ensures Sim(Run(s, es).0, RefRun(h, s.cap, es).0)
    ensures Run(s, es).0.k == s.k
    decreases es
  {
    if es != [] {
      StepSim(s, h, es[0]);
      RunRefinesHistory(Step(s, es[0]).0, RefStep(h, s.cap, es[0]).0, es[1..]);
    }
  }

  lemma StartSim(k: nat, cap: nat)
    requires k >= 1
    ensures Sim(Start(k, cap), History(k, 0, map[]))
  {
  }

  // ---------------------------------------------------------------- eviction inside RecordAccess

  /** In no access of the run does RecordAccess have to evict, which it could only do by taking a
      latch it already holds. */
  ghost predicate NeverStuck(s: Lru, es: seq<Event>)
    decreases es
  {
    es != [] ==>
      && (es[0].Access? && es[0].frame <= s.cap ==> Fits(s, es[0].frame))
      && NeverStuck(Step(s, es[0]).0, es[1..])
  }

  ghost predicate InRange(es: seq<Event>, cap: nat) {
    forall i :: 0 <= i < |es| && es[i].Access? ==> 0 <= es[i].frame < cap || es[i].frame > cap
  }

  ghost predicate TracksInRange(s: Lru) {
    forall f :: f in s.recs ==> 0 <= f < s.cap
  }

  /** Pigeonhole: a frame of the pool that is not tracked leaves room. */
  lemma InRangeFits(s: Lru, f: int)
    requires Sized(s) && TracksInRange(s) && 0 <= f < s.cap
    ensures Fits(s, f)
  {
    if f !in s.recs {
      SubsetSize<int>(s.recs.Keys + {f}, Range(s.cap));
      assert |s.recs.Keys + {f}| == |s.recs| + 1;
    }
  }

  lemma StepInRange(s: Lru, e: Event)
    requires TracksInRange(s) && (e.Access? ==> 0 <= e.frame < s.cap || e.frame > s.cap)
    ensures TracksInRange(Step(s, e).0)
  {
  }

  lemma {:induction false} InRangeNeverStuck(s: Lru, h: History, es: seq<Event>)
    requires Sim(s, h) && TracksInRange(s) && InRange(es, s.cap)
    ensures NeverStuck(s, es)
    decreases es
  {
    if es != [] {
      if es[0].Access? && es[0].frame < s.cap { InRangeFits(s, es[0].frame); }
      StepInRange(s, es[0]);
      StepSim(s, h, es[0]);
      assert forall i :: 0 <= i < |es[1..]| ==> es[1..][i] == es[i + 1];
      InRangeNeverStuck(Step(s, es[0]).0, RefStep(h, s.cap, es[0]).0, es[1..]);
    }
  }

  function Fill(n: nat): seq<Event> {
    seq(n, i => Access(i))
  }

  lemma {:induction false} RunSnoc(s: Lru, es: seq<Event>, e: Event)
    ensures Run(s, es + [e]).0 == Step(Run(s, es).0, e).0
    ensures NeverStuck(s, es + [e]) ==> (e.Access? && e.frame <= Run(s, es).0.cap ==> Fits(Run(s, es).0, e.frame))
    decreases es
  {
    if es == [] {
      assert es + [e] == [e];
    } else {
      assert (es + [e])[1..] == es[1..] + [e];
      RunSnoc(Step(s, es[0]).0, es[1..], e);
    }
  }

  lemma AccessTracks(s: Lru, f: int)
    requires f <= s.cap
    ensures Step(s, Access(f)).0.recs.Keys == s.recs.Keys + {f} && Step(s, Access(f)).0.cap == s.cap
  {
    hide WithoutId;
  }

  lemma {:induction false} FillTracks(k: nat, cap: nat, n: nat)
    requires n <= cap
    ensures Run(Start(k, cap), Fill(n)).0.recs.Keys == Range(n)
    ensures Run(Start(k, cap), Fill(n)).0.cap == cap
  {
    if n > 0 {
      FillTracks(k, cap, n - 1);
      assert Fill(n) == Fill(n - 1) + [Access(n - 1)];
      hide Run, Step, Fill;
      RunSnoc(Start(k, cap), Fill(n - 1), Access(n - 1));
      AccessTracks(Run(Start(k, cap), Fill(n - 1)).0, n - 1);
    }
  }

  /** The bound check in RecordAccess admits ids it should not: an id can make the replacer hang
      exactly when it is outside the pool yet not above the capacity. */
  lemma StuckExactly(k: nat, cap: nat, f: int)
    requires k >= 1
    ensures (forall es :: InRange(es, cap) ==> NeverStuck(Start(k, cap), es + [Access(f)]))
            <==> 0 <= f < cap || f > cap
  {
    var s := Start(k, cap);
    StartSim(k, cap);
    if 0 <= f < cap || f > cap {
      forall es | InRange(es, cap) ensures NeverStuck(s, es + [Access(f)]) {
        InRangeNeverStuck(s, History(k, 0, map[]), es + [Access(f)]);
      }
    } else {
      FillTracks(k, cap, cap);
      RunRefinesHistory(s, History(k, 0, map[]), Fill(cap));
      RunSnoc(s, Fill(cap), Access(f));
      assert InRange(Fill(cap), cap);
      assert !NeverStuck(s, Fill(cap) + [Access(f)]);
    }
  }

  // ---------------------------------------------------------------- the documented policy

  function Repeat(f: int, n: nat): seq<Event> {
    seq(n, i => Access(f))
  }

  function Times(from: nat, n: nat): (t: seq<nat>)
    ensures |t| == n && forall i :: 0 <= i < n ==> t[i] == from + i
  {
    seq(n, i requires i >= 0 => from + i)
  }

  function TouchN(h: History, f: int, n: nat): History {
    if n == 0 then h else
    var p := if f in h.past then h.past[f] else Past([], true);
    h.(clock := h.clock + n, past := h.past[f := Past(p.times + Times(h.clock + 1, n), p.evictable)])
  }

  lemma {:induction false} RefRunRepeat(h: History, cap: nat, f: int, n: nat)
    requires f <= cap
    ensures RefRun(h, cap, Repeat(f, n)).0 == TouchN(h, f, n)
    decreases n
  {
    if n > 0 {
      var h1 := Touch(h, f);
      assert Repeat(f, n)[1..] == Repeat(f, n - 1);
      RefRunRepeat(h1, cap, f, n - 1);
      var p := if f in h.past then h.past[f] else Past([], true);
      assert (p.times + [h.clock + 1]) + Times(h.clock + 2, n - 1) == p.times + Times(h.clock + 1, n);
      assert Times(h.clock + 1, 1) == [h.clock + 1];
      assert h1.past[f := TouchN(h, f, n).past[f]] == TouchN(h, f, n).past;
    }
  }

  lemma {:induction false} RefRunConcat(h: History, cap: nat, es: seq<Event>, fs: seq<Event>)
    ensures RefRun(h, cap, es + fs).0 == RefRun(RefRun(h, cap, es).0, cap, fs).0
    decreases es
  {
    if es == [] {
      assert es + fs == fs;
    } else {
      assert (es + fs)[1..] == es[1..] + fs;
      RefRunConcat(RefStep(h, cap, es[0]).0, cap, es[1..], fs);
    }
  }

  /** Frame 0 is used k - 1 times, then frame 1 k times, then frame 0 once more. */
  function Disagreement(k: nat): seq<Event>
    requires k >= 2
  {
    (Repeat(0, k - 1) + Repeat(1, k)) + Repeat(0, 1)
  }

  lemma DisagreementHistory(k: nat, cap: nat)
    requires k >= 2 && cap >= 1
    ensures RefRun(History(k, 0, map[]), cap, Disagreement(k)).0 ==
            History(k, 2 * k, map[0 := Past(Times(1, k - 1) + [2 * k], true), 1 := Past(Times(k, k), true)])
  {
    var h0 := History(k, 0, map[]);
    RefRunConcat(h0, cap, Repeat(0, k - 1) + Repeat(1, k), Repeat(0, 1));
    RefRunConcat(h0, cap, Repeat(0, k - 1), Repeat(1, k));
    RefRunRepeat(h0, cap, 0, k - 1);
    var h1 := TouchN(h0, 0, k - 1);
    assert [] + Times(1, k - 1) == Times(1, k - 1);
    RefRunRepeat(h1, cap, 1, k);
    var h2 := TouchN(h1, 1, k);
    assert [] + Times(k, k) == Times(k, k);
    RefRunRepeat(h2, cap, 0, 1);
    assert Times(2 * k, 1) == [2 * k];
    assert TouchN(h2, 0, 1).past == map[0 := Past(Times(1, k - 1) + [2 * k], true), 1 := Past(Times(k, k), true)];
  }

  /** The coded choice is the documented one in every run exactly when k is 1. */
  lemma DocumentedExactlyForK1(k: nat, cap: nat)
    requires k >= 1 && cap >= 1
    ensures (forall es, f :: var h := RefRun(History(k, 0, map[]), cap, es).0;
                             IsVictim(h, f) <==> IsDocumentedVictim(h, f))
            <==> k == 1
  {
    var h0 := History(k, 0, map[]);
    if k == 1 {
      forall es, f ensures var h := RefRun(h0, cap, es).0; IsVictim(h, f) <==> IsDocumentedVictim(h, f) {
        StartSim(k, cap);
        RunRefinesHistory(Start(k, cap), h0, es);
        K1Agrees(Run(Start(k, cap), es).0, RefRun(h0, cap, es).0, f);
      }
    } else {
      DisagreementHistory(k, cap);
      var h := RefRun(h0, cap, Disagreement(k)).0;
      assert CanGo(h, 0) && CanGo(h, 1);
      assert Last(h, 0) == 2 * k && Last(h, 1) == 2 * k - 1 && KthLast(h, 0) == 1 && KthLast(h, 1) == k;
      assert IsVictim(h, 1) && !IsDocumentedVictim(h, 1);
    }
  }

  lemma K1Agrees(s: Lru, h: History, f: int)
    requires Sim(s, h) && h.k == 1
    ensures IsVictim(h, f) <==> IsDocumentedVictim(h, f)
  {
    forall g | g in h.past ensures KthLast(h, g) == Last(h, g) && !Few(h, g) {
      assert RecOk(s.recs[g], h.past[g], s.k, s.clock);
    }
  }
}

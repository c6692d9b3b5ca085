/** Whole runs of the buffer pool against a flat page store.  The client's view is a map from live
    page ids to contents that knows nothing of frames, eviction or the disk; the pool is proved to
    refine it in every run that keeps the client contract. */
module PoolRuns {
  import opened Common
  import opened LruK
  import opened Pool

  /** Live pages and their contents; pages with a write not yet reported by an unpin; outstanding
      pins, one per successful New or Fetch not yet undone by an Unpin; how many pages were made. */
  datatype Client = Client(store: map<int, Bytes>, pending: set<int>, pins: multiset<int>, made: int)

  datatype Op =
    | OpNew
    | OpFetch(p: int)
    | OpWrite(p: int, data: Bytes)
    | OpUnpin(p: int, dirty: bool)
    | OpFlush(p: int)
    | OpFlushAll
    | OpFlushFrame(i: nat)
    | OpDelete(p: int)

  datatype Answer = NoPage | GotPage(p: int, frame: int) | Flag(ok: bool) | Flushed(p: int) | Nothing

  function Step(s: PoolSt, op: Op): (PoolSt, Answer) {
    match op
    case OpNew => var (s', r) := New(s); (s', if r.None? then NoPage else GotPage(r.value.0, r.value.1))
    case OpFetch(p) => var (s', r) := Fetch(s, p); (s', if r.None? then NoPage else GotPage(p, r.value))
    case OpWrite(p, data) => (Write(s, p, data), Nothing)
    case OpUnpin(p, dirty) => var (s', b) := Unpin(s, p, dirty); (s', Flag(b))
    case OpFlush(p) => var (s', b) := Flush(s, p); (s', Flag(b))
    case OpFlushAll => (FlushFrom(s, 0), Nothing)
    case OpFlushFrame(i) =>
      if i >= |s.frames| then (s, Nothing)
      else (Flush(s, s.frames[i].pageId).0, Flushed(s.frames[i].pageId))
    case OpDelete(p) => var (s', b) := Delete(s, p); (s', Flag(b))
  }

  /** What the client knows after an answer.  Contents change only by New, Write and Delete. */
  function Seen(c: Client, op: Op, a: Answer): Client {
    match op
    case OpNew =>
      if a.GotPage? then c.(store := c.store[a.p := Zero()], pins := c.pins + multiset{a.p}, made := c.made + 1) else c
    case OpFetch(p) => if a.GotPage? then c.(pins := c.pins + multiset{p}) else c
    case OpWrite(p, data) => c.(store := c.store[p := data], pending := c.pending + {p})
    case OpUnpin(p, dirty) =>
      if a != Flag(true) then c
      else c.(pins := c.pins - multiset{p}, pending := if dirty then c.pending - {p} else c.pending)
    case OpFlush(p) => c.(pending := c.pending - {p})
    case OpFlushAll => c.(pending := {})
    case OpFlushFrame(i) => if a.Flushed? then c.(pending := c.pending - {a.p}) else c
    case OpDelete(p) => if a == Flag(true) then c.(store := c.store - {p}) else c
  }

  /** The client contract: fetch only live pages, write only pinned ones, and report a write no later
      than the unpin that gives up the last pin. */
  predicate Allowed(c: Client, op: Op) {
    match op
    case OpFetch(p) => p in c.store
    case OpWrite(p, data) => c.pins[p] > 0
    case OpUnpin(p, dirty) => p in c.pending && c.pins[p] == 1 ==> dirty
    case _ => true
  }

  /** The pages with an outstanding pin. */
  function PinnedPages(c: Client): set<int> {
    set p | p in c.pins
  }

  /** What the flat store lets a pool of `cap` frames answer.  New hands out the next id, Unpin and Delete
      are decided by the pins, and there is no room exactly when `cap` other pages are pinned; only the
      frame, and whether an unpinned page was there to be flushed, are the pool's own business. */
  predicate AnswerOk(c: Client, cap: nat, op: Op, a: Answer) {
    match op
    case OpNew =>
      if |PinnedPages(c)| == cap then a == NoPage
      else a.GotPage? && a.p == c.made && a.p !in c.store && c.pins[a.p] == 0 && 0 <= a.frame < cap
    case OpFetch(p) =>
      if |PinnedPages(c)| == cap && c.pins[p] == 0 then a == NoPage
      else a.GotPage? && a.p == p && 0 <= a.frame < cap
    case OpWrite(p, data) => a == Nothing
    case OpUnpin(p, dirty) => a == Flag(c.pins[p] > 0)
    case OpFlush(p) => a.Flag? && (c.pins[p] > 0 ==> a.ok) && (a.ok ==> p in c.store)
    case OpFlushAll => a == Nothing
    case OpFlushFrame(i) => if i < cap then a.Flushed? else a == Nothing
    case OpDelete(p) => a == Flag(c.pins[p] == 0)
  }

  /** Contents of a page: its frame's data when resident, else the disk's. */
  function Content(s: PoolSt, p: int): Bytes {
    if Home(s, p).Some? then s.frames[s.table[p]].data else DiskRead(s.disk, p)
  }

  // ---------------------------------------------------------------- the refinement relation

  ghost predicate ResidentRel(s: PoolSt, c: Client, p: int)
    requires p in s.table && InPool(s, s.table[p])
  {
    var fr := s.frames[s.table[p]];
    && p in c.store && fr.data == c.store[p]
    && fr.pin == c.pins[p]
    && (p in c.pending ==> fr.pin > 0)
    && (!fr.dirty && p !in c.pending ==> DiskRead(s.disk, p) == fr.data)
  }

  ghost predicate AwayRel(s: PoolSt, c: Client, p: int) {
    && c.pins[p] == 0 && p !in c.pending
    && (p in c.store ==> DiskRead(s.disk, p) == c.store[p])
  }

  ghost predicate PageRel(s: PoolSt, c: Client, p: int) {
    && (if p in s.table then InPool(s, s.table[p]) && ResidentRel(s, c, p) else AwayRel(s, c, p))
    && (p in c.store ==> 0 <= p < s.next)
    && (p >= s.next ==> DiskRead(s.disk, p) == Zero())
  }

  ghost predicate Pages(s: PoolSt, c: Client) {
    && (forall p :: PageRel(s, c, p))
    && (forall f :: f in s.free && InPool(s, f) ==> s.frames[f].pageId !in c.store)
  }

  ghost predicate Rel(s: PoolSt, c: Client) {
    Inv(s) && Pages(s, c) && c.made == s.next
  }

  // ---------------------------------------------------------------- eviction and write-back

  /** Recycling a frame moves the old page's contents to disk if they are not there already. */
  lemma RecycleRel(s: PoolSt, c: Client)
    requires Rel(s, c) && NextFrame(s).Some?
    ensures InPool(Taken(s), NextFrame(s).value)
    ensures Pages(Recycled(Taken(s), NextFrame(s).value), c)
  {
    TakeOpensHole(s);
    var f := NextFrame(s).value;
    var s2 := Recycled(Taken(s), f);
    var q := s.frames[f].pageId;
    VictimUnpinned(s);
    forall p ensures PageRel(s2, c, p) {
      assert PageRel(s, c, p);
      if p in s2.table { assert PageOk(s, p) && PageOk(s2, p); }
    }
    forall g | g in s2.free && InPool(s2, g) ensures s2.frames[g].pageId !in c.store {
      assert g in s.free;
    }
  }

  lemma VictimUnpinned(s: PoolSt)
    requires Inv(s) && NextFrame(s).Some?
    ensures InPool(s, NextFrame(s).value) && s.frames[NextFrame(s).value].pin == 0
    ensures s.frames[NextFrame(s).value].pageId < s.next
  {
    var f := NextFrame(s).value;
    if s.free != [] {
      assert f in s.free && FrameOk(s, f);
    } else {
      ChoiceSpec(s.repl);
      assert FrameOk(s, f);
      assert PageOk(s, s.frames[f].pageId);
    }
  }

  // ---------------------------------------------------------------- each operation refines the store

  lemma InstallNewRel(s: PoolSt, c: Client, f: int)
    requires Pages(s, c) && Books(s, Some(f))
    ensures var s' := Installed(s.(next := s.next + 1), f, s.next, Zero());
            Pages(s', Seen(c, OpNew, GotPage(s.next, f)))
  {
    var s', c' := Installed(s.(next := s.next + 1), f, s.next, Zero()), Seen(c, OpNew, GotPage(s.next, f));
    NextIsFresh(s, Some(f));
    forall p ensures PageRel(s', c', p) {
      assert PageRel(s, c, p);
      if p in s.table { assert PageOk(s, p); }
    }
    forall g | g in s'.free && InPool(s', g) ensures s'.frames[g].pageId !in c'.store {
      assert FrameOk(s, g);
    }
  }

  lemma NewRel(s: PoolSt, c: Client)
    requires Rel(s, c)
    ensures Rel(Step(s, OpNew).0, Seen(c, OpNew, Step(s, OpNew).1))
  {
    hide Pages, Books, Recycled, Taken, Installed, Seen;
    NewInv(s);
    if NextFrame(s).Some? {
      TakeOpensHole(s);
      NewShape(s);
      NewPages(s, c);
    }
    SeenNew(c, Step(s, OpNew).1);
    NewCounts(s);
  }

  lemma NewCounts(s: PoolSt)
    ensures New(s).0.next == if New(s).1.Some? then s.next + 1 else s.next
  {
  }

  lemma NewPages(s: PoolSt, c: Client)
    requires Rel(s, c) && NextFrame(s).Some? && InPool(Taken(s), NextFrame(s).value)
    ensures Pages(New(s).0, Seen(c, OpNew, GotPage(s.next, NextFrame(s).value)))
  {
    hide Pages, Books, New, Installed, Seen;
    var f := NextFrame(s).value;
    TakeOpensHole(s);
    RecycleRel(s, c);
    NewShape(s);
    InstallNewRel(Recycled(Taken(s), f), c, f);
  }

  lemma SeenNew(c: Client, a: Answer)
    requires a.NoPage? || a.GotPage?
    ensures Seen(c, OpNew, a).made == (if a.NoPage? then c.made else c.made + 1)
    ensures a.NoPage? ==> Seen(c, OpNew, a) == c
  {
  }

  lemma InstallOldRel(s: PoolSt, c: Client, f: int, p: int)
    requires Pages(s, c) && Books(s, Some(f)) && p in c.store && p !in s.table
    ensures Pages(Installed(s, f, p, DiskRead(s.disk, p)), Seen(c, OpFetch(p), GotPage(p, f)))
  {
    var s', c' := Installed(s, f, p, DiskRead(s.disk, p)), Seen(c, OpFetch(p), GotPage(p, f));
    assert PageRel(s, c, p);
    forall q ensures PageRel(s', c', q) {
      assert PageRel(s, c, q);
      if q in s.table { assert PageOk(s, q); }
    }
    forall g | g in s'.free && InPool(s', g) ensures s'.frames[g].pageId !in c'.store {
      assert FrameOk(s, g);
    }
  }

  /** A live page is never remembered by a freed frame, so fetching it is safe. */
  lemma LiveIsSafe(s: PoolSt, c: Client, p: int)
    requires Rel(s, c) && p in c.store
    ensures FetchSafe(s, p)
  {
    assert PageRel(s, c, p);
    forall g | g in Taken(s).free && InPool(s, g) ensures s.frames[g].pageId != p {
      assert g in s.free;
    }
  }

  lemma FetchMissRel(s: PoolSt, c: Client, p: int)
    requires Rel(s, c) && p in c.store && p !in s.table && NextFrame(s).Some?
    ensures Rel(Fetch(s, p).0, Seen(c, OpFetch(p), GotPage(p, NextFrame(s).value)))
  {
    var f := NextFrame(s).value;
    LiveIsSafe(s, c, p);
    FetchMissInv(s, p);
    TakeOpensHole(s);
    RecycleRel(s, c);
    InstallOldRel(Recycled(Taken(s), f), c, f, p);
  }

  lemma FetchHitRel(s: PoolSt, c: Client, p: int)
    requires Rel(s, c) && p in s.table
    ensures Rel(Fetch(s, p).0, Seen(c, OpFetch(p), GotPage(p, s.table[p])))
  {
    FetchHitInv(s, p);
    assert PageOk(s, p);
    var s', c' := Fetch(s, p).0, Seen(c, OpFetch(p), GotPage(p, s.table[p]));
    forall q ensures PageRel(s', c', q) {
      assert PageRel(s, c, q);
      if q in s.table { assert PageOk(s, q); }
    }
    forall g | g in s'.free && InPool(s', g) ensures s'.frames[g].pageId !in c'.store { assert FrameOk(s, g); }
  }

  lemma FetchRel(s: PoolSt, c: Client, p: int)
    requires Rel(s, c) && p in c.store
    ensures Rel(Step(s, OpFetch(p)).0, Seen(c, OpFetch(p), Step(s, OpFetch(p)).1))
  {
    if p in s.table {
      FetchHitInv(s, p);
      FetchHitRel(s, c, p);
    } else if NextFrame(s).Some? {
      FetchMissInv(s, p);
      FetchMissRel(s, c, p);
    }
  }

  lemma WriteRel(s: PoolSt, c: Client, p: int, data: Bytes)
    requires Rel(s, c) && c.pins[p] > 0
    ensures Rel(Write(s, p, data), Seen(c, OpWrite(p, data), Nothing))
  {
    WriteInv(s, p, data);
    assert PageRel(s, c, p) && PageOk(s, p);
    var s', c' := Write(s, p, data), Seen(c, OpWrite(p, data), Nothing);
    forall q ensures PageRel(s', c', q) {
      assert PageRel(s, c, q);
      if q in s.table { assert PageOk(s, q); }
    }
    forall g | g in s'.free && InPool(s', g) ensures s'.frames[g].pageId !in c'.store { assert FrameOk(s, g); }
  }

  lemma UnpinRel(s: PoolSt, c: Client, p: int, dirty: bool)
    requires Rel(s, c) && Allowed(c, OpUnpin(p, dirty))
    ensures Rel(Unpin(s, p, dirty).0, Seen(c, OpUnpin(p, dirty), Flag(Unpin(s, p, dirty).1)))
  {
    UnpinInv(s, p, dirty);
    if Unpin(s, p, dirty).1 {
      assert PageRel(s, c, p) && PageOk(s, p);
      var s', c' := Unpin(s, p, dirty).0, Seen(c, OpUnpin(p, dirty), Flag(true));
      forall q ensures PageRel(s', c', q) {
        assert PageRel(s, c, q);
        if q in s.table { assert PageOk(s, q); }
      }
      forall g | g in s'.free && InPool(s', g) ensures s'.frames[g].pageId !in c'.store { assert FrameOk(s, g); }
    }
  }

  lemma FlushRel(s: PoolSt, c: Client, p: int)
    requires Rel(s, c)
    ensures Rel(Flush(s, p).0, c.(pending := c.pending - {p}))
  {
    FlushInv(s, p);
    assert PageRel(s, c, p);
    var s', c' := Flush(s, p).0, c.(pending := c.pending - {p});
    forall q ensures PageRel(s', c', q) {
      assert PageRel(s, c, q);
      if q in s.table { assert PageOk(s, q); }
    }
    forall g | g in s'.free && InPool(s', g) ensures s'.frames[g].pageId !in c'.store { assert FrameOk(s, g); }
  }

  lemma DeleteRel(s: PoolSt, c: Client, p: int)
    requires Rel(s, c)
    ensures Rel(Delete(s, p).0, Seen(c, OpDelete(p), Flag(Delete(s, p).1)))
  {
    DeleteInv(s, p);
    assert PageRel(s, c, p);
    if p in s.table { assert PageOk(s, p); }
    var s', c' := Delete(s, p).0, Seen(c, OpDelete(p), Flag(Delete(s, p).1));
    forall q ensures PageRel(s', c', q) {
      assert PageRel(s, c, q);
      if q in s.table { assert PageOk(s, q); }
    }
    forall g | g in s'.free && InPool(s', g) ensures s'.frames[g].pageId !in c'.store {
      if g in s.free { assert FrameOk(s, g); }
    }
  }

  // ---------------------------------------------------------------- flushing everything

  ghost function PageIdsFrom(s: PoolSt, i: nat): set<int> {
    set j | i <= j < |s.frames| :: s.frames[j].pageId
  }

  lemma FlushKeepsIds(s: PoolSt, p: int)
    ensures |Flush(s, p).0.frames| == |s.frames|
    ensures forall j :: 0 <= j < |s.frames| ==> Flush(s, p).0.frames[j].pageId == s.frames[j].pageId
  {
  }

  lemma {:induction false} FlushFromRel(s: PoolSt, c: Client, i: nat)
    requires Rel(s, c)
    ensures Rel(FlushFrom(s, i), c.(pending := c.pending - PageIdsFrom(s, i)))
    decreases |s.frames| - i
  {
    if i >= |s.frames| {
      assert c.pending - PageIdsFrom(s, i) == c.pending;
    } else {
      var p := s.frames[i].pageId;
      var s1, c1 := Flush(s, p).0, c.(pending := c.pending - {p});
      FlushRel(s, c, p);
      FlushKeepsIds(s, p);
      FlushFromRel(s1, c1, i + 1);
      assert PageIdsFrom(s, i) == {p} + PageIdsFrom(s1, i + 1);
      assert c1.pending - PageIdsFrom(s1, i + 1) == c.pending - PageIdsFrom(s, i);
    }
  }

  lemma FlushAllRel(s: PoolSt, c: Client)
    requires Rel(s, c)
    ensures Rel(FlushFrom(s, 0), c.(pending := {}))
  {
    FlushFromRel(s, c, 0);
    forall p | p in c.pending ensures p in PageIdsFrom(s, 0) {
      assert PageRel(s, c, p) && PageOk(s, p);
    }
    assert c.pending - PageIdsFrom(s, 0) == {};
  }

  // ---------------------------------------------------------------- the answers are the store's

  /** The frames that are pinned. */
  ghost function PinnedFrames(s: PoolSt): set<int> {
    set f | 0 <= f < |s.frames| && s.frames[f].pin > 0
  }

  /** Pinned pages and pinned frames are as many. */
  lemma PinnedAlike(s: PoolSt, c: Client)
    requires Rel(s, c)
    ensures |PinnedPages(c)| == |PinnedFrames(s)|
  {
    forall p | p in PinnedPages(c) ensures p in s.table && s.table[p] in PinnedFrames(s) {
      assert PageRel(s, c, p) && PageOk(s, p);
    }
    forall p, q | p in PinnedPages(c) && q in PinnedPages(c) && s.table[p] == s.table[q] ensures p == q {
      assert PageOk(s, p) && PageOk(s, q);
    }
    forall f | f in PinnedFrames(s) ensures f in Images(PinnedPages(c), s.table) {
      assert FrameOk(s, f);
      var p := s.frames[f].pageId;
      assert PageRel(s, c, p);
      assert p in PinnedPages(c) && s.table[p] == f;
    }
    assert Images(PinnedPages(c), s.table) == PinnedFrames(s);
    ImageSize(PinnedPages(c), s.table);
  }

  ghost function Frames(n: nat): (r: set<int>)
    ensures |r| == n && forall f :: f in r <==> 0 <= f < n
  {
    if n == 0 then {} else Frames(n - 1) + {n - 1}
  }

  /** Every frame is pinned exactly when as many pages are pinned as there are frames. */
  lemma AllPinned(s: PoolSt, c: Client)
    requires Rel(s, c)
    ensures |PinnedPages(c)| == |s.frames| <==> forall f :: InPool(s, f) ==> s.frames[f].pin > 0
  {
    PinnedAlike(s, c);
    var all := Frames(|s.frames|);
    assert PinnedFrames(s) <= all;
    SubsetSize(PinnedFrames(s), all);
    if forall f :: InPool(s, f) ==> s.frames[f].pin > 0 {
      assert PinnedFrames(s) == all;
    } else {
      var f :| InPool(s, f) && s.frames[f].pin <= 0;
      assert f in all && f !in PinnedFrames(s);
    }
  }

  lemma NewAnswer(s: PoolSt, c: Client)
    requires Rel(s, c)
    ensures AnswerOk(c, |s.frames|, OpNew, Step(s, OpNew).1)
  {
    AllPinned(s, c);
    FrameSpec(s);
    NewInv(s);
    assert PageRel(s, c, s.next);
    if NextFrame(s).Some? {
      TakeOpensHole(s);
    }
  }

  lemma FetchAnswer(s: PoolSt, c: Client, p: int)
    requires Rel(s, c) && p in c.store
    ensures AnswerOk(c, |s.frames|, OpFetch(p), Step(s, OpFetch(p)).1)
  {
    AllPinned(s, c);
    FrameSpec(s);
    assert PageRel(s, c, p);
    if p in s.table {
      FetchHitInv(s, p);
      assert PageOk(s, p);
    } else if NextFrame(s).Some? {
      FetchMissInv(s, p);
      TakeOpensHole(s);
    }
  }

  lemma AnswerIsStores(s: PoolSt, c: Client, op: Op)
    requires Rel(s, c) && Allowed(c, op)
    ensures AnswerOk(c, |s.frames|, op, Step(s, op).1)
  {
    match op
    case OpNew => NewAnswer(s, c);
    case OpFetch(p) => FetchAnswer(s, c, p);
    case OpUnpin(p, dirty) => OnePageAnswer(s, c, p);
    case OpFlush(p) => OnePageAnswer(s, c, p);
    case OpDelete(p) => OnePageAnswer(s, c, p);
    case _ =>
  }

  lemma OnePageAnswer(s: PoolSt, c: Client, p: int)
    requires Rel(s, c)
    ensures forall dirty :: Unpin(s, p, dirty).1 <==> c.pins[p] > 0
    ensures Delete(s, p).1 <==> c.pins[p] == 0
    ensures c.pins[p] > 0 ==> Flush(s, p).1
    ensures Flush(s, p).1 ==> p in c.store
  {
    assert PageRel(s, c, p);
    if p in s.table {
      assert PageOk(s, p) && FrameOk(s, s.table[p]);
    }
  }

  // ---------------------------------------------------------------- whole runs

  lemma FlushFrameRel(s: PoolSt, c: Client, i: nat)
    requires Rel(s, c)
    ensures Rel(Step(s, OpFlushFrame(i)).0, Seen(c, OpFlushFrame(i), Step(s, OpFlushFrame(i)).1))
  {
    if i < |s.frames| {
      FlushRel(s, c, s.frames[i].pageId);
    }
  }

  /** One operation: the pool stays related to the store, and its answer is one the store allows. */
  lemma StepRel(s: PoolSt, c: Client, op: Op)
    requires Rel(s, c) && Allowed(c, op)
    ensures Rel(Step(s, op).0, Seen(c, op, Step(s, op).1))
    ensures AnswerOk(c, |s.frames|, op, Step(s, op).1)
    ensures |Step(s, op).0.frames| == |s.frames|
  {
    AnswerIsStores(s, c, op);
    StepKeepsSize(s, op);
    match op
    case OpNew => NewRel(s, c);
    case OpFetch(p) => FetchRel(s, c, p);
    case OpWrite(p, data) => WriteRel(s, c, p, data);
    case OpUnpin(p, dirty) => UnpinRel(s, c, p, dirty);
    case OpFlush(p) => FlushRel(s, c, p);
    case OpFlushAll => FlushAllRel(s, c);
    case OpFlushFrame(i) => FlushFrameRel(s, c, i);
    case OpDelete(p) => DeleteRel(s, c, p);
  }

  lemma StepKeepsSize(s: PoolSt, op: Op)
    ensures |Step(s, op).0.frames| == |s.frames|
  {
    if op.OpFlushAll? {
      FlushFromKeepsTable(s, 0);
    }
  }

  function Run(s: PoolSt, ops: seq<Op>): (PoolSt, seq<Answer>)
    decreases ops
  {
    if ops == [] then (s, []) else
    var (s1, a) := Step(s, ops[0]);
    var (s2, rest) := Run(s1, ops[1..]);
    (s2, [a] + rest)
  }

  /** The flat store after the same operations, given only the answers the pool gave. */
  function Observed(c: Client, ops: seq<Op>, answers: seq<Answer>): Client
    requires |ops| == |answers|
    decreases ops
  {
    if ops == [] then c else Observed(Seen(c, ops[0], answers[0]), ops[1..], answers[1..])
  }

  predicate Obeys(c: Client, ops: seq<Op>, answers: seq<Answer>)
    requires |ops| == |answers|
    decreases ops
  {
    ops != [] ==> Allowed(c, ops[0]) && Obeys(Seen(c, ops[0], answers[0]), ops[1..], answers[1..])
  }

  lemma {:induction false} RunLength(s: PoolSt, ops: seq<Op>)
    ensures |Run(s, ops).1| == |ops|
    decreases ops
  {
    if ops != [] { RunLength(Step(s, ops[0]).0, ops[1..]); }
  }

  const NOBODY := Client(map[], {}, multiset{}, 0)

  /** Every answer of the run is one the store allows where it was given. */
  ghost predicate AnswersOk(c: Client, cap: nat, ops: seq<Op>, answers: seq<Answer>)
    requires |ops| == |answers|
    decreases ops
  {
    ops != [] ==>
      && AnswerOk(c, cap, ops[0], answers[0])
      && AnswersOk(Seen(c, ops[0], answers[0]), cap, ops[1..], answers[1..])
  }

  /** In every run that keeps the client contract the pool and the disk together are the flat
      store: every answer is the store's, every live page reads as the client last wrote it, whatever
      was evicted, flushed or fetched again, and the accounting invariant holds. */
  lemma {:induction false} RunRefinesStore(s: PoolSt, c: Client, ops: seq<Op>)
    requires Rel(s, c) && |Run(s, ops).1| == |ops| && Obeys(c, ops, Run(s, ops).1)
    ensures Rel(Run(s, ops).0, Observed(c, ops, Run(s, ops).1))
    ensures AnswersOk(c, |s.frames|, ops, Run(s, ops).1)
    ensures forall p :: p in Observed(c, ops, Run(s, ops).1).store ==>
              Content(Run(s, ops).0, p) == Observed(c, ops, Run(s, ops).1).store[p]
    decreases ops
  {
    if ops == [] {
      RelContent(s, c);
    } else {
      var (s1, a) := Step(s, ops[0]);
      var answers := Run(s, ops).1;
      assert answers[1..] == Run(s1, ops[1..]).1;
      StepRel(s, c, ops[0]);
      RunRefinesStore(s1, Seen(c, ops[0], a), ops[1..]);
    }
  }

  /** The operation changes or ends the page's contents. */
  predicate Touches(op: Op, p: int) {
    (op.OpWrite? || op.OpDelete?) && op.p == p
  }

  /** A live page's contents change only by a write to it, and only a delete of it ends it. */
  lemma OnlyWritesChange(c: Client, cap: nat, op: Op, a: Answer, p: int)
    requires AnswerOk(c, cap, op, a) && p in c.store && !Touches(op, p)
    ensures p in Seen(c, op, a).store && Seen(c, op, a).store[p] == c.store[p]
  {
  }

  /** Over any run: a live page nobody writes or deletes keeps its contents in pool and disk. */
  lemma {:induction false} UntouchedKeepsContents(s: PoolSt, c: Client, ops: seq<Op>, p: int)
    requires Rel(s, c) && |Run(s, ops).1| == |ops| && Obeys(c, ops, Run(s, ops).1)
    requires p in c.store && forall i :: 0 <= i < |ops| ==> !Touches(ops[i], p)
    ensures Content(Run(s, ops).0, p) == Content(s, p)
    decreases ops
  {
    if ops != [] {
      var (s1, a) := Step(s, ops[0]);
      var c1 := Seen(c, ops[0], a);
      assert Run(s, ops).1[1..] == Run(s1, ops[1..]).1;
      StepRel(s, c, ops[0]);
      OnlyWritesChange(c, |s.frames|, ops[0], a, p);
      RelContent(s, c);
      RelContent(s1, c1);
      UntouchedKeepsContents(s1, c1, ops[1..], p);
    }
  }

  /** Flushing all pages is flushing the frames one after the other; other operations may come between. */
  lemma {:induction false} FlushAllIsFrames(s: PoolSt, i: nat)
    requires i <= |s.frames|
    ensures Run(s, FrameFlushes(i, |s.frames|)).0 == FlushFrom(s, i)
    decreases |s.frames| - i
  {
    if i < |s.frames| {
      var ops := FrameFlushes(i, |s.frames|);
      var s1 := Flush(s, s.frames[i].pageId).0;
      FlushKeepsIds(s, s.frames[i].pageId);
      assert ops[0] == OpFlushFrame(i) && ops[1..] == FrameFlushes(i + 1, |s.frames|);
      FlushAllIsFrames(s1, i + 1);
    }
  }

  function FrameFlushes(i: nat, n: nat): seq<Op>
    requires i <= n
  {
    seq(n - i, j requires 0 <= j => OpFlushFrame(i + j))
  }

  lemma RelContent(s: PoolSt, c: Client)
    requires Rel(s, c)
    ensures forall p :: p in c.store ==> Content(s, p) == c.store[p]
  {
    forall p | p in c.store ensures Content(s, p) == c.store[p] { assert PageRel(s, c, p); }
  }

  lemma StartRel(n: nat, k: nat)
    requires k >= 1
    ensures Rel(Pool.Start(n, k), NOBODY)
  {
    StartInv(n, k);
    forall p ensures PageRel(Pool.Start(n, k), NOBODY, p) { }
  }

  /** A fetch that succeeds hands out the frame holding the page's contents, pinned. */
  lemma FetchReads(s: PoolSt, c: Client, p: int)
    requires Rel(s, c) && p in c.store && Fetch(s, p).1.Some?
    ensures var s' := Fetch(s, p).0;
            var f := Fetch(s, p).1.value;
            && InPool(s', f) && s'.frames[f].pageId == p
            && s'.frames[f].data == c.store[p] && s'.frames[f].pin == c.pins[p] + 1
  {
    var s', c' := Fetch(s, p).0, Seen(c, OpFetch(p), Step(s, OpFetch(p)).1);
    FetchRel(s, c, p);
    assert PageRel(s', c', p);
    if p in s.table { FetchHitInv(s, p); } else { FetchMissInv(s, p); }
    assert PageOk(s', p);
  }

  // ---------------------------------------------------------------- pins

  /** While a page has an outstanding pin, no operation moves it to another frame. */
  lemma PinnedStays(s: PoolSt, c: Client, op: Op, p: int)
    requires Rel(s, c) && Allowed(c, op) && c.pins[p] > 0
    ensures p in s.table && p in Step(s, op).0.table && Step(s, op).0.table[p] == s.table[p]
  {
    assert PageRel(s, c, p) && PageOk(s, p);
    match op
    case OpNew => NewKeepsPinned(s, c, p);
    case OpFetch(q) => FetchKeepsPinned(s, c, q, p);
    case OpFlushAll => FlushFromKeepsTable(s, 0);
    case _ =>
  }

  lemma NewKeepsPinned(s: PoolSt, c: Client, p: int)
    requires Rel(s, c) && c.pins[p] > 0
    ensures p in s.table && p in New(s).0.table && New(s).0.table[p] == s.table[p]
  {
    assert PageRel(s, c, p) && PageOk(s, p);
    if NextFrame(s).Some? {
      TakeOpensHole(s);
      VictimUnpinned(s);
      NewShape(s);
      hide New;
      assert FrameOk(s, s.table[p]);
    }
  }

  lemma FetchKeepsPinned(s: PoolSt, c: Client, q: int, p: int)
    requires Rel(s, c) && c.pins[p] > 0
    ensures p in s.table && p in Fetch(s, q).0.table && Fetch(s, q).0.table[p] == s.table[p]
  {
    assert PageRel(s, c, p) && PageOk(s, p);
    if q !in s.table && NextFrame(s).Some? {
      TakeOpensHole(s);
      VictimUnpinned(s);
      assert FrameOk(s, s.table[p]);
    }
  }

  /** The page has an outstanding pin at every position of the run. */
  predicate StaysPinned(c: Client, ops: seq<Op>, answers: seq<Answer>, p: int)
    requires |answers| == |ops|
    decreases |ops|
  {
    c.pins[p] > 0 && (ops != [] ==> StaysPinned(Seen(c, ops[0], answers[0]), ops[1..], answers[1..], p))
  }

  /** Over any run: as long as a page has an outstanding pin it stays in one frame. */
  lemma {:induction false} PinnedStaysInRun(s: PoolSt, c: Client, ops: seq<Op>, p: int, i: nat)
    requires Rel(s, c) && |Run(s, ops).1| == |ops| && Obeys(c, ops, Run(s, ops).1)
    requires StaysPinned(c, ops, Run(s, ops).1, p) && i <= |ops|
    ensures p in s.table && p in Run(s, ops[..i]).0.table && Run(s, ops[..i]).0.table[p] == s.table[p]
    decreases |ops|
  {
    assert PageRel(s, c, p);
    if i > 0 {
      hide Rel, Step, Seen;
      var (s1, a) := Step(s, ops[0]);
      PinnedStays(s, c, ops[0], p);
      StepRel(s, c, ops[0]);
      assert Run(s, ops).1[1..] == Run(s1, ops[1..]).1;
      PinnedStaysInRun(s1, Seen(c, ops[0], a), ops[1..], p, i - 1);
      assert ops[..i][0] == ops[0] && ops[..i][1..] == ops[1..][..i - 1];
    }
  }

  lemma {:induction false} FlushFromKeepsTable(s: PoolSt, i: nat)
    ensures FlushFrom(s, i).table == s.table && |FlushFrom(s, i).frames| == |s.frames|
    decreases |s.frames| - i
  {
    if i < |s.frames| {
      FlushKeepsIds(s, s.frames[i].pageId);
      FlushFromKeepsTable(Flush(s, s.frames[i].pageId).0, i + 1);
    }
  }

  /** New fails exactly when every frame is pinned, and so does the fetch of a page that is not
      resident; a failed call changes nothing, not even the next page id. */
  lemma FailsOnlyWhenAllPinned(s: PoolSt, c: Client, p: int)
    requires Rel(s, c) && p in c.store
    ensures New(s).1.None? <==> forall f :: InPool(s, f) ==> s.frames[f].pin > 0
    ensures Fetch(s, p).1.None? <==> p !in s.table && forall f :: InPool(s, f) ==> s.frames[f].pin > 0
    ensures New(s).1.None? ==> New(s).0 == s
    ensures Fetch(s, p).1.None? ==> Fetch(s, p).0 == s
  {
    FrameSpec(s);
    NewInv(s);
    if p in s.table {
      FetchHitInv(s, p);
    } else if NextFrame(s).Some? {
      FetchMissInv(s, p);
    }
  }

  // ---------------------------------------------------------------- what the contract is for

  /** Eviction keeps a page's contents exactly when its dirty flag is set or the disk already has
      them: a write whose last unpin did not report it is lost. */
  lemma EvictionKeepsContents(s: PoolSt)
    requires Inv(s) && s.free == [] && Choice(s.repl).Some?
    ensures InPool(s, Choice(s.repl).value)
    ensures var fr := s.frames[Choice(s.repl).value];
            Content(New(s).0, fr.pageId) == Content(s, fr.pageId)
            <==> fr.dirty || DiskRead(s.disk, fr.pageId) == fr.data
  {
    TakeOpensHole(s);
    VictimUnpinned(s);
    NewShape(s);
    ChoiceSpec(s.repl);
    var f := Choice(s.repl).value;
    assert FrameOk(s, f) && PageOk(s, s.frames[f].pageId);
  }

  /** Everything of a pool but the replacer and the disk. */
  predicate Looks(s: PoolSt, frames: seq<FrameSt>, table: map<int, int>, free: seq<int>, next: int) {
    s.frames == frames && s.table == table && s.free == free && s.next == next
  }

  lemma NewLooks(s: PoolSt)
    requires s.free != [] && InPool(s, s.free[0])
    ensures var f := s.free[0];
            Looks(New(s).0, s.frames[f := FrameSt(s.next, 1, false, Zero())],
                  (s.table - {s.frames[f].pageId})[s.next := f], s.free[1..], s.next + 1)
  {
    hide Accessed, LruK.Marked;
  }

  lemma FetchLooks(s: PoolSt, p: int)
    requires p !in s.table && s.free != [] && InPool(s, s.free[0])
    ensures var f := s.free[0];
            var data := Fetch(s, p).0.frames[f].data;
            Looks(Fetch(s, p).0, s.frames[f := FrameSt(p, 1, false, data)],
                  (s.table - {s.frames[f].pageId})[p := f], s.free[1..], s.next)
  {
    hide Accessed, LruK.Marked;
  }

  lemma UnpinLooks(s: PoolSt, p: int)
    requires 0 <= p && p in s.table && InPool(s, s.table[p]) && s.frames[s.table[p]].pin == 1
    ensures Looks(Unpin(s, p, false).0, s.frames[s.table[p] := s.frames[s.table[p]].(pin := 0)], s.table, s.free,
                  s.next)
  {
    hide LruK.Marked;
  }

  lemma DeleteLooks(s: PoolSt, p: int)
    requires 0 <= p && p in s.table && InPool(s, s.table[p]) && s.frames[s.table[p]].pin == 0
    ensures Looks(Delete(s, p).0, s.frames[s.table[p] := s.frames[s.table[p]].(data := Zero())], s.table - {p},
                  s.free + [s.table[p]], s.next)
  {
    hide Dropped;
  }

  function StaleRun(): seq<Op> {
    [OpNew, OpNew, OpUnpin(0, false), OpUnpin(1, false), OpDelete(0), OpDelete(1), OpFetch(1), OpNew]
  }

  lemma RunStep(s: PoolSt, ops: seq<Op>)
    requires ops != []
    ensures Run(s, ops).0 == Run(Step(s, ops[0]).0, ops[1..]).0
  {
  }

  /** A run outside the contract, on a pool of two frames: page 1 is fetched again after its delete while
      frame 1 still carries its id, and the next New unmaps it although it is pinned in frame 0. */
  lemma StaleFrameUnmaps(k: nat)
    ensures var s := Run(Pool.Start(2, k), StaleRun()).0;
            1 !in s.table && |s.frames| == 2 && s.frames[0].pageId == 1 && s.frames[0].pin == 1
  {
    var blank, z := FrameSt(INVALID_PAGE_ID, 0, false, Zero()), Zero();
    hide New, Fetch, Unpin, Delete;
    var s0 := Pool.Start(2, k);
    assert Looks(s0, [blank, blank], map[], [0, 1], 0);
    var s1 := New(s0).0;
    NewLooks(s0);
    assert Looks(s1, [FrameSt(0, 1, false, z), blank], map[0 := 0], [1], 1);
    var s2 := New(s1).0;
    NewLooks(s1);
    assert Looks(s2, [FrameSt(0, 1, false, z), FrameSt(1, 1, false, z)], map[0 := 0, 1 := 1], [], 2);
    var s3 := Unpin(s2, 0, false).0;
    UnpinLooks(s2, 0);
    var s4 := Unpin(s3, 1, false).0;
    UnpinLooks(s3, 1);
    assert Looks(s4, [FrameSt(0, 0, false, z), FrameSt(1, 0, false, z)], map[0 := 0, 1 := 1], [], 2);
    var s5 := Delete(s4, 0).0;
    DeleteLooks(s4, 0);
    var s6 := Delete(s5, 1).0;
    DeleteLooks(s5, 1);
    assert Looks(s6, [FrameSt(0, 0, false, z), FrameSt(1, 0, false, z)], map[], [0, 1], 2);
    var s7 := Fetch(s6, 1).0;
    FetchLooks(s6, 1);
    var s8 := New(s7).0;
    NewLooks(s7);
    assert s8.frames[0].pageId == 1 && s8.frames[0].pin == 1 && 1 !in s8.table;
    StaleRunEnds(s0, s1, s2, s3, s4, s5, s6, s7);
  }

  lemma StaleRunEnds(s0: PoolSt, s1: PoolSt, s2: PoolSt, s3: PoolSt, s4: PoolSt, s5: PoolSt, s6: PoolSt, s7: PoolSt)
    requires s1 == New(s0).0 && s2 == New(s1).0 && s3 == Unpin(s2, 0, false).0 && s4 == Unpin(s3, 1, false).0
    requires s5 == Delete(s4, 0).0 && s6 == Delete(s5, 1).0 && s7 == Fetch(s6, 1).0
    ensures Run(s0, StaleRun()).0 == New(s7).0
  {
    hide New, Fetch, Unpin, Delete, Run;
    var rest := [OpDelete(0), OpDelete(1), OpFetch(1), OpNew];
    assert StaleRun() == [OpNew, OpNew, OpUnpin(0, false), OpUnpin(1, false)] + rest;
    RunFour(s0, OpNew, OpNew, OpUnpin(0, false), OpUnpin(1, false), rest);
    assert rest == rest + [];
    RunFour(s4, OpDelete(0), OpDelete(1), OpFetch(1), OpNew, []);
    RunNothing(New(s7).0);
  }

  lemma RunFour(s: PoolSt, a: Op, b: Op, c: Op, d: Op, rest: seq<Op>)
    ensures Run(s, [a, b, c, d] + rest).0 == Run(Step(Step(Step(Step(s, a).0, b).0, c).0, d).0, rest).0
  {
    hide Step, Run;
    var ops := [a, b, c, d] + rest;
    RunStep(s, ops);
    RunStep(Step(s, a).0, ops[1..]);
    RunStep(Step(Step(s, a).0, b).0, ops[2..]);
    RunStep(Step(Step(Step(s, a).0, b).0, c).0, ops[3..]);
    assert ops[1..][1..] == ops[2..] && ops[2..][1..] == ops[3..] && ops[3..][1..] == rest;
  }

  lemma RunNothing(s: PoolSt)
    ensures Run(s, []) == (s, [])
  {
  }
}

/** Which frame a page goes to and what reaches the disk, decided by the operations and the answers alone.  A ledger
    notes who is where, the free frames in their order, the accesses of every frame and which frames were reported
    dirty; the pool is proved to hold exactly what the ledger says in every run, and to pick the frame the access
    history names. */
module PoolPolicy {
  import opened Common
  import opened LruK
  import opened Pool
  import opened PoolRuns

  /** `place`: the frame of each resident page; `tag`: the page id each frame last carried. */
  datatype Ledger = Ledger(place: map<int, int>, free: seq<int>, past: History, tag: map<int, int>, dirty: set<int>,
                           disk: map<int, Bytes>)

  function TagOf(v: Ledger, f: int): int {
    if f in v.tag then v.tag[f] else INVALID_PAGE_ID
  }

  /** An access that takes a pin. */
  function Held(h: History, f: int): History {
    Remark(Touch(h, f), f, false)
  }

  /** The frame holds the page it is tagged with. */
  predicate HasPage(v: Ledger, f: int) {
    TagOf(v, f) in v.place && v.place[TagOf(v, f)] == f
  }

  /** What frame `f` holds: its page as the client last wrote it, or nothing. */
  function Holding(v: Ledger, c: Client, f: int): Bytes {
    var q := TagOf(v, f);
    if HasPage(v, f) && q in c.store then c.store[q] else Zero()
  }

  /** Page `p` moves into frame `f`; a frame reported dirty is written out first. */
  function MovedIn(v: Ledger, c: Client, p: int, f: int): Ledger {
    Ledger((v.place - {TagOf(v, f)})[p := f], if v.free == [] then [] else v.free[1..], Held(Forget(v.past, f), f),
           v.tag[f := p], v.dirty - {f}, if f in v.dirty then v.disk[TagOf(v, f) := Holding(v, c, f)] else v.disk)
  }

  function FlushedOne(v: Ledger, c: Client, p: int): Ledger {
    if p in v.place && p in c.store then v.(disk := v.disk[p := c.store[p]], dirty := v.dirty - {v.place[p]}) else v
  }

  /** What is noted after an answer; `c` is the client's view before it. */
  function Noted(v: Ledger, c: Client, op: Op, a: Answer): Ledger {
    match op
    case OpNew => if a.GotPage? then MovedIn(v, c, a.p, a.frame) else v
    case OpFetch(p) =>
      if !a.GotPage? then v
      else if p in v.place then v.(past := Held(v.past, v.place[p]))
      else MovedIn(v, c, p, a.frame)
    case OpWrite(_, _) => v
    case OpUnpin(p, dirty) =>
      if c.pins[p] == 0 || p !in v.place then v
      else v.(dirty := if dirty then v.dirty + {v.place[p]} else v.dirty,
              past := if c.pins[p] == 1 then Remark(v.past, v.place[p], true) else v.past)
    case OpFlush(p) => FlushedOne(v, c, p)
    case OpFlushAll =>
      v.(disk := v.disk + (map p | p in v.place && p in c.store :: c.store[p]),
         dirty := set f | f in v.dirty && !HasPage(v, f))
    case OpFlushFrame(i) => if a.Flushed? then FlushedOne(v, c, TagOf(v, i)) else v
    case OpDelete(p) =>
      if c.pins[p] > 0 || p !in v.place then v
      else v.(place := v.place - {p}, free := v.free + [v.place[p]], past := Forget(v.past, v.place[p]))
  }

  /** The frame for a page that is brought in: the first free one, else the one the access history gives up. */
  ghost predicate IsNext(v: Ledger, f: int) {
    if v.free != [] then f == v.free[0] else IsVictim(v.past, f)
  }

  /** The answer the ledger asks for; when there is none to give is the store's business (`AnswerOk`). */
  ghost predicate Decided(v: Ledger, cap: nat, op: Op, a: Answer) {
    match op
    case OpNew => a.GotPage? ==> IsNext(v, a.frame)
    case OpFetch(p) => a.GotPage? ==> if p in v.place then a.frame == v.place[p] else IsNext(v, a.frame)
    case OpFlush(p) => a == Flag(p in v.place)
    case OpFlushFrame(i) => a == if i < cap then Flushed(TagOf(v, i)) else Nothing
    case _ => true
  }

  /** The pool holds what the ledger says. */
  ghost predicate Tied(s: PoolSt, v: Ledger) {
    && s.table == v.place && s.free == v.free && s.disk == v.disk && Sim(s.repl, v.past)
    && (forall f :: InPool(s, f) ==> FrameTied(s, v, f))
  }

  ghost predicate FrameTied(s: PoolSt, v: Ledger, f: int)
    requires InPool(s, f)
  {
    && s.frames[f].pageId == TagOf(v, f) && (s.frames[f].dirty <==> f in v.dirty)
    && (f in s.free ==> s.frames[f].data == Zero())
  }

  // ---------------------------------------------------------------- bringing a page in

  lemma NextIsNext(s: PoolSt, v: Ledger)
    requires Tied(s, v) && NextFrame(s).Some?
    ensures IsNext(v, NextFrame(s).value)
  {
    VictimSim(s.repl, v.past);
  }

  lemma HoldingIsData(s: PoolSt, c: Client, v: Ledger, f: int)
    requires Rel(s, c) && Tied(s, v) && InPool(s, f)
    ensures Holding(v, c, f) == s.frames[f].data
  {
    assert FrameTied(s, v, f) && FrameOk(s, f);
    assert PageRel(s, c, s.frames[f].pageId);
  }

  lemma TakenPast(s: PoolSt, v: Ledger)
    requires Inv(s) && Tied(s, v) && NextFrame(s).Some?
    ensures Sim(Taken(s).repl, Forget(v.past, NextFrame(s).value))
  {
    var f := NextFrame(s).value;
    if s.free != [] {
      assert InPool(s, f) && FrameOk(s, f);
      assert v.past.past - {f} == v.past.past;
    } else {
      VictimSim(s.repl, v.past);
      ChoiceSpec(s.repl);
      DropSim(s.repl, v.past, f);
    }
  }

  lemma HeldSim(r: Lru, h: History, f: int)
    requires Sim(r, h)
    ensures Sim(Marked(Accessed(r, f), f, false), Held(h, f))
  {
    AccessSim(r, h, f);
    MarkSim(Accessed(r, f), Touch(h, f), f, false);
  }

  /** What recycling the next frame and moving page `p` in leaves in the pool. */
  lemma MovedFields(s: PoolSt, p: int, data: Bytes, next: int)
    requires NextFrame(s).Some? && InPool(Taken(s), NextFrame(s).value)
    ensures var f := NextFrame(s).value;
            var s' := Installed(Recycled(Taken(s), f).(next := next), f, p, data);
            && InPool(Recycled(Taken(s), f), f) && InPool(s, f) && |s'.frames| == |s.frames|
            && s'.table == (s.table - {s.frames[f].pageId})[p := f]
            && s'.free == (if s.free == [] then [] else s.free[1..])
            && s'.repl == Marked(Accessed(Taken(s).repl, f), f, false)
            && s'.disk == (if s.frames[f].dirty then s.disk[s.frames[f].pageId := s.frames[f].data] else s.disk)
            && s'.frames[f].pageId == p && !s'.frames[f].dirty
            && forall g :: InPool(s, g) && g != f ==> s'.frames[g] == s.frames[g]
  {
    hide Marked, Accessed, Evicted;
  }

  /** The pool after that holds what the ledger says. */
  lemma MoveInTied(s: PoolSt, c: Client, v: Ledger, p: int, data: Bytes, next: int)
    requires Rel(s, c) && Tied(s, v) && NextFrame(s).Some? && InPool(Taken(s), NextFrame(s).value)
    ensures var f := NextFrame(s).value;
            Tied(Installed(Recycled(Taken(s), f).(next := next), f, p, data), MovedIn(v, c, p, f))
  {
    hide Sim, Books, Rel, Held, Installed, Recycled, Taken, Marked, Accessed, Holding, Forget;
    var f := NextFrame(s).value;
    MovedFields(s, p, data, next);
    var s', v' := Installed(Recycled(Taken(s), f).(next := next), f, p, data), MovedIn(v, c, p, f);
    assert FrameTied(s, v, f);
    HoldingIsData(s, c, v, f);
    assert Inv(s) by { RelInv(s, c); }
    TakenPast(s, v);
    HeldSim(Taken(s).repl, Forget(v.past, f), f);
    NotFreeAgain(s);
    TakenFree(s);
    forall g | InPool(s', g) ensures FrameTied(s', v', g) {
      assert FrameTied(s, v, g);
    }
  }

  lemma TakenFree(s: PoolSt)
    requires NextFrame(s).Some?
    ensures Taken(s).free == if s.free == [] then [] else s.free[1..]
  {
  }

  lemma RelInv(s: PoolSt, c: Client)
    requires Rel(s, c)
    ensures Inv(s)
  {
  }

  lemma NotFreeAgain(s: PoolSt)
    requires Inv(s) && NextFrame(s).Some?
    ensures NextFrame(s).value !in Taken(s).free
  {
    if s.free != [] {
      assert s.free == [s.free[0]] + s.free[1..];
    }
  }

  // ---------------------------------------------------------------- one operation

  lemma NewTied(s: PoolSt, c: Client, v: Ledger)
    requires Rel(s, c) && Tied(s, v)
    ensures var (s', a) := PoolRuns.Step(s, OpNew);
            Tied(s', Noted(v, c, OpNew, a)) && Decided(v, |s.frames|, OpNew, a)
  {
    hide Tied, Books, Pages, Recycled, Installed, Taken, MovedIn;
    if NextFrame(s).Some? {
      TakeOpensHole(s);
      NewShape(s);
      NextIsNext(s, v);
      MoveInTied(s, c, v, Recycled(Taken(s), NextFrame(s).value).next, Zero(),
                 Recycled(Taken(s), NextFrame(s).value).next + 1);
      RecycledNext(s);
    }
  }

  lemma RecycledNext(s: PoolSt)
    requires NextFrame(s).Some? && InPool(Taken(s), NextFrame(s).value)
    ensures Recycled(Taken(s), NextFrame(s).value).next == s.next
  {
  }

  lemma FetchTied(s: PoolSt, c: Client, v: Ledger, p: int)
    requires Rel(s, c) && Tied(s, v)
    ensures var (s', a) := PoolRuns.Step(s, OpFetch(p));
            Tied(s', Noted(v, c, OpFetch(p), a)) && Decided(v, |s.frames|, OpFetch(p), a)
  {
    if p in s.table {
      HitTied(s, c, v, p);
    } else if NextFrame(s).Some? {
      hide Tied, Books, Pages, Recycled, Installed, Taken, MovedIn;
      var f := NextFrame(s).value;
      assert Inv(s) by { RelInv(s, c); }
      TakeOpensHole(s);
      NextIsNext(s, v);
      SamePlace(s, v);
      var s2 := Recycled(Taken(s), f);
      MoveInTied(s, c, v, p, DiskRead(s2.disk, p), s2.next);
      assert s2.(next := s2.next) == s2;
    }
  }

  lemma SamePlace(s: PoolSt, v: Ledger)
    requires Tied(s, v)
    ensures s.table == v.place
  {
  }

  lemma HitTied(s: PoolSt, c: Client, v: Ledger, p: int)
    requires Rel(s, c) && Tied(s, v) && p in s.table
    ensures PoolRuns.Step(s, OpFetch(p)).1 == GotPage(p, s.table[p])
    ensures Tied(PoolRuns.Step(s, OpFetch(p)).0, v.(past := Held(v.past, v.place[p])))
  {
    hide Sim, Held, Marked, Accessed;
    assert PageOk(s, p);
    var f, s' := s.table[p], Fetch(s, p).0;
    HeldSim(s.repl, v.past, f);
    forall g | InPool(s', g) ensures FrameTied(s', v.(past := Held(v.past, v.place[p])), g) {
      assert FrameTied(s, v, g) && FrameOk(s, g);
    }
  }

  lemma UnpinTied(s: PoolSt, c: Client, v: Ledger, p: int, dirty: bool)
    requires Rel(s, c) && Tied(s, v)
    ensures Tied(Unpin(s, p, dirty).0, Noted(v, c, OpUnpin(p, dirty), Flag(Unpin(s, p, dirty).1)))
  {
    hide Sim, Remark, Marked;
    assert PageRel(s, c, p);
    var s', v' := Unpin(s, p, dirty).0, Noted(v, c, OpUnpin(p, dirty), Flag(Unpin(s, p, dirty).1));
    if p in s.table && c.pins[p] > 0 {
      assert PageOk(s, p) && FrameOk(s, s.table[p]);
      MarkSim(s.repl, v.past, s.table[p], true);
      forall g | InPool(s', g) ensures FrameTied(s', v', g) {
        assert FrameTied(s, v, g);
      }
    }
  }

  lemma FlushTied(s: PoolSt, c: Client, v: Ledger, p: int)
    requires Rel(s, c) && Tied(s, v)
    ensures Tied(Flush(s, p).0, FlushedOne(v, c, p)) && (Flush(s, p).1 <==> p in v.place)
  {
    hide Sim;
    FlushSpec(s, p);
    assert PageRel(s, c, p);
    var s', v' := Flush(s, p).0, FlushedOne(v, c, p);
    if p in s.table {
      forall g | InPool(s', g) ensures FrameTied(s', v', g) {
        assert FrameTied(s, v, g);
      }
    }
  }

  lemma ResidentStore(s: PoolSt, c: Client)
    requires Rel(s, c)
    ensures ResidentFrom(s, 0) == map p | p in s.table && p in c.store :: c.store[p]
  {
    forall p | p in s.table ensures p in c.store && InPool(s, s.table[p]) && s.frames[s.table[p]].data == c.store[p] {
      assert PageRel(s, c, p);
    }
    hide Rel;
  }

  lemma FlushAllTied(s: PoolSt, c: Client, v: Ledger)
    requires Rel(s, c) && Tied(s, v)
    ensures Tied(FlushFrom(s, 0), Noted(v, c, OpFlushAll, Nothing))
  {
    hide Sim, Rel, ResidentFrom, FlushFrom;
    FlushFromWrites(s, 0) by { RelInv(s, c); }
    ResidentStore(s, c);
    var s', v' := FlushFrom(s, 0), Noted(v, c, OpFlushAll, Nothing);
    forall g | InPool(s', g) ensures FrameTied(s', v', g) {
      assert FrameTied(s, v, g);
    }
  }

  lemma DeleteTied(s: PoolSt, c: Client, v: Ledger, p: int)
    requires Rel(s, c) && Tied(s, v)
    ensures Tied(Delete(s, p).0, Noted(v, c, OpDelete(p), Flag(Delete(s, p).1)))
  {
    hide Sim;
    assert PageRel(s, c, p);
    var s', v' := Delete(s, p).0, Noted(v, c, OpDelete(p), Flag(Delete(s, p).1));
    if p in s.table && c.pins[p] == 0 {
      assert PageOk(s, p) && FrameOk(s, s.table[p]);
      DropSim(s.repl, v.past, s.table[p]);
      forall g | InPool(s', g) ensures FrameTied(s', v', g) {
        assert FrameTied(s, v, g);
      }
    }
  }

  lemma WriteTied(s: PoolSt, c: Client, v: Ledger, p: int, data: Bytes)
    requires Rel(s, c) && Tied(s, v)
    ensures Tied(Write(s, p, data), v)
  {
    hide Sim;
    if Home(s, p).Some? {
      assert PageOk(s, p) && FrameOk(s, s.table[p]);
      forall g | InPool(Write(s, p, data), g) ensures FrameTied(Write(s, p, data), v, g) {
        assert FrameTied(s, v, g);
      }
    }
  }

  /** One operation: the pool still holds what the ledger says, and its answer is the one the ledger asks for. */
  lemma StepTied(s: PoolSt, c: Client, v: Ledger, op: Op)
    requires Rel(s, c) && Tied(s, v)
    ensures var (s', a) := PoolRuns.Step(s, op);
            Tied(s', Noted(v, c, op, a)) && Decided(v, |s.frames|, op, a)
  {
    match op
    case OpNew => NewTied(s, c, v);
    case OpFetch(p) => FetchTied(s, c, v, p);
    case OpWrite(p, data) => WriteTied(s, c, v, p, data);
    case OpUnpin(p, dirty) => UnpinTied(s, c, v, p, dirty);
    case OpFlush(p) => FlushTied(s, c, v, p);
    case OpFlushAll => FlushAllTied(s, c, v);
    case OpFlushFrame(i) =>
      if i < |s.frames| {
        assert FrameTied(s, v, i);
        FlushTied(s, c, v, s.frames[i].pageId);
      }
    case OpDelete(p) => DeleteTied(s, c, v, p);
  }

  // ---------------------------------------------------------------- whole runs

  /** The ledger after a run. */
  function Ledgered(v: Ledger, c: Client, ops: seq<Op>, answers: seq<Answer>): Ledger
    requires |ops| == |answers|
    decreases |ops|
  {
    if ops == [] then v
    else Ledgered(Noted(v, c, ops[0], answers[0]), Seen(c, ops[0], answers[0]), ops[1..], answers[1..])
  }

  /** Every answer of the run is the one the ledger asks for where it was given. */
  ghost predicate AllDecided(v: Ledger, c: Client, cap: nat, ops: seq<Op>, answers: seq<Answer>)
    requires |ops| == |answers|
    decreases |ops|
  {
    ops != [] ==>
      && Decided(v, cap, ops[0], answers[0])
      && AllDecided(Noted(v, c, ops[0], answers[0]), Seen(c, ops[0], answers[0]), cap, ops[1..], answers[1..])
  }

  /** In every run that keeps the client contract each answer is the one the ledger asks for: with no free frame, New
      and a fetch that misses take the frame the access history gives up; and frames, page table, free list, replacer
      and disk are in the end what the ledger says. */
  lemma {:induction false} RunFollowsLedger(s: PoolSt, c: Client, v: Ledger, ops: seq<Op>)
    requires Rel(s, c) && Tied(s, v) && |PoolRuns.Run(s, ops).1| == |ops| && Obeys(c, ops, PoolRuns.Run(s, ops).1)
    ensures Tied(PoolRuns.Run(s, ops).0, Ledgered(v, c, ops, PoolRuns.Run(s, ops).1))
    ensures AllDecided(v, c, |s.frames|, ops, PoolRuns.Run(s, ops).1)
    decreases |ops|
  {
    if ops != [] {
      hide Rel, Tied, PoolRuns.Step, Seen, Noted, Decided, Allowed;
      var (s1, a) := PoolRuns.Step(s, ops[0]);
      assert PoolRuns.Run(s, ops).1[1..] == PoolRuns.Run(s1, ops[1..]).1;
      StepRel(s, c, ops[0]);
      StepTied(s, c, v, ops[0]);
      RunFollowsLedger(s1, Seen(c, ops[0], a), Noted(v, c, ops[0], a), ops[1..]);
    }
  }

  function Blank(n: nat, k: nat): Ledger {
    Ledger(map[], AllFrames(n), History(k, 0, map[]), map[], {}, map[])
  }

  lemma StartTied(n: nat, k: nat)
    requires k >= 1
    ensures Tied(Pool.Start(n, k), Blank(n, k))
  {
    StartSim(k, n);
  }

  /** The ledger and the client's view leave nothing open: two pools they both describe have the same frames, page
      table, free list, disk and next id. */
  lemma LedgerDecidesPool(s: PoolSt, t: PoolSt, c: Client, v: Ledger)
    requires Rel(s, c) && Rel(t, c) && Tied(s, v) && Tied(t, v) && |s.frames| == |t.frames|
    ensures s.frames == t.frames && s.table == t.table && s.free == t.free && s.disk == t.disk && s.next == t.next
  {
    hide Sim;
    forall f | InPool(s, f) ensures s.frames[f] == t.frames[f] {
      FrameIs(s, c, v, f);
      FrameIs(t, c, v, f);
    }
  }

  lemma FrameIs(s: PoolSt, c: Client, v: Ledger, f: int)
    requires Rel(s, c) && Tied(s, v) && InPool(s, f)
    ensures s.frames[f] == FrameSt(TagOf(v, f), if HasPage(v, f) then c.pins[TagOf(v, f)] else 0, f in v.dirty,
                                   Holding(v, c, f))
  {
    hide Sim;
    assert FrameTied(s, v, f) && FrameOk(s, f);
    assert PageRel(s, c, s.frames[f].pageId);
    HoldingIsData(s, c, v, f);
  }
}

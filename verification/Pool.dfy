/** The buffer pool as a value, one function per operation.  The class in BufferPool.dfy is proved
    to compute exactly these functions; here they are proved to keep every frame accounted for. */
module Pool {
  import opened Common
  import opened LruK

  type Bytes = seq<bv8>

  const PAGE_SIZE := 4096
  const INVALID_PAGE_ID := -1

  /** A zeroed page. */
  function Zero(): Bytes {
    seq(PAGE_SIZE, _ => 0)
  }

  /** What a frame (the source's `Page` object) holds. */
  datatype FrameSt = FrameSt(pageId: int, pin: int, dirty: bool, data: Bytes)

  datatype PoolSt = PoolSt(frames: seq<FrameSt>, table: map<int, int>, free: seq<int>, repl: Lru, next: int,
                           disk: map<int, Bytes>)

  /** Reading a page that was never written leaves the zeroed frame as it is. */
  function DiskRead(disk: map<int, Bytes>, p: int): Bytes {
    if p in disk then disk[p] else Zero()
  }

  function EmptyFrames(n: nat): seq<FrameSt> {
    seq(n, _ => FrameSt(INVALID_PAGE_ID, 0, false, Zero()))
  }

  function AllFrames(n: nat): seq<int> {
    seq(n, i => i)
  }

  function Start(n: nat, k: nat): PoolSt {
    PoolSt(EmptyFrames(n), map[], AllFrames(n), LruK.Start(k, n), 0, map[])
  }

  // ---------------------------------------------------------------- operations

  /** The frame the next page will go to: the free list's front, else the replacer's victim. */
  function NextFrame(s: PoolSt): Option<int> {
    if s.free != [] then Some(s.free[0]) else Choice(s.repl)
  }

  function Taken(s: PoolSt): PoolSt {
    if s.free != [] then s.(free := s.free[1..]) else s.(repl := Evicted(s.repl))
  }

  predicate InPool(s: PoolSt, f: int) {
    0 <= f < |s.frames|
  }

  function WithFrame(s: PoolSt, f: int, fr: FrameSt): PoolSt
    requires InPool(s, f)
  {
    s.(frames := s.frames[f := fr])
  }

  /** The frame's old page is written back if dirty, unmapped, and its memory zeroed. */
  function Recycled(s: PoolSt, f: int): PoolSt
    requires InPool(s, f)
  {
    var fr := s.frames[f];
    var disk := if fr.dirty then s.disk[fr.pageId := fr.data] else s.disk;
    WithFrame(s, f, fr.(dirty := false, data := Zero())).(disk := disk, table := s.table - {fr.pageId})
  }

  function Pinned(s: PoolSt, f: int): PoolSt {
    s.(repl := Marked(Accessed(s.repl, f), f, false))
  }

  /** Page `p` moves into frame `f` with one pin. */
  function Installed(s: PoolSt, f: int, p: int, data: Bytes): PoolSt
    requires InPool(s, f)
  {
    var fr := FrameSt(p, 1, s.frames[f].dirty, data);
    Pinned(WithFrame(s, f, fr).(table := s.table[p := f]), f)
  }

  /** NewPgImp: the id of the new page and its frame, or nothing when every frame is pinned. */
  function New(s: PoolSt): (PoolSt, Option<(int, int)>) {
    match NextFrame(s)
    case None => (s, None)
    case Some(f) =>
      var s1 := Taken(s);
      if !InPool(s1, f) then (s, None) else
      (Installed(Recycled(s1.(next := s.next + 1), f), f, s.next, Zero()), Some((s.next, f)))
  }

  function Fetch(s: PoolSt, p: int): (PoolSt, Option<int>) {
    if p in s.table then
      var f := s.table[p];
      if !InPool(s, f) then (s, None) else
      (Pinned(WithFrame(s, f, s.frames[f].(pin := s.frames[f].pin + 1)), f), Some(f))
    else
      match NextFrame(s)
      case None => (s, None)
      case Some(f) =>
        var s1 := Taken(s);
        if !InPool(s1, f) then (s, None) else
        var s2 := Recycled(s1, f);
        (Installed(s2, f, p, DiskRead(s2.disk, p)), Some(f))
  }

  /** The frame that holds page `p`, when it is resident. */
  function Home(s: PoolSt, p: int): Option<int> {
    if p in s.table && InPool(s, s.table[p]) then Some(s.table[p]) else None
  }

  function Target(s: PoolSt, p: int): Option<int> {
    if p == INVALID_PAGE_ID then None else Home(s, p)
  }

  function Unpin(s: PoolSt, p: int, dirty: bool): (PoolSt, bool) {
    match Target(s, p)
    case None => (s, false)
    case Some(f) =>
      var fr := s.frames[f];
      if fr.pin == 0 then (s, false) else
      var repl := if fr.pin == 1 then Marked(s.repl, f, true) else s.repl;
      (WithFrame(s, f, fr.(pin := fr.pin - 1, dirty := fr.dirty || dirty)).(repl := repl), true)
  }

  function Flush(s: PoolSt, p: int): (PoolSt, bool) {
    match Target(s, p)
    case None => (s, false)
    case Some(f) =>
      (WithFrame(s, f, s.frames[f].(dirty := false)).(disk := s.disk[p := s.frames[f].data]), true)
  }

  /** Flushes frames `i`, `i + 1`, ... in turn. */
  function FlushFrom(s: PoolSt, i: nat): PoolSt
    decreases |s.frames| - i
  {
    if i >= |s.frames| then s else FlushFrom(Flush(s, s.frames[i].pageId).0, i + 1)
  }

  function Untracked(s: PoolSt, f: int): PoolSt {
    if f in s.repl.recs && s.repl.recs[f].evictable then s.(repl := Dropped(s.repl, f)) else s
  }

  function Released(s: PoolSt, p: int, f: int): PoolSt {
    Untracked(s, f).(table := s.table - {p}, free := s.free + [f])
  }

  /** DeletePgImp zeroes the frame's data only: its page id and dirty flag stay behind. */
  function Delete(s: PoolSt, p: int): (PoolSt, bool) {
    match Target(s, p)
    case None => (s, true)
    case Some(f) =>
      if s.frames[f].pin > 0 then (s, false) else
      (Released(WithFrame(s, f, s.frames[f].(data := Zero())), p, f), true)
  }

  /** A client writes into a page it holds; not an operation of the pool. */
  function Write(s: PoolSt, p: int, data: Bytes): PoolSt {
    match Home(s, p)
    case None => s
    case Some(f) => WithFrame(s, f, s.frames[f].(data := data))
  }

  // ---------------------------------------------------------------- accounting

  predicate Resident(s: PoolSt, f: int)
    requires InPool(s, f)
  {
    s.frames[f].pageId in s.table && s.table[s.frames[f].pageId] == f
  }

  ghost predicate ReplOk(r: Lru) {
    && Sized(r) && Lists(r) && TracksInRange(r)
    && (forall f :: f in r.recs ==> r.recs[f].cnt >= 1)
  }

  ghost predicate PageOk(s: PoolSt, p: int)
    requires p in s.table
  {
    0 <= p < s.next && InPool(s, s.table[p]) && s.frames[s.table[p]].pageId == p
  }

  /** A frame is either free, with an id that is not mapped any more and no pins, or it holds a
      mapped page, is tracked by the replacer, and is evictable exactly when unpinned. */
  ghost predicate FrameOk(s: PoolSt, f: int)
    requires InPool(s, f)
  {
    var fr := s.frames[f];
    && fr.pin >= 0
    && (f in s.free <==> !Resident(s, f))
    && (f in s.repl.recs <==> Resident(s, f))
    && (f in s.repl.recs ==> (s.repl.recs[f].evictable <==> fr.pin == 0))
    && (f in s.free ==> fr.pin == 0 && fr.pageId !in s.table && INVALID_PAGE_ID <= fr.pageId < s.next)
  }

  /** The accounting invariant, with frame `hole` (if any) temporarily out of the books. */
  ghost predicate Books(s: PoolSt, hole: Option<int>) {
    && s.repl.cap == |s.frames| && s.next >= 0
    && ReplOk(s.repl)
    && NoDup(s.free) && (forall i :: 0 <= i < |s.free| ==> InPool(s, s.free[i]))
    && (forall p :: p in s.table ==> PageOk(s, p))
    && (forall f :: InPool(s, f) && Some(f) != hole ==> FrameOk(s, f))
    && (hole.Some? ==>
          && InPool(s, hole.value) && hole.value !in s.free && hole.value !in s.repl.recs
          && s.frames[hole.value].pageId !in s.table)
  }

  ghost predicate Inv(s: PoolSt) {
    Books(s, None)
  }

  // ---------------------------------------------------------------- replacer facts

  /** Lists and sizes alone fix when a victim exists. */
  lemma ChoiceSpec(r: Lru)
    requires Sized(r) && Lists(r)
    ensures Choice(r).None? <==> forall f :: f in r.recs ==> !r.recs[f].evictable
    ensures Choice(r).Some? ==> Choice(r).value in r.recs && r.recs[Choice(r).value].evictable
  {
    LastEvictableSpec(r.hist, r.recs);
    LastEvictableSpec(r.lru, r.recs);
    forall f | f in r.recs && r.recs[f].evictable ensures Choice(r).Some? {
      assert f in Evictable(r.recs);
      assert f in r.hist || f in r.lru;
    }
  }

  lemma DropRepl(r: Lru, f: int)
    requires ReplOk(r) && f in r.recs && r.recs[f].evictable
    ensures ReplOk(Dropped(r, f))
  {
    DropSized(r, f);
    DropListsSim(r, f);
  }

  lemma MarkRepl(r: Lru, f: int, evictable: bool)
    requires ReplOk(r)
    ensures ReplOk(Marked(r, f, evictable))
  {
    MarkSized(r, f, evictable);
  }

  lemma AccessRepl(r: Lru, f: int)
    requires ReplOk(r) && 0 <= f < r.cap
    ensures ReplOk(Accessed(r, f)) && Accessed(r, f).recs.Keys == r.recs.Keys + {f}
    ensures Fits(r, f)
  {
    AccessSized(r, f);
    AccessLists(r, f);
    InRangeFits(r, f);
  }

  /** Pinning a frame: one more access, not evictable; other records as they were. */
  lemma PinRepl(r: Lru, f: int)
    requires ReplOk(r) && 0 <= f < r.cap
    ensures var r' := Marked(Accessed(r, f), f, false);
            && ReplOk(r') && r'.cap == r.cap && r'.recs.Keys == r.recs.Keys + {f}
            && !r'.recs[f].evictable
            && (forall g :: g in r.recs && g != f ==> r'.recs[g] == r.recs[g])
  {
    AccessRepl(r, f);
    MarkRepl(Accessed(r, f), f, false);
  }

  // ---------------------------------------------------------------- every operation keeps the books

  /** Taking a frame off the free list or evicting it, then recycling it, leaves exactly that
      frame out of the books; nothing else moves. */
  lemma TakeFree(s: PoolSt)
    requires Inv(s) && s.free != []
    ensures Books(Recycled(Taken(s), s.free[0]), Some(s.free[0]))
  {
    var f := s.free[0];
    var s1 := Taken(s);
    var s2 := Recycled(s1, f);
    assert FrameOk(s, f);
    assert s2.table == s.table;
    assert s.free == [f] + s1.free;
    forall g | InPool(s2, g) && g != f ensures FrameOk(s2, g) { assert FrameOk(s, g); }
    forall p | p in s2.table ensures PageOk(s2, p) { assert PageOk(s, p); }
  }

  lemma TakeVictim(s: PoolSt)
    requires Inv(s) && s.free == [] && Choice(s.repl).Some?
    ensures InPool(s, Choice(s.repl).value)
    ensures Books(Recycled(Taken(s), Choice(s.repl).value), Some(Choice(s.repl).value))
  {
    ChoiceSpec(s.repl);
    var f := Choice(s.repl).value;
    DropRepl(s.repl, f);
    assert FrameOk(s, f);
    var s2 := Recycled(Taken(s), f);
    forall g | InPool(s2, g) && g != f ensures FrameOk(s2, g) {
      assert FrameOk(s, g);
      if g in s.repl.recs { assert PageOk(s, s.frames[g].pageId); }
    }
    forall p | p in s2.table ensures PageOk(s2, p) { assert PageOk(s, p); }
  }

  /** A page that no frame and no stale id refers to can move into the hole. */
  lemma InstallKeepsBooks(s: PoolSt, f: int, p: int, data: Bytes)
    requires Books(s, Some(f)) && p !in s.table && 0 <= p < s.next
    requires forall g :: g in s.free ==> s.frames[g].pageId != p
    ensures Inv(Installed(s, f, p, data))
  {
    PinRepl(s.repl, f);
    var s' := Installed(s, f, p, data);
    forall g | InPool(s', g) ensures FrameOk(s', g) {
      if g != f { assert FrameOk(s, g); }
    }
    forall q | q in s'.table ensures PageOk(s', q) {
      if q != p { assert PageOk(s, q); }
    }
  }

  /** The frame taken for a new resident is in the pool, and recycling it opens a hole there. */
  lemma TakeOpensHole(s: PoolSt)
    requires Inv(s) && NextFrame(s).Some?
    ensures InPool(Taken(s), NextFrame(s).value)
    ensures Books(Recycled(Taken(s), NextFrame(s).value), Some(NextFrame(s).value))
  {
    if s.free != [] { TakeFree(s); } else { TakeVictim(s); }
  }

  lemma NextKeepsBooks(s: PoolSt, hole: Option<int>)
    requires Books(s, hole)
    ensures Books(s.(next := s.next + 1), hole)
  {
    var s' := s.(next := s.next + 1);
    forall f | InPool(s', f) && Some(f) != hole ensures FrameOk(s', f) { assert FrameOk(s, f); }
    forall p | p in s'.table ensures PageOk(s', p) { assert PageOk(s, p); }
  }

  /** The next page id is new to the page table and to every frame. */
  lemma NextIsFresh(s: PoolSt, hole: Option<int>)
    requires Books(s, hole)
    ensures s.next !in s.table
    ensures forall g :: g in s.free && Some(g) != hole ==> s.frames[g].pageId != s.next
  {
    forall g | g in s.free && Some(g) != hole ensures s.frames[g].pageId != s.next {
      assert FrameOk(s, g);
    }
  }

  lemma InstallNext(s: PoolSt, f: int, data: Bytes)
    requires Books(s, Some(f))
    ensures Inv(Installed(s.(next := s.next + 1), f, s.next, data))
  {
    NextKeepsBooks(s, Some(f));
    NextIsFresh(s, Some(f));
    InstallKeepsBooks(s.(next := s.next + 1), f, s.next, data);
  }

  /** New, spelled out when a frame is to be had. */
  lemma NewShape(s: PoolSt)
    requires NextFrame(s).Some? && InPool(Taken(s), NextFrame(s).value)
    ensures var f := NextFrame(s).value;
            var s1 := Recycled(Taken(s), f);
            New(s) == (Installed(s1.(next := s1.next + 1), f, s1.next, Zero()), Some((s.next, f)))
  {
    var f := NextFrame(s).value;
    assert Recycled(Taken(s).(next := s.next + 1), f) == Recycled(Taken(s), f).(next := s.next + 1);
  }

  lemma NewInv(s: PoolSt)
    requires Inv(s)
    ensures Inv(New(s).0)
    ensures New(s).1.None? <==> NextFrame(s).None?
    ensures New(s).1.Some? ==> New(s).1.value == (s.next, NextFrame(s).value) && s.next !in s.table
  {
    hide Books, Recycled, Taken, Installed;
    assert s.next !in s.table by { NextIsFresh(s, None); }
    if NextFrame(s).Some? {
      TakeOpensHole(s);
      NewShape(s);
      NewKeepsBooks(s);
    }
  }

  lemma NewKeepsBooks(s: PoolSt)
    requires Inv(s) && NextFrame(s).Some?
    ensures Inv(New(s).0)
  {
    hide *;
    TakeOpensHole(s);
    NewShape(s);
    InstallNext(Recycled(Taken(s), NextFrame(s).value), NextFrame(s).value, Zero());
  }

  /** What the caller of Fetch must ensure: the id was handed out, and no frame still on the free
      list after this call carries it from an earlier life. */
  ghost predicate FetchSafe(s: PoolSt, p: int) {
    0 <= p < s.next && forall g :: g in Taken(s).free && InPool(s, g) ==> s.frames[g].pageId != p
  }

  lemma FetchHitInv(s: PoolSt, p: int)
    requires Inv(s) && p in s.table
    ensures Inv(Fetch(s, p).0) && Fetch(s, p).1 == Some(s.table[p])
  {
    assert PageOk(s, p);
    var f := s.table[p];
    assert FrameOk(s, f);
    PinRepl(s.repl, f);
    var s' := Fetch(s, p).0;
    forall g | InPool(s', g) ensures FrameOk(s', g) { assert FrameOk(s, g); }
    forall q | q in s'.table ensures PageOk(s', q) { assert PageOk(s, q); }
  }

  /** A fetch that has to bring the page in keeps the books exactly when it is safe: fetching an id
      that was never handed out, or one still remembered by a freed frame, corrupts them. */
  lemma FetchMissInv(s: PoolSt, p: int)
    requires Inv(s) && p !in s.table && NextFrame(s).Some?
    ensures Inv(Fetch(s, p).0) <==> FetchSafe(s, p)
    ensures Fetch(s, p).1 == NextFrame(s)
  {
    var f := NextFrame(s).value;
    TakeOpensHole(s);
    var s2 := Recycled(Taken(s), f);
    var data := DiskRead(s2.disk, p);
    var s' := Fetch(s, p).0;
    assert s' == Installed(s2, f, p, data);
    assert forall g :: g in s2.free ==> InPool(s, g) && s2.frames[g] == s.frames[g];
    hide Fetch;
    if FetchSafe(s, p) {
      InstallKeepsBooks(s2, f, p, data);
    } else if 0 <= p < s.next {
      var g :| g in Taken(s).free && InPool(s, g) && s.frames[g].pageId == p;
      assert g in s'.free && s'.frames[g].pageId == p && !FrameOk(s', g);
    } else {
      assert p in s'.table && !PageOk(s', p);
    }
  }

  lemma UnpinInv(s: PoolSt, p: int, dirty: bool)
    requires Inv(s)
    ensures Inv(Unpin(s, p, dirty).0)
  {
    if Target(s, p).Some? {
      var f := s.table[p];
      var s' := Unpin(s, p, dirty).0;
      assert PageOk(s, p) && FrameOk(s, f);
      MarkRepl(s.repl, f, true);
      forall g | InPool(s', g) ensures FrameOk(s', g) { assert FrameOk(s, g); }
      forall q | q in s'.table ensures PageOk(s', q) { assert PageOk(s, q); }
    }
  }

  /** Changing a frame's data or dirty flag touches no book. */
  lemma DataInv(s: PoolSt, f: int, dirty: bool, data: Bytes, disk: map<int, Bytes>)
    requires Inv(s) && InPool(s, f)
    ensures Inv(WithFrame(s, f, s.frames[f].(dirty := dirty, data := data)).(disk := disk))
  {
    var s' := WithFrame(s, f, s.frames[f].(dirty := dirty, data := data)).(disk := disk);
    forall g | InPool(s', g) ensures FrameOk(s', g) { assert FrameOk(s, g); }
    forall q | q in s'.table ensures PageOk(s', q) { assert PageOk(s, q); }
  }

  lemma FlushInv(s: PoolSt, p: int)
    requires Inv(s)
    ensures Inv(Flush(s, p).0)
  {
    if Target(s, p).Some? {
      var f := s.table[p];
      DataInv(s, f, false, s.frames[f].data, s.disk[p := s.frames[f].data]);
    }
  }

  /** Flush answers true exactly for a resident page, pinned or not.  The disk then has the frame's data, the frame is
      clean, and nothing else has changed. */
  lemma FlushSpec(s: PoolSt, p: int)
    requires Inv(s)
    ensures Flush(s, p).1 <==> p in s.table
    ensures p !in s.table ==> Flush(s, p).0 == s
    ensures p in s.table ==>
              var s', f := Flush(s, p).0, s.table[p];
              && InPool(s, f) && |s'.frames| == |s.frames|
              && DiskRead(s'.disk, p) == s.frames[f].data
              && (forall q :: q != p ==> (q in s'.disk <==> q in s.disk) && DiskRead(s'.disk, q) == DiskRead(s.disk, q))
              && !s'.frames[f].dirty && s'.frames[f] == s.frames[f].(dirty := false)
              && (forall g :: InPool(s, g) && g != f ==> s'.frames[g] == s.frames[g])
              && s'.table == s.table && s'.free == s.free && s'.repl == s.repl && s'.next == s.next
  {
    if p in s.table {
      assert PageOk(s, p);
    }
  }

  /** The data of the resident pages in frame `i` and behind. */
  ghost function ResidentFrom(s: PoolSt, i: nat): map<int, Bytes> {
    map p | p in s.table && InPool(s, s.table[p]) && s.table[p] >= i :: s.frames[s.table[p]].data
  }

  /** `s'` is `s` with the resident pages of the frames from `i` on written out. */
  ghost predicate WrittenOut(s: PoolSt, i: nat, s': PoolSt) {
    && s'.disk == s.disk + ResidentFrom(s, i)
    && |s'.frames| == |s.frames|
    && (forall f :: InPool(s, f) ==>
          s'.frames[f] == if f >= i && Resident(s, f) then s.frames[f].(dirty := false) else s.frames[f])
    && s'.table == s.table && s'.free == s.free && s'.repl == s.repl && s'.next == s.next
  }

  lemma FlushFrameCleans(s: PoolSt, i: nat)
    requires Inv(s) && i < |s.frames|
    ensures var s1 := Flush(s, s.frames[i].pageId).0;
            && s1.table == s.table && s1.free == s.free && s1.repl == s.repl && s1.next == s.next
            && s1.frames == s.frames[i := if Resident(s, i) then s.frames[i].(dirty := false) else s.frames[i]]
            && s1.disk == if Resident(s, i) then s.disk[s.frames[i].pageId := s.frames[i].data] else s.disk
  {
    assert FrameOk(s, i);
    hide Books;
    if Resident(s, i) {
      assert s.frames[i].pageId != INVALID_PAGE_ID by { ResidentIsPage(s, i); }
    }
  }

  lemma ResidentIsPage(s: PoolSt, i: nat)
    requires Inv(s) && i < |s.frames| && Resident(s, i)
    ensures s.frames[i].pageId >= 0
  {
    assert PageOk(s, s.frames[i].pageId);
  }

  lemma ResidentStep(s: PoolSt, s1: PoolSt, i: nat)
    requires Inv(s) && i < |s.frames| && s1.table == s.table && |s1.frames| == |s.frames|
    requires forall f :: InPool(s, f) ==> s1.frames[f].data == s.frames[f].data
    ensures ResidentFrom(s, i) == if Resident(s, i) then ResidentFrom(s1, i + 1)[s.frames[i].pageId := s.frames[i].data]
                                  else ResidentFrom(s1, i + 1)
  {
    forall q | q in s.table ensures InPool(s, s.table[q]) && (s.table[q] == i ==> q == s.frames[i].pageId) {
      assert PageOk(s, q);
    }
    hide Books;
    var p, all, rest := s.frames[i].pageId, ResidentFrom(s, i), ResidentFrom(s1, i + 1);
    forall q ensures q in all <==> q in rest || (Resident(s, i) && q == p) {
      assert q in all <==> q in s.table && s.table[q] >= i;
      assert q in rest <==> q in s.table && s.table[q] >= i + 1;
    }
    forall q | q in rest ensures all[q] == rest[q] {
      assert InPool(s, s.table[q]);
    }
    if Resident(s, i) {
      assert all == rest[p := s.frames[i].data];
    } else {
      assert all == rest;
    }
  }

  lemma NotBehind(s: PoolSt, i: nat, p: int)
    requires p in s.table && s.table[p] == i
    ensures p !in ResidentFrom(s, i + 1)
  {
  }

  lemma Overlay(disk: map<int, Bytes>, p: int, data: Bytes, rest: map<int, Bytes>)
    requires p !in rest
    ensures disk[p := data] + rest == disk + rest[p := data]
  {
  }

  lemma {:induction false} FlushFromWrites(s: PoolSt, i: nat)
    requires Inv(s)
    ensures WrittenOut(s, i, FlushFrom(s, i))
    decreases |s.frames| - i
  {
    if i < |s.frames| {
      hide Books, Flush, ResidentFrom;
      var p := s.frames[i].pageId;
      var s1 := Flush(s, p).0;
      FlushInv(s, p);
      FlushFrameCleans(s, i);
      FlushFromWrites(s1, i + 1);
      ResidentStep(s, s1, i);
      if Resident(s, i) {
        assert p !in ResidentFrom(s1, i + 1) by { NotBehind(s1, i, p); }
        Overlay(s.disk, p, s.frames[i].data, ResidentFrom(s1, i + 1));
      }
    } else {
      assert ResidentFrom(s, i) == map[];
    }
  }

  /** Afterwards the disk has every resident page's data and no resident frame is dirty; frames, table and free list
      hold what they held. */
  lemma FlushAllWrites(s: PoolSt)
    requires Inv(s)
    ensures var s' := FlushFrom(s, 0);
            && |s'.frames| == |s.frames|
            && (forall p :: p in s.table ==>
                  InPool(s, s.table[p]) && DiskRead(s'.disk, p) == s.frames[s.table[p]].data
                  && !s'.frames[s.table[p]].dirty)
            && (forall p :: p !in s.table ==> DiskRead(s'.disk, p) == DiskRead(s.disk, p))
            && (forall f :: InPool(s, f) ==> s'.frames[f].(dirty := false) == s.frames[f].(dirty := false))
            && s'.table == s.table && s'.free == s.free && s'.repl == s.repl && s'.next == s.next
  {
    FlushFromWrites(s, 0);
    forall p | p in s.table ensures InPool(s, s.table[p]) && Resident(s, s.table[p]) {
      assert PageOk(s, p);
    }
  }

  lemma WriteInv(s: PoolSt, p: int, data: Bytes)
    requires Inv(s)
    ensures Inv(Write(s, p, data))
  {
    if Home(s, p).Some? { DataInv(s, s.table[p], s.frames[s.table[p]].dirty, data, s.disk); }
  }

  lemma DeleteInv(s: PoolSt, p: int)
    requires Inv(s)
    ensures Inv(Delete(s, p).0)
    ensures p in s.table ==> (Delete(s, p).1 <==> s.frames[s.table[p]].pin == 0)
  {
    if p in s.table {
      assert PageOk(s, p);
      var f := s.table[p];
      assert FrameOk(s, f);
      var s' := Delete(s, p).0;
      if s.frames[f].pin == 0 {
        DropRepl(s.repl, f);
        forall g | InPool(s', g) ensures FrameOk(s', g) {
          assert FrameOk(s, g);
          if g != f && g in s.repl.recs { assert PageOk(s, s.frames[g].pageId); }
        }
        forall q | q in s'.table ensures PageOk(s', q) { assert PageOk(s, q); }
      }
    }
  }

  /** Delete refuses a pinned page and only that.  An unpinned one leaves the page table and the replacer, and its frame
      is zeroed and joins the free list's end; no other page changes, and nothing is written. */
  lemma DeleteSpec(s: PoolSt, p: int)
    requires Inv(s)
    ensures Delete(s, p).1 <==> p !in s.table || s.frames[s.table[p]].pin == 0
    ensures p !in s.table || s.frames[s.table[p]].pin != 0 ==> Delete(s, p).0 == s
    ensures p in s.table && s.frames[s.table[p]].pin == 0 ==>
              var s', f := Delete(s, p).0, s.table[p];
              && InPool(s, f) && |s'.frames| == |s.frames| && s'.frames[f].data == Zero()
              && (forall g :: InPool(s, g) && g != f ==> s'.frames[g] == s.frames[g])
              && s'.table == s.table - {p} && s'.free == s.free + [f] && f !in s'.repl.recs
              && (forall g :: g in s.repl.recs && g != f ==> g in s'.repl.recs && s'.repl.recs[g] == s.repl.recs[g])
              && s'.disk == s.disk && s'.next == s.next
  {
    if p in s.table {
      assert PageOk(s, p);
      assert FrameOk(s, s.table[p]);
    }
  }

  /** A page can be brought in exactly when some frame is not pinned. */
  lemma FrameSpec(s: PoolSt)
    requires Inv(s)
    ensures NextFrame(s).None? <==> forall f :: InPool(s, f) ==> s.frames[f].pin > 0
  {
    ChoiceSpec(s.repl);
    forall f | InPool(s, f) ensures FrameOk(s, f) { }
    if s.free != [] {
      assert FrameOk(s, s.free[0]);
    } else if Choice(s.repl).Some? {
      assert InPool(s, Choice(s.repl).value);
    }
  }

  lemma StartInv(n: nat, k: nat)
    requires k >= 1
    ensures Inv(Start(n, k))
  {
    StartSim(k, n);
    var s := Start(n, k);
    forall f | InPool(s, f) ensures FrameOk(s, f) { assert s.free[f] == f; }
  }

  // ---------------------------------------------------------------- the operations step by step

  /** A frame in the hole can be tracked again without evicting anything. */
  lemma HoleFits(s: PoolSt, f: int)
    requires Books(s, Some(f))
    ensures InPool(s, f) && Fits(s.repl, f)
  {
    AccessRepl(s.repl, f);
  }

  /** New as the statements of NewPgImp: take a frame, allocate the id, recycle, install. */
  lemma NewSteps(s: PoolSt)
    requires Inv(s) && NextFrame(s).Some?
    ensures var f := NextFrame(s).value;
            var s1 := Taken(s).(next := s.next + 1);
            && InPool(s1, f) && InPool(Recycled(s1, f), f) && Fits(Recycled(s1, f).repl, f)
            && Recycled(s1, f).frames[f].data == Zero() && Taken(s).next == s.next
            && New(s) == (Installed(Recycled(s1, f), f, s.next, Zero()), Some((s.next, f)))
            && 0 <= s.next && New(s).0.next == s.next + 1
  {
    var f := NextFrame(s).value;
    TakeOpensHole(s);
    HoleFits(Recycled(Taken(s), f), f);
    NewShape(s);
  }

  /** The disk's copy of page `p` in frame `f`'s memory. */
  function ReadIn(s: PoolSt, f: int, p: int): PoolSt
    requires InPool(s, f)
  {
    WithFrame(s, f, s.frames[f].(data := DiskRead(s.disk, p)))
  }

  /** Fetch of a page that is not resident: take a frame, recycle, read, install. */
  lemma FetchSteps(s: PoolSt, p: int)
    requires Inv(s) && NextFrame(s).Some? && p !in s.table
    ensures var f := NextFrame(s).value;
            var s1 := Taken(s);
            && InPool(s1, f) && InPool(Recycled(s1, f), f) && Fits(Recycled(s1, f).repl, f)
            && Fetch(s, p)
               == (Installed(ReadIn(Recycled(s1, f), f, p), f, p, DiskRead(Recycled(s1, f).disk, p)), Some(f))
            && Fetch(s, p).0.next == s.next
  {
    var f := NextFrame(s).value;
    TakeOpensHole(s);
    var s2 := Recycled(Taken(s), f);
    HoleFits(s2, f);
    assert ReadIn(s2, f, p).frames[f := s2.frames[f]] == s2.frames;
    assert Installed(ReadIn(s2, f, p), f, p, DiskRead(s2.disk, p)) == Installed(s2, f, p, DiskRead(s2.disk, p));
  }

  lemma HitFits(s: PoolSt, p: int)
    requires Inv(s) && p in s.table
    ensures InPool(s, s.table[p]) && Fits(s.repl, s.table[p])
  {
    assert PageOk(s, p) && FrameOk(s, s.table[p]);
  }

  lemma TargetInPool(s: PoolSt, p: int)
    requires Target(s, p).Some?
    ensures InPool(s, Target(s, p).value) && p in s.table && s.table[p] == Target(s, p).value
  {
  }
}

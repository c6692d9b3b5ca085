/** The buffer pool manager: frames, free list, page table and replacer, updated in place.  Every
    operation runs under one latch, so a run is a sequence of these methods. */
module BufferPool {
  import opened Common
  import opened LruK
  import opened PageHash
  import opened Pool
  import Directory
  import ExtendibleHash
  import Replacer

  const MAX_PAGE_ID := 0x7FFF_FFFF

  /** A frame of the pool, with the book-keeping of the page it holds. */
  class Page {
    var data: Bytes
    var pageId: int
    var pinCount: int
    var isDirty: bool

    constructor ()
      ensures data == Zero() && pageId == INVALID_PAGE_ID && pinCount == 0 && !isDirty
    {
      data, pageId, pinCount, isDirty := Zero(), INVALID_PAGE_ID, 0, false;
    }
  }

  method NewPages(n: nat) returns (ps: seq<Page>)
    ensures |ps| == n && (forall i :: 0 <= i < n ==> fresh(ps[i]))
    ensures forall i :: 0 <= i < n ==>
              ps[i].data == Zero() && ps[i].pageId == INVALID_PAGE_ID && ps[i].pinCount == 0 && !ps[i].isDirty
    ensures forall i, j :: 0 <= i < j < n ==> ps[i] != ps[j]
  {
    ps := [];
    while |ps| < n
      invariant |ps| <= n && (forall i :: 0 <= i < |ps| ==> fresh(ps[i]))
      invariant forall i :: 0 <= i < |ps| ==>
                  ps[i].data == Zero() && ps[i].pageId == INVALID_PAGE_ID && ps[i].pinCount == 0 && !ps[i].isDirty
      invariant forall i, j :: 0 <= i < j < |ps| ==> ps[i] != ps[j]
    {
      var p := new Page();
      ps := ps + [p];
    }
  }

  class BufferPoolManager {
    const pages: seq<Page>
    const pageTable: ExtendibleHash.ExtendibleHashTable<int, int>
    const replacer: Replacer.LRUKReplacer
    var freeList: seq<int>
    var nextPageId: int
    var disk: map<int, Bytes>
    ghost var state: PoolSt

    /** The three parts own disjoint objects. */
    ghost predicate Apart()
      reads this, pageTable, replacer
    {
      && this !in pageTable.Repr && this !in replacer.Repr && pageTable.Repr !! replacer.Repr
      && (forall i :: 0 <= i < |pages| ==> pages[i] !in pageTable.Repr && pages[i] !in replacer.Repr)
      && (forall i, j :: 0 <= i < j < |pages| ==> pages[i] != pages[j])
    }

    ghost predicate FramesTied()
      reads this, pages
    {
      && |pages| == |state.frames|
      && (forall i :: 0 <= i < |pages| ==>
            state.frames[i] == FrameSt(pages[i].pageId, pages[i].pinCount, pages[i].isDirty, pages[i].data))
    }

    ghost predicate TableTied()
      reads this, pageTable, pageTable.Repr
    {
      && pageTable.Valid() && pageTable.contents == state.table
      && pageTable.hash == HashInt && pageTable.bucketSize == BUCKET_SIZE && pageTable.globalDepth <= MAX_DEPTH
      && (forall p :: p in state.table ==> IsPageId(p))
    }

    ghost predicate ReplTied()
      reads this, replacer, replacer.Repr
    {
      replacer.Valid() && replacer.model == state.repl && replacer.replacerSize == |pages| == state.repl.cap
    }

    /** The fields hold `state`. */
    ghost predicate Wired()
      reads this, pages, pageTable, pageTable.Repr, replacer, replacer.Repr
    {
      && Apart() && FramesTied() && TableTied() && ReplTied()
      && freeList == state.free && nextPageId == state.next && disk == state.disk
    }

    ghost predicate Valid()
      reads this, pages, pageTable, pageTable.Repr, replacer, replacer.Repr
    {
      Wired() && Inv(state) && nextPageId <= MAX_PAGE_ID
    }

    constructor (poolSize: nat, replacerK: nat)
      requires replacerK >= 1
      ensures Valid() && state == Pool.Start(poolSize, replacerK)
      ensures fresh(pageTable.Repr) && fresh(replacer.Repr) && forall i :: 0 <= i < |pages| ==> fresh(pages[i])
    {
      hide Replacer.LRUKReplacer.Valid, ExtendibleHash.ExtendibleHashTable.Valid, Inv, Zero;
      pageTable := new ExtendibleHash.ExtendibleHashTable(BUCKET_SIZE, HashInt);
      replacer := new Replacer.LRUKReplacer(poolSize, replacerK);
      var ps := NewPages(poolSize);
      pages := ps;
      freeList := AllFrames(poolSize);
      nextPageId, disk := 0, map[];
      state := Pool.Start(poolSize, replacerK);
      new;
      StartInv(poolSize, replacerK);
    }

    /** The frame for a new resident: from the free list, else by eviction. */
    method TakeFrame() returns (r: Option<int>)
      requires Wired()
      modifies this`freeList, this`state, replacer.Repr
      ensures Wired() && replacer.Repr == old(replacer.Repr)
      ensures r == NextFrame(old(state)) && state == if r.Some? then Taken(old(state)) else old(state)
    {
      hide Replacer.LRUKReplacer.Valid, ExtendibleHash.ExtendibleHashTable.Valid;
      if freeList != [] {
        r := Some(freeList[0]);
        freeList := freeList[1..];
        state := Taken(state);
      } else {
        r := replacer.Evict();
        state := state.(repl := replacer.model);
      }
    }

    /** Writes the frame's old page back if dirty, unmaps it, and zeroes the frame's memory. */
    method Recycle(f: int)
      requires Wired() && InPool(state, f)
      modifies this`disk, this`state, pages`isDirty, pages`data, pageTable.Repr
      ensures Wired() && fresh(pageTable.Repr - old(pageTable.Repr))
      ensures state == Recycled(old(state), f)
    {
      hide Replacer.LRUKReplacer.Valid, ExtendibleHash.ExtendibleHashTable.Valid;
      var page := pages[f];
      if page.isDirty {
        disk := disk[page.pageId := page.data];
        page.isDirty := false;
      }
      var removed := pageTable.Remove(page.pageId);
      page.data := Zero();
      state := Recycled(state, f);
    }

    /** Counts an access to the frame and pins it against eviction. */
    method PinFrame(f: int)
      requires Wired() && InPool(state, f) && Fits(state.repl, f)
      modifies this`state, replacer.Repr
      ensures Wired() && fresh(replacer.Repr - old(replacer.Repr))
      ensures state == Pinned(old(state), f)
    {
      hide Replacer.LRUKReplacer.Valid, ExtendibleHash.ExtendibleHashTable.Valid, WithoutId, NextRec;
      var ok := replacer.RecordAccess(f);
      replacer.SetEvictable(f, false);
      state := Pinned(state, f);
    }

    /** Maps page `p` to frame `f`. */
    method MapPage(p: int, f: int)
      requires Wired() && InPool(state, f) && IsPageId(p)
      modifies this`state, pageTable.Repr
      ensures Wired() && fresh(pageTable.Repr - old(pageTable.Repr))
      ensures state == old(state).(table := old(state).table[p := f])
    {
      hide Replacer.LRUKReplacer.Valid, ExtendibleHash.ExtendibleHashTable.Valid, Directory.Spread, Directory.Inserted,
        ExtendibleHash.ExtendibleHashTable.Depth;
      PageIdsSpread(pageTable.contents.Keys + {p});
      pageTable.Insert(p, f, MAX_DEPTH);
      state := state.(table := state.table[p := f]);
    }

    /** Puts page `p` into frame `f`, whose memory already holds the page's contents. */
    method Install(p: int, f: int)
      requires Wired() && InPool(state, f) && IsPageId(p) && Fits(state.repl, f)
      modifies this`state, pages`pageId, pages`pinCount, pageTable.Repr, replacer.Repr
      ensures Wired() && fresh(pageTable.Repr - old(pageTable.Repr)) && fresh(replacer.Repr - old(replacer.Repr))
      ensures state == Installed(old(state), f, p, old(state).frames[f].data)
    {
      hide Replacer.LRUKReplacer.Valid, ExtendibleHash.ExtendibleHashTable.Valid, Pinned;
      MapPage(p, f);
      var page := pages[f];
      page.pageId := p;
      page.pinCount := 1;
      state := WithFrame(state, f, FrameSt(p, 1, page.isDirty, page.data));
      PinFrame(f);
    }

    /** A new page, zeroed and pinned: its id and frame; nothing when every frame is pinned. */
    method NewPage() returns (r: Option<(int, int)>)
      requires Valid() && nextPageId < MAX_PAGE_ID
      modifies this, pages, pageTable.Repr, replacer.Repr
      ensures Valid() && fresh(pageTable.Repr - old(pageTable.Repr)) && fresh(replacer.Repr - old(replacer.Repr))
      ensures (state, r) == New(old(state))
    {
      hide Replacer.LRUKReplacer.Valid, ExtendibleHash.ExtendibleHashTable.Valid, Inv, Installed, Recycled, Taken;
      ghost var s := state;
      NewInv(s);
      var got := TakeFrame();
      if got.None? { return None; }
      NewSteps(s);
      var f := got.value;
      var newPageId := nextPageId;
      nextPageId := nextPageId + 1;
      state := state.(next := nextPageId);
      Recycle(f);
      Install(newPageId, f);
      r := Some((newPageId, f));
    }

    /** The page's frame, pinned once more; brought in from disk when it is not resident.  The id
        must have been handed out and not be remembered by a freed frame (`Pool.FetchMissInv`). */
    method FetchPage(p: int) returns (r: Option<int>)
      requires Valid() && FetchSafe(state, p)
      modifies this, pages, pageTable.Repr, replacer.Repr
      ensures Valid() && fresh(pageTable.Repr - old(pageTable.Repr)) && fresh(replacer.Repr - old(replacer.Repr))
      ensures (state, r) == Fetch(old(state), p)
    {
      hide Replacer.LRUKReplacer.Valid, ExtendibleHash.ExtendibleHashTable.Valid, Inv, Fetch, FetchSafe;
      var found := pageTable.Find(p);
      if found.None? {
        r := FetchAbsent(p);
      } else {
        r := FetchResident(p, found.value);
      }
    }

    method FetchResident(p: int, f: int) returns (r: Option<int>)
      requires Valid() && p in state.table && state.table[p] == f
      modifies this, pages, pageTable.Repr, replacer.Repr
      ensures Valid() && fresh(pageTable.Repr - old(pageTable.Repr)) && fresh(replacer.Repr - old(replacer.Repr))
      ensures (state, r) == Fetch(old(state), p)
    {
      hide Replacer.LRUKReplacer.Valid, ExtendibleHash.ExtendibleHashTable.Valid, Inv, Accessed, Marked;
      ghost var s := state;
      FetchHitInv(s, p);
      HitFits(s, p);
      PinFrame(f);
      var page := pages[f];
      page.pinCount := page.pinCount + 1;
      state := WithFrame(state, f, s.frames[f].(pin := s.frames[f].pin + 1));
      r := Some(f);
    }

    method FetchAbsent(p: int) returns (r: Option<int>)
      requires Valid() && p !in state.table && FetchSafe(state, p)
      modifies this, pages, pageTable.Repr, replacer.Repr
      ensures Valid() && fresh(pageTable.Repr - old(pageTable.Repr)) && fresh(replacer.Repr - old(replacer.Repr))
      ensures (state, r) == Fetch(old(state), p)
    {
      hide Replacer.LRUKReplacer.Valid, ExtendibleHash.ExtendibleHashTable.Valid, Inv, Installed, Recycled, Taken;
      ghost var s := state;
      var got := TakeFrame();
      if got.None? { return None; }
      FetchMissInv(s, p);
      FetchSteps(s, p);
      var f := got.value;
      Recycle(f);
      ReadPage(p, f);
      Install(p, f);
      r := Some(f);
    }

    /** Reads the page from disk into the frame's memory. */
    method ReadPage(p: int, f: int)
      requires Wired() && InPool(state, f)
      modifies this`state, pages`data
      ensures Wired() && state == ReadIn(old(state), f, p)
    {
      hide Replacer.LRUKReplacer.Valid, ExtendibleHash.ExtendibleHashTable.Valid;
      var page := pages[f];
      page.data := DiskRead(disk, p);
      state := ReadIn(state, f, p);
    }

    /** The frame of a resident page; an invalid id has none. */
    method Locate(p: int) returns (r: Option<int>)
      requires Valid()
      ensures r == Target(state, p)
    {
      hide Replacer.LRUKReplacer.Valid, ExtendibleHash.ExtendibleHashTable.Valid;
      if p == INVALID_PAGE_ID { return None; }
      r := pageTable.Find(p);
      assert p in state.table ==> PageOk(state, p);
    }

    method UnpinPage(p: int, isDirty: bool) returns (ok: bool)
      requires Valid()
      modifies this`state, pages`pinCount, pages`isDirty, replacer.Repr
      ensures Valid() && replacer.Repr == old(replacer.Repr)
      ensures (state, ok) == Unpin(old(state), p, isDirty)
    {
      hide Replacer.LRUKReplacer.Valid, ExtendibleHash.ExtendibleHashTable.Valid, Inv, Home;
      ghost var s := state;
      UnpinInv(s, p, isDirty);
      var found := Locate(p);
      if found.None? { return false; }
      var f := found.value;
      assert InPool(s, f) by { TargetInPool(s, p); }
      if pages[f].pinCount == 0 { return false; }
      DropPin(f, isDirty);
      ok := true;
    }

    /** One pin fewer; without any the frame may be evicted. */
    method DropPin(f: int, isDirty: bool)
      requires Wired() && InPool(state, f)
      modifies this`state, pages`pinCount, pages`isDirty, replacer.Repr
      ensures Wired() && replacer.Repr == old(replacer.Repr)
      ensures var fr := old(state).frames[f];
              state == WithFrame(old(state), f, fr.(pin := fr.pin - 1, dirty := fr.dirty || isDirty))
                       .(repl := if fr.pin == 1 then Marked(old(state).repl, f, true) else old(state).repl)
    {
      hide Replacer.LRUKReplacer.Valid, ExtendibleHash.ExtendibleHashTable.Valid, Marked;
      var page := pages[f];
      page.pinCount := page.pinCount - 1;
      page.isDirty := page.isDirty || isDirty;
      state := WithFrame(state, f, FrameSt(page.pageId, page.pinCount, page.isDirty, page.data));
      if page.pinCount == 0 {
        LetGo(f);
      }
    }

    method LetGo(f: int)
      requires Wired() && InPool(state, f)
      modifies this`state, replacer.Repr
      ensures Wired() && replacer.Repr == old(replacer.Repr)
      ensures state == old(state).(repl := Marked(old(state).repl, f, true))
    {
      hide Replacer.LRUKReplacer.Valid, ExtendibleHash.ExtendibleHashTable.Valid;
      replacer.SetEvictable(f, true);
      state := state.(repl := replacer.model);
    }

    method FlushPage(p: int) returns (ok: bool)
      requires Valid()
      modifies this`state, this`disk, pages`isDirty
      ensures Valid() && (state, ok) == Flush(old(state), p)
    {
      hide Replacer.LRUKReplacer.Valid, ExtendibleHash.ExtendibleHashTable.Valid, Inv, Home;
      ghost var s := state;
      FlushInv(s, p);
      var found := Locate(p);
      if found.None? { return false; }
      var f := found.value;
      assert InPool(s, f) by { TargetInPool(s, p); }
      disk := disk[p := pages[f].data];
      pages[f].isDirty := false;
      state := Flush(s, p).0;
      ok := true;
    }

    /** Flushes frame by frame; the source takes the latch anew for each. */
    method FlushAllPages()
      requires Valid()
      modifies this`state, this`disk, pages`isDirty
      ensures Valid() && state == FlushFrom(old(state), 0)
    {
      hide Replacer.LRUKReplacer.Valid, ExtendibleHash.ExtendibleHashTable.Valid, Inv, Flush;
      var i := 0;
      while i < |pages|
        invariant Valid() && 0 <= i <= |pages|
        invariant FlushFrom(state, i) == FlushFrom(old(state), 0)
      {
        var ok := FlushPage(pages[i].pageId);
        i := i + 1;
      }
    }

    method UnmapPage(p: int)
      requires Wired()
      modifies this`state, pageTable.Repr
      ensures Wired() && fresh(pageTable.Repr - old(pageTable.Repr))
      ensures state == old(state).(table := old(state).table - {p})
    {
      hide Replacer.LRUKReplacer.Valid, ExtendibleHash.ExtendibleHashTable.Valid;
      var mapped := pageTable.Remove(p);
      state := state.(table := state.table - {p});
    }

    method Untrack(f: int)
      requires Wired()
      modifies this`state, replacer.Repr
      ensures Wired() && replacer.Repr == old(replacer.Repr)
      ensures state == Untracked(old(state), f)
    {
      hide Replacer.LRUKReplacer.Valid, ExtendibleHash.ExtendibleHashTable.Valid, WithoutId;
      var tracked := replacer.Remove(f);
      state := Untracked(state, f);
    }

    /** The frame leaves the replacer and the page table and joins the free list's end. */
    method Release(p: int, f: int)
      requires Wired()
      modifies this`state, this`freeList, pageTable.Repr, replacer.Repr
      ensures Wired() && fresh(pageTable.Repr - old(pageTable.Repr)) && replacer.Repr == old(replacer.Repr)
      ensures state == Released(old(state), p, f)
    {
      hide Replacer.LRUKReplacer.Valid, ExtendibleHash.ExtendibleHashTable.Valid, Untracked;
      Untrack(f);
      UnmapPage(p);
      freeList := freeList + [f];
      state := state.(free := freeList);
    }

    method DeletePage(p: int) returns (ok: bool)
      requires Valid()
      modifies this`state, this`freeList, pages`data, pageTable.Repr, replacer.Repr
      ensures Valid() && fresh(pageTable.Repr - old(pageTable.Repr)) && replacer.Repr == old(replacer.Repr)
      ensures (state, ok) == Delete(old(state), p)
    {
      hide Replacer.LRUKReplacer.Valid, ExtendibleHash.ExtendibleHashTable.Valid, Inv, Home;
      ghost var s := state;
      DeleteInv(s, p);
      var found := Locate(p);
      if found.None? { return true; }
      var f := found.value;
      assert InPool(s, f) by { TargetInPool(s, p); }
      var page := pages[f];
      if page.pinCount > 0 { return false; }
      page.data := Zero();
      state := WithFrame(s, f, s.frames[f].(data := Zero()));
      Release(p, f);
      ok := true;
    }

    /** What a client does with a page it has pinned; the pool is not told. */
    method WriteToPage(p: int, data: Bytes)
      requires Valid()
      modifies this`state, pages`data
      ensures Valid() && state == Write(old(state), p, data)
    {
      hide Replacer.LRUKReplacer.Valid, ExtendibleHash.ExtendibleHashTable.Valid, Inv;
      WriteInv(state, p, data);
      var found := pageTable.Find(p);
      if found.Some? && 0 <= found.value < |pages| {
        pages[found.value].data := data;
        state := Write(state, p, data);
      }
    }
  }
}

/** A client of the buffer pool object: any list of operations that keeps the contract, performed one
    after the other, leaves the object related to the flat store. */
module PoolClient {
  import opened Pool
  import opened PoolRuns
  import opened BufferPool
  import ExtendibleHash
  import Replacer

  method FlushFrame(bpm: BufferPoolManager, i: nat) returns (a: Answer)
    requires bpm.Valid()
    modifies bpm, bpm.pages, bpm.pageTable.Repr, bpm.replacer.Repr
    ensures bpm.Valid() && (bpm.state, a) == Step(old(bpm.state), OpFlushFrame(i))
    ensures bpm.pageTable.Repr == old(bpm.pageTable.Repr) && bpm.replacer.Repr == old(bpm.replacer.Repr)
  {
    hide Flush, Replacer.LRUKReplacer.Valid, ExtendibleHash.ExtendibleHashTable.Valid, Inv;
    if i >= |bpm.pages| {
      return Nothing;
    }
    var p := bpm.pages[i].pageId;
    var ok := bpm.FlushPage(p);
    a := Flushed(p);
  }

  lemma Separate(bpm: BufferPoolManager)
    requires bpm.Valid()
    ensures bpm.pageTable !in bpm.replacer.Repr && bpm.replacer !in bpm.pageTable.Repr
  {
  }

  /** What the object demands of the caller. */
  ghost predicate Callable(bpm: BufferPoolManager, op: Op)
    reads bpm
  {
    && (op.OpNew? ==> bpm.nextPageId < MAX_PAGE_ID)
    && (op.OpFetch? ==> FetchSafe(bpm.state, op.p))
  }

  /** One operation on the object is one step of the run. */
  method Perform(bpm: BufferPoolManager, op: Op) returns (a: Answer)
    requires bpm.Valid() && Callable(bpm, op)
    modifies bpm, bpm.pages, bpm.pageTable.Repr, bpm.replacer.Repr
    ensures bpm.Valid() && (bpm.state, a) == Step(old(bpm.state), op)
    ensures fresh(bpm.pageTable.Repr - old(bpm.pageTable.Repr))
    ensures fresh(bpm.replacer.Repr - old(bpm.replacer.Repr))
  {
    hide New, Fetch, Unpin, Flush, Delete, Write, FlushFrom, FetchSafe, BufferPoolManager.Valid, Inv;
    Separate(bpm);
    match op
    case OpNew =>
      var r := bpm.NewPage();
      a := if r.None? then NoPage else GotPage(r.value.0, r.value.1);
    case OpFetch(p) =>
      var r := bpm.FetchPage(p);
      a := if r.None? then NoPage else GotPage(p, r.value);
    case OpWrite(p, data) =>
      bpm.WriteToPage(p, data);
      a := Nothing;
    case OpUnpin(p, dirty) =>
      var ok := bpm.UnpinPage(p, dirty);
      a := Flag(ok);
    case OpFlush(p) =>
      var ok := bpm.FlushPage(p);
      a := Flag(ok);
    case OpFlushAll =>
      bpm.FlushAllPages();
      a := Nothing;
    case OpFlushFrame(i) => a := FlushFrame(bpm, i);
    case OpDelete(p) =>
      var ok := bpm.DeletePage(p);
      a := Flag(ok);
  }

  /** The first `i` answers, then those of the rest of the run. */
  ghost predicate Underway(s0: PoolSt, c0: Client, ops: seq<Op>, i: nat, s: PoolSt, c: Client, answers: seq<Answer>)
    requires i <= |ops|
  {
    && |answers| == i && |Run(s, ops[i..]).1| == |ops| - i
    && Run(s0, ops) == (Run(s, ops[i..]).0, answers + Run(s, ops[i..]).1)
    && Observed(c0, ops, Run(s0, ops).1) == Observed(c, ops[i..], Run(s, ops[i..]).1)
    && Obeys(c, ops[i..], Run(s, ops[i..]).1)
  }

  lemma Begins(s: PoolSt, c: Client, ops: seq<Op>)
    requires |Run(s, ops).1| == |ops| && Obeys(c, ops, Run(s, ops).1)
    ensures Underway(s, c, ops, 0, s, c, [])
  {
    assert ops[0..] == ops && [] + Run(s, ops).1 == Run(s, ops).1;
  }

  lemma GoesOn(s0: PoolSt, c0: Client, ops: seq<Op>, i: nat, s: PoolSt, c: Client, answers: seq<Answer>)
    requires i < |ops| && |Run(s0, ops).1| == |ops| && Underway(s0, c0, ops, i, s, c, answers)
    ensures Allowed(c, ops[i])
    ensures var (s1, a) := Step(s, ops[i]);
            Underway(s0, c0, ops, i + 1, s1, Seen(c, ops[i], a), answers + [a])
  {
    hide Step, Seen, Allowed;
    var (s1, a) := Step(s, ops[i]);
    assert ops[i..][0] == ops[i] && ops[i..][1..] == ops[i + 1..];
    RunLength(s1, ops[i + 1..]);
    var rest := Run(s1, ops[i + 1..]).1;
    assert Run(s, ops[i..]).1 == [a] + rest && ([a] + rest)[1..] == rest;
    assert answers + ([a] + rest) == (answers + [a]) + rest;
  }

  /** Performing a whole list of operations on the object: its answers are the run's, each of them is one the
      store allows, and every live page reads as the store says. */
  method RunAll(bpm: BufferPoolManager, ops: seq<Op>, ghost c: Client) returns (answers: seq<Answer>)
    requires bpm.Valid() && Rel(bpm.state, c) && bpm.nextPageId + |ops| <= MAX_PAGE_ID
    requires |Run(bpm.state, ops).1| == |ops| && Obeys(c, ops, Run(bpm.state, ops).1)
    modifies bpm, bpm.pages, bpm.pageTable.Repr, bpm.replacer.Repr
    ensures bpm.Valid() && (bpm.state, answers) == Run(old(bpm.state), ops)
    ensures |answers| == |ops| && AnswersOk(c, |bpm.pages|, ops, answers)
    ensures Rel(bpm.state, Observed(c, ops, answers))
    ensures forall p :: p in Observed(c, ops, answers).store
              ==> Content(bpm.state, p) == Observed(c, ops, answers).store[p]
  {
    hide *;
    ghost var s0, now := bpm.state, c;
    RunRefinesStore(s0, c, ops);
    Begins(s0, c, ops);
    TiedTo(bpm);
    answers := [];
    var i := 0;
    while i < |ops|
      invariant 0 <= i <= |ops|
      invariant bpm.Valid() && Rel(bpm.state, now) && bpm.state.next + (|ops| - i) <= MAX_PAGE_ID
      invariant Underway(s0, c, ops, i, bpm.state, now, answers)
      invariant fresh(bpm.pageTable.Repr - old(bpm.pageTable.Repr))
      invariant fresh(bpm.replacer.Repr - old(bpm.replacer.Repr))
    {
      GoesOn(s0, c, ops, i, bpm.state, now, answers);
      Ready(bpm, ops[i], now);
      var a := Perform(bpm, ops[i]);
      now := Seen(now, ops[i], a);
      answers := answers + [a];
      i := i + 1;
    }
    Ends(s0, c, ops, bpm.state, now, answers);
  }

  lemma Ready(bpm: BufferPoolManager, op: Op, c: Client)
    requires bpm.Valid() && Rel(bpm.state, c) && Allowed(c, op) && bpm.state.next < MAX_PAGE_ID
    ensures Callable(bpm, op)
    ensures Rel(Step(bpm.state, op).0, Seen(c, op, Step(bpm.state, op).1))
    ensures Step(bpm.state, op).0.next <= bpm.state.next + 1
  {
    StepRel(bpm.state, c, op);
    NextBound(bpm.state, op);
    if op.OpFetch? {
      LiveIsSafe(bpm.state, c, op.p);
    }
    hide Rel, Step, FetchSafe;
  }

  lemma NextBound(s: PoolSt, op: Op)
    ensures Step(s, op).0.next <= s.next + 1
  {
    if op.OpFlushAll? {
      FlushFromNext(s, 0);
    }
  }

  lemma {:induction false} FlushFromNext(s: PoolSt, i: nat)
    ensures FlushFrom(s, i).next == s.next
    decreases |s.frames| - i
  {
    if i < |s.frames| {
      FlushKeepsIds(s, s.frames[i].pageId);
      FlushFromNext(Flush(s, s.frames[i].pageId).0, i + 1);
    }
  }

  lemma TiedTo(bpm: BufferPoolManager)
    requires bpm.Valid()
    ensures bpm.nextPageId == bpm.state.next && |bpm.pages| == |bpm.state.frames|
  {
  }

  lemma Ends(s0: PoolSt, c0: Client, ops: seq<Op>, s: PoolSt, c: Client, answers: seq<Answer>)
    requires Underway(s0, c0, ops, |ops|, s, c, answers)
    ensures Run(s0, ops) == (s, answers)
  {
    assert ops[|ops|..] == [] && answers + [] == answers;
  }
}

/**
 * A transaction's writes to the table heaps as values: what each logs, and what
 * undoing the log backwards leaves.  A page that gains a slot never gives it back, so
 * undoing an update may find no room.  The outcome of an abort is proved exactly, for
 * every run, with the conditions under which it is the state at Begin.
 */
module Rollback {
  import opened Common
  import opened Expressions

  const PAGE_SIZE := 4096

  const HEADER_SIZE := 24

  /** The bytes of a page below its header. */
  const PAGE_ROOM := PAGE_SIZE - HEADER_SIZE

  /** The bytes a slot takes in the header, whether it holds a tuple or not. */
  const SLOT_SIZE := 8

  datatype TupleData = TupleData(row: Row, size: nat)

  type Tuple = t: TupleData | 0 < t.size witness TupleData([], 1)

  datatype PageId = PageId(table: nat, page: int)

  /** A record id. */
  datatype Slot = Slot(at: PageId, slot: nat)

  datatype Entry = Entry(tuple: Tuple, deleted: bool)

  type Heap = map<Slot, Entry>

  /** How many slots each page has; they are never given back.  A page without any is as good as new. */
  type Counts = map<PageId, nat>

  datatype Store = Store(heap: Heap, counts: Counts)

  datatype TableWrite = Inserted(slot: Slot) | Deleted(slot: Slot) | Updated(slot: Slot, before: Tuple)

  // ---------------------------------------------------------------- space in a page

  function Count(counts: Counts, p: PageId): nat {
    if p in counts then counts[p] else 0
  }

  function SizeAt(h: Heap, s: Slot): nat {
    if s in h then h[s].tuple.size else 0
  }

  /** The bytes of the tuples in the first `n` slots of the page. */
  function Used(h: Heap, p: PageId, n: nat): nat {
    if n == 0 then 0 else Used(h, p, n - 1) + SizeAt(h, Slot(p, n - 1))
  }

  /** The bytes between the slots and the tuples. */
  function Free(h: Heap, counts: Counts, p: PageId): int {
    PAGE_ROOM - SLOT_SIZE * Count(counts, p) - Used(h, p, Count(counts, p))
  }

  function FirstEmpty(h: Heap, p: PageId, i: nat, n: nat): (r: nat)
    requires i <= n
    ensures i <= r <= n && (r < n ==> Slot(p, r) !in h) && forall j :: i <= j < r ==> Slot(p, j) in h
    decreases n - i
  {
    if i == n || Slot(p, i) !in h then i else FirstEmpty(h, p, i + 1, n)
  }

  /** The slot an insert into the page takes: an empty one if there is one, else a new one. */
  function Target(st: Store, p: PageId): Slot {
    Slot(p, FirstEmpty(st.heap, p, 0, Count(st.counts, p)))
  }

  /** The page has room for `t` in the place of the slot's tuple. */
  predicate HasRoom(h: Heap, counts: Counts, s: Slot, t: Tuple) {
    Free(h, counts, s.at) + SizeAt(h, s) >= t.size
  }

  // ---------------------------------------------------------------- heap operations

  /**
   * `page` is where the search for space ends, an old page or a new one; without `room` there is none.
   * `found`: the page could be fetched.
   */
  datatype Op =
    | InsertTuple(tuple: Tuple, page: PageId, room: bool)
    | MarkDelete(slot: Slot, found: bool)
    | UpdateTuple(tuple: Tuple, slot: Slot, found: bool)

  predicate Live(h: Heap, s: Slot) {
    s in h && !h[s].deleted
  }

  predicate Marked(h: Heap, s: Slot) {
    s in h && h[s].deleted
  }

  /** Larger tuples are refused before any page is looked at. */
  predicate FitsAPage(t: Tuple) {
    t.size + 32 <= PAGE_SIZE
  }

  predicate Succeeds(st: Store, op: Op) {
    match op
    case InsertTuple(t, p, room) => room && FitsAPage(t) && Free(st.heap, st.counts, p) >= t.size + SLOT_SIZE
    case MarkDelete(_, found) => found
    case UpdateTuple(t, s, found) => found && Live(st.heap, s) && HasRoom(st.heap, st.counts, s, t)
  }

  function Step(st: Store, op: Op): Store {
    match op
    case InsertTuple(t, p, _) =>
      if Succeeds(st, op) then
        var s := Target(st, p);
        Store(st.heap[s := Entry(t, false)],
              if s.slot == Count(st.counts, p) then st.counts[p := s.slot + 1] else st.counts)
      else st
    case MarkDelete(s, found) =>
      if found && Live(st.heap, s) then st.(heap := st.heap[s := st.heap[s].(deleted := true)]) else st
    case UpdateTuple(t, s, _) =>
      if Succeeds(st, op) then st.(heap := st.heap[s := st.heap[s].(tuple := t)]) else st
  }

  /** A mark is logged even if the page refused it; an update only if it happened and the transaction still runs. */
  function StepLog(st: Store, aborted: bool, op: Op): seq<TableWrite> {
    match op
    case InsertTuple(_, p, _) => if Succeeds(st, op) then [Inserted(Target(st, p))] else []
    case MarkDelete(s, found) => if found then [Deleted(s)] else []
    case UpdateTuple(_, s, _) => if Succeeds(st, op) && !aborted then [Updated(s, st.heap[s].tuple)] else []
  }

  /** Too large a tuple, no page to be had or none found puts the transaction into the ABORTED state. */
  predicate StepAborted(aborted: bool, op: Op) {
    aborted || match op
               case InsertTuple(t, _, room) => !room || !FitsAPage(t)
               case MarkDelete(_, found) => !found
               case UpdateTuple(_, _, found) => !found
  }

  function Run(st: Store, ops: seq<Op>): Store
    decreases |ops|
  {
    if ops == [] then st else Run(Step(st, ops[0]), ops[1..])
  }

  function RunLog(st: Store, aborted: bool, ops: seq<Op>): seq<TableWrite>
    decreases |ops|
  {
    if ops == [] then []
    else StepLog(st, aborted, ops[0]) + RunLog(Step(st, ops[0]), StepAborted(aborted, ops[0]), ops[1..])
  }

  // ---------------------------------------------------------------- undoing

  /** Emptying a slot that holds nothing is an assertion failure. */
  function ApplyDelete(h: Heap, s: Slot): Result<Heap> {
    if s in h then Ok(h - {s}) else Err("ApplyDelete on an empty slot")
  }

  /** Clearing a mark beyond the page's slots is an assertion failure too; an update without room is refused, and
      nobody looks at that. */
  function UndoOne(h: Heap, counts: Counts, w: TableWrite): Result<Heap> {
    match w
    case Deleted(s) =>
      if s.slot >= Count(counts, s.at) then Err("RollbackDelete beyond the page's slots")
      else Ok(if Marked(h, s) then h[s := h[s].(deleted := false)] else h)
    case Inserted(s) => ApplyDelete(h, s)
    case Updated(s, before) =>
      Ok(if Live(h, s) && HasRoom(h, counts, s, before) then h[s := h[s].(tuple := before)] else h)
  }

  /** Last record first. */
  function UndoAll(h: Heap, counts: Counts, log: seq<TableWrite>): Result<Heap>
    decreases |log|
  {
    if log == [] then Ok(h)
    else
      var r := UndoOne(h, counts, log[|log| - 1]);
      if r.Err? then r else UndoAll(r.value, counts, log[..|log| - 1])
  }

  lemma {:induction false} UndoConcat(h: Heap, counts: Counts, a: seq<TableWrite>, b: seq<TableWrite>)
    ensures UndoAll(h, counts, a + b)
            == var r := UndoAll(h, counts, b); if r.Err? then r else UndoAll(r.value, counts, a)
    decreases |b|
  {
    if b == [] {
      assert a + b == a;
    } else {
      var last := b[|b| - 1];
      assert (a + b)[|a + b| - 1] == last && (a + b)[..|a + b| - 1] == a + b[..|b| - 1];
      hide UndoOne;
      if UndoOne(h, counts, last).Ok? {
        UndoConcat(UndoOne(h, counts, last).value, counts, a, b[..|b| - 1]);
      }
    }
  }

  /** The slots the run attempted to mark, in order. */
  function Marks(ops: seq<Op>): seq<Slot> {
    if ops == [] then []
    else (if ops[0].MarkDelete? && ops[0].found then [ops[0].slot] else []) + Marks(ops[1..])
  }

  /** Some mark was attempted on the slot. */
  predicate Hit(ops: seq<Op>, s: Slot) {
    if ops == [] then false
    else (ops[0].MarkDelete? && ops[0].found && ops[0].slot == s) || Hit(ops[1..], s)
  }

  /** The operation changes the slot's tuple. */
  predicate Rewrites(st: Store, op: Op, s: Slot) {
    op.UpdateTuple? && op.slot == s && Succeeds(st, op)
  }

  /** Undoing the run's first operation, an update, finds room in what undoing the rest has left. */
  predicate TakenBack(st: Store, aborted: bool, ops: seq<Op>, counts: Counts)
    requires ops != [] && ops[0].UpdateTuple? && ops[0].slot in st.heap
    decreases |ops|, 0
  {
    var after := Outcome(Step(st, ops[0]), StepAborted(aborted, ops[0]), ops[1..], counts);
    HasRoom(after, counts, ops[0].slot, st.heap[ops[0].slot].tuple)
  }

  /** The tuple Abort leaves in a slot: the one before the first update of the slot that is logged and taken back. */
  function KeptTuple(st: Store, aborted: bool, ops: seq<Op>, counts: Counts, s: Slot): Tuple
    requires s in st.heap
    decreases |ops|, 1
  {
    if ops == [] || (Rewrites(st, ops[0], s) && !aborted && TakenBack(st, aborted, ops, counts)) then st.heap[s].tuple
    else KeptTuple(Step(st, ops[0]), StepAborted(aborted, ops[0]), ops[1..], counts, s)
  }

  /** The slots of Begin, a mark gone if the run hit it, each with the tuple that is kept. */
  function Outcome(st: Store, aborted: bool, ops: seq<Op>, counts: Counts): Heap
    decreases |ops|, 2
  {
    map s | s in st.heap :: Entry(KeptTuple(st, aborted, ops, counts, s), st.heap[s].deleted && !Hit(ops, s))
  }

  lemma {:induction false} FrontStep(st: Store, aborted: bool, op: Op, rest: seq<Op>, counts: Counts, s: Slot)
    ensures Hit([op] + rest, s) <==> (op.MarkDelete? && op.found && op.slot == s) || Hit(rest, s)
    ensures s in st.heap ==> s in Step(st, op).heap
    ensures s in st.heap ==>
              KeptTuple(st, aborted, [op] + rest, counts, s)
              == if Rewrites(st, op, s) && !aborted && TakenBack(st, aborted, [op] + rest, counts) then st.heap[s].tuple
                 else KeptTuple(Step(st, op), StepAborted(aborted, op), rest, counts, s)
  {
    hide TakenBack, Succeeds;
    assert ([op] + rest)[1..] == rest;
  }

  lemma UndoSingle(h: Heap, counts: Counts, log: seq<TableWrite>)
    ensures log == [] ==> UndoAll(h, counts, log) == Ok(h)
    ensures |log| == 1 ==> UndoAll(h, counts, log) == UndoOne(h, counts, log[0])
  {
    hide UndoOne;
    assert |log| == 1 ==> log[..0] == [];
    if |log| == 1 && UndoOne(h, counts, log[0]).Ok? {
      assert UndoAll(UndoOne(h, counts, log[0]).value, counts, []) == UndoOne(h, counts, log[0]);
    }
  }

  lemma TargetEmpty(st: Store, p: PageId)
    requires WellPlaced(st)
    ensures Target(st, p) !in st.heap
  {
  }

  /** No tuple lies beyond its page's slots. */
  ghost predicate WellPlaced(st: Store) {
    forall s :: s in st.heap ==> s.slot < Count(st.counts, s.at)
  }

  lemma StepPlaced(st: Store, op: Op)
    requires WellPlaced(st)
    ensures WellPlaced(Step(st, op))
    ensures forall p :: Count(st.counts, p) <= Count(Step(st, op).counts, p)
  {
    hide HasRoom, Free;
  }

  lemma {:induction false} RunPlaced(st: Store, ops: seq<Op>)
    requires WellPlaced(st)
    ensures WellPlaced(Run(st, ops))
    ensures forall p :: Count(st.counts, p) <= Count(Run(st, ops).counts, p)
    decreases |ops|
  {
    if ops != [] {
      hide Count, WellPlaced, Step;
      StepPlaced(st, ops[0]);
      RunPlaced(Step(st, ops[0]), ops[1..]);
    }
  }

  /** Outside the slot `s` the two heaps are the same. */
  ghost predicate SameBut(a: Heap, b: Heap, s: Slot) {
    && (forall t :: t != s ==> (t in a <==> t in b))
    && (forall t :: t != s && t in a && t in b ==> a[t] == b[t])
  }

  lemma SameEverywhere(a: Heap, b: Heap, s: Slot)
    requires SameBut(a, b, s) && (s in a <==> s in b) && (s in a ==> a[s] == b[s])
    ensures a == b
  {
  }

  /** An operation on one slot leaves the outcome elsewhere to the rest of the run. */
  lemma {:induction false} OutcomeElsewhere(st: Store, counts: Counts, aborted: bool, op: Op, rest: seq<Op>, s: Slot)
    requires op.InsertTuple? ==> s == Target(st, op.page)
    requires !op.InsertTuple? ==> s == op.slot
    ensures SameBut(Outcome(Step(st, op), StepAborted(aborted, op), rest, counts),
                    Outcome(st, aborted, [op] + rest, counts), s)
  {
    hide Hit, KeptTuple, Succeeds, Target;
    forall t | t != s {
      FrontStep(st, aborted, op, rest, counts, t);
    }
  }

  lemma {:induction false} UndoInsert(st: Store, counts: Counts, aborted: bool, op: Op, rest: seq<Op>)
    requires op.InsertTuple? && WellPlaced(st)
    ensures UndoAll(Outcome(Step(st, op), StepAborted(aborted, op), rest, counts), counts, StepLog(st, aborted, op))
            == Ok(Outcome(st, aborted, [op] + rest, counts))
  {
    hide Hit, KeptTuple, Succeeds, WellPlaced, Target, UndoAll, SameBut;
    var after, s := Outcome(Step(st, op), StepAborted(aborted, op), rest, counts), Target(st, op.page);
    var o := Outcome(st, aborted, [op] + rest, counts);
    TargetEmpty(st, op.page);
    OutcomeElsewhere(st, counts, aborted, op, rest, s);
    assert s !in o && (s in after <==> Succeeds(st, op));
    hide Outcome;
    UndoSingle(after, counts, StepLog(st, aborted, op));
    if Succeeds(st, op) {
      assert SameBut(after - {s}, o, s) by { DropSame(after, o, s); }
      SameEverywhere(after - {s}, o, s);
    } else {
      SameEverywhere(after, o, s);
    }
  }

  lemma DropSame(a: Heap, b: Heap, s: Slot)
    requires SameBut(a, b, s)
    ensures SameBut(a - {s}, b, s)
  {
  }

  lemma PutSame(a: Heap, b: Heap, s: Slot, e: Entry)
    requires SameBut(a, b, s)
    ensures SameBut(a[s := e], b, s)
  {
  }

  lemma {:induction false} UndoMark(st: Store, counts: Counts, aborted: bool, op: Op, rest: seq<Op>)
    requires op.MarkDelete? && (op.found ==> op.slot.slot < Count(counts, op.slot.at))
    ensures UndoAll(Outcome(Step(st, op), StepAborted(aborted, op), rest, counts), counts, StepLog(st, aborted, op))
            == Ok(Outcome(st, aborted, [op] + rest, counts))
  {
    hide Hit, KeptTuple, Count, UndoAll, SameBut;
    var after, s := Outcome(Step(st, op), StepAborted(aborted, op), rest, counts), op.slot;
    var o := Outcome(st, aborted, [op] + rest, counts);
    OutcomeElsewhere(st, counts, aborted, op, rest, s);
    FrontStep(st, aborted, op, rest, counts, s);
    assert (s in after <==> s in st.heap) && (s in o <==> s in st.heap);
    assert s in o ==> o[s].tuple == after[s].tuple && (op.found ==> !o[s].deleted);
    assert s in o && !op.found ==> o[s] == after[s];
    hide Outcome;
    UndoSingle(after, counts, StepLog(st, aborted, op));
    if op.found && Marked(after, s) {
      PutSame(after, o, s, after[s].(deleted := false));
      SameEverywhere(after[s := after[s].(deleted := false)], o, s);
    } else {
      SameEverywhere(after, o, s);
    }
  }

  lemma {:induction false} UndoUpdate(st: Store, counts: Counts, aborted: bool, op: Op, rest: seq<Op>)
    requires op.UpdateTuple?
    ensures UndoAll(Outcome(Step(st, op), StepAborted(aborted, op), rest, counts), counts, StepLog(st, aborted, op))
            == Ok(Outcome(st, aborted, [op] + rest, counts))
  {
    hide Hit, KeptTuple, HasRoom, UndoAll, SameBut;
    var after, s := Outcome(Step(st, op), StepAborted(aborted, op), rest, counts), op.slot;
    var o := Outcome(st, aborted, [op] + rest, counts);
    assert ([op] + rest)[1..] == rest;
    OutcomeElsewhere(st, counts, aborted, op, rest, s);
    FrontStep(st, aborted, op, rest, counts, s);
    assert (s in after <==> s in st.heap) && (s in o <==> s in st.heap);
    assert s in o ==> o[s].deleted == after[s].deleted;
    UndoSingle(after, counts, StepLog(st, aborted, op));
    if LogsUpdate(st, aborted, op) && TakenBack(st, aborted, [op] + rest, counts) {
      assert o[s].tuple == st.heap[s].tuple && !after[s].deleted;
      hide Outcome;
      PutSame(after, o, s, after[s].(tuple := st.heap[s].tuple));
      SameEverywhere(after[s := after[s].(tuple := st.heap[s].tuple)], o, s);
    } else {
      assert s in o ==> o[s].tuple == after[s].tuple;
      hide Outcome;
      SameEverywhere(after, o, s);
    }
  }

  ghost predicate MarksWithin(counts: Counts, ops: seq<Op>) {
    forall s :: s in Marks(ops) ==> s.slot < Count(counts, s.at)
  }

  /** Undoing the first operation once the rest is undone. */
  lemma {:induction false} UndoFront(st: Store, counts: Counts, aborted: bool, op: Op, rest: seq<Op>)
    requires WellPlaced(st)
    ensures var r := UndoAll(Outcome(Step(st, op), StepAborted(aborted, op), rest, counts), counts,
                             StepLog(st, aborted, op));
            if op.MarkDelete? && op.found && op.slot.slot >= Count(counts, op.slot.at) then r.Err?
            else r == Ok(Outcome(st, aborted, [op] + rest, counts))
  {
    hide Outcome, UndoAll, WellPlaced, Step, StepLog, StepAborted, Count;
    match op
    case InsertTuple(_, _, _) => UndoInsert(st, counts, aborted, op, rest);
    case MarkDelete(s, found) =>
      if found && s.slot >= Count(counts, s.at) {
        UndoBeyond(Outcome(Step(st, op), StepAborted(aborted, op), rest, counts), counts, st, aborted, op);
      } else {
        UndoMark(st, counts, aborted, op, rest);
      }
    case UpdateTuple(_, _, _) => UndoUpdate(st, counts, aborted, op, rest);
  }

  lemma RunFront(st: Store, aborted: bool, op: Op, rest: seq<Op>)
    ensures Run(st, [op] + rest) == Run(Step(st, op), rest)
    ensures RunLog(st, aborted, [op] + rest)
            == StepLog(st, aborted, op) + RunLog(Step(st, op), StepAborted(aborted, op), rest)
  {
    hide Step, StepLog, StepAborted;
    assert ([op] + rest)[1..] == rest;
  }

  /** What Abort makes of the heap after any run.  It stops at an assertion exactly when a mark was attempted beyond
      the slots the pages have in the end; it never empties an empty slot. */
  lemma {:induction false} AbortOutcome(st: Store, counts: Counts, aborted: bool, ops: seq<Op>)
    requires WellPlaced(st)
    ensures var r := UndoAll(Run(st, ops).heap, counts, RunLog(st, aborted, ops));
            && (r.Ok? <==> MarksWithin(counts, ops))
            && (r.Ok? ==> r.value == Outcome(st, aborted, ops, counts))
    decreases |ops|
  {
    hide *;
    if ops == [] {
      NothingToUndo(st, counts, aborted);
    } else {
      var op, rest := ops[0], ops[1..];
      var st1, ab1 := Step(st, op), StepAborted(aborted, op);
      StepPlaced(st, op);
      AbortOutcome(st1, counts, ab1, rest);
      assert ops == [op] + rest;
      RunFront(st, aborted, op, rest);
      UndoConcat(Run(st1, rest).heap, counts, StepLog(st, aborted, op), RunLog(st1, ab1, rest));
      UndoFront(st, counts, aborted, op, rest);
      MarksWithinFront(counts, op, rest);
    }
  }

  lemma NothingToUndo(st: Store, counts: Counts, aborted: bool)
    ensures UndoAll(Run(st, []).heap, counts, RunLog(st, aborted, [])) == Ok(st.heap) && MarksWithin(counts, [])
    ensures Outcome(st, aborted, [], counts) == st.heap
  {
  }

  lemma MarksWithinFront(counts: Counts, op: Op, rest: seq<Op>)
    ensures MarksWithin(counts, [op] + rest)
            <==> !(op.MarkDelete? && op.found && op.slot.slot >= Count(counts, op.slot.at)) && MarksWithin(counts, rest)
  {
    hide Marks, Count;
    MarksFront(op, rest);
  }

  lemma UndoBeyond(after: Heap, counts: Counts, st: Store, aborted: bool, op: Op)
    requires op.MarkDelete? && op.found && op.slot.slot >= Count(counts, op.slot.at)
    ensures UndoAll(after, counts, StepLog(st, aborted, op)).Err?
  {
    UndoSingle(after, counts, StepLog(st, aborted, op));
  }

  lemma MarksFront(op: Op, rest: seq<Op>)
    ensures forall s :: s in Marks([op] + rest) <==> (op.MarkDelete? && op.found && op.slot == s) || s in Marks(rest)
  {
    assert ([op] + rest)[1..] == rest;
  }

  ghost predicate NoMarkedHit(h: Heap, ops: seq<Op>) {
    forall s :: Marked(h, s) ==> !Hit(ops, s)
  }

  /** Every slot of Begin ends with its tuple: its first update that is logged and taken back, if it has any. */
  ghost predicate TuplesKept(st: Store, aborted: bool, ops: seq<Op>, counts: Counts) {
    forall s :: s in st.heap ==> KeptTuple(st, aborted, ops, counts, s) == st.heap[s].tuple
  }

  /** Abort restores the heap held at Begin exactly when no mark was attempted on a slot already marked then, or
      beyond a page's slots, and every slot keeps its tuple. */
  lemma AbortRestoresExactly(st: Store, ops: seq<Op>)
    requires WellPlaced(st)
    ensures var end := Run(st, ops);
            UndoAll(end.heap, end.counts, RunLog(st, false, ops)) == Ok(st.heap)
            <==> NoMarkedHit(st.heap, ops) && MarksWithin(end.counts, ops) && TuplesKept(st, false, ops, end.counts)
  {
    var counts := Run(st, ops).counts;
    AbortOutcome(st, counts, false, ops);
    var c := Outcome(st, false, ops, counts);
    hide KeptTuple, Hit, Marks, Run, WellPlaced;
    if c == st.heap {
      forall s | s in st.heap
        ensures (Marked(st.heap, s) ==> !Hit(ops, s)) && KeptTuple(st, false, ops, counts, s) == st.heap[s].tuple
      {
        assert c[s] == st.heap[s];
      }
    } else if NoMarkedHit(st.heap, ops) && TuplesKept(st, false, ops, counts) {
      forall s | s in st.heap ensures c[s] == st.heap[s] {
        assert Marked(st.heap, s) ==> !Hit(ops, s);
      }
    }
  }

  // ---------------------------------------------------------------- room for the undone updates

  /** No tuple is updated once the transaction is in the ABORTED state. */
  predicate Disciplined(st: Store, aborted: bool, ops: seq<Op>)
    decreases |ops|
  {
    ops == []
    || (!(ops[0].UpdateTuple? && aborted && Succeeds(st, ops[0]))
        && Disciplined(Step(st, ops[0]), StepAborted(aborted, ops[0]), ops[1..]))
  }

  /** The operation is an update that gets a record. */
  predicate LogsUpdate(st: Store, aborted: bool, op: Op) {
    op.UpdateTuple? && Succeeds(st, op) && !aborted
  }

  /** Just before every logged update the page has the bytes of the slots it gains afterwards. */
  predicate RoomKept(st: Store, aborted: bool, ops: seq<Op>, counts: Counts)
    decreases |ops|
  {
    ops == []
    || ((LogsUpdate(st, aborted, ops[0]) ==>
           var p := ops[0].slot.at;
           Free(st.heap, st.counts, p) >= SLOT_SIZE * (Count(counts, p) - Count(st.counts, p)))
        && RoomKept(Step(st, ops[0]), StepAborted(aborted, ops[0]), ops[1..], counts))
  }

  /** Undoing takes back every logged update. */
  predicate AllTakenBack(st: Store, aborted: bool, ops: seq<Op>, counts: Counts)
    decreases |ops|
  {
    ops == []
    || ((LogsUpdate(st, aborted, ops[0]) ==> TakenBack(st, aborted, ops, counts))
        && AllTakenBack(Step(st, ops[0]), StepAborted(aborted, ops[0]), ops[1..], counts))
  }

  /** The two heaps have tuples of the same sizes in the page's first `n` slots. */
  ghost predicate SameSizes(a: Heap, b: Heap, p: PageId) {
    forall i :: SizeAt(a, Slot(p, i)) == SizeAt(b, Slot(p, i))
  }

  lemma {:induction false} UsedAlike(a: Heap, b: Heap, p: PageId, n: nat)
    requires SameSizes(a, b, p)
    ensures Used(a, p, n) == Used(b, p, n)
  {
    if n > 0 {
      UsedAlike(a, b, p, n - 1);
    }
  }

  lemma {:induction false} UsedBeyond(st: Store, p: PageId, n: nat)
    requires WellPlaced(st) && n >= Count(st.counts, p)
    ensures Used(st.heap, p, n) == Used(st.heap, p, Count(st.counts, p))
  {
    if n > Count(st.counts, p) {
      UsedBeyond(st, p, n - 1);
    }
  }

  /** Replacing one tuple changes the used bytes by the difference of the sizes. */
  lemma {:induction false} UsedReplace(h: Heap, s: Slot, e: Entry, n: nat)
    ensures Used(h[s := e], s.at, n)
            == Used(h, s.at, n) + (if s.slot < n then e.tuple.size - SizeAt(h, s) else 0)
  {
    if n > 0 {
      UsedReplace(h, s, e, n - 1);
    }
  }

  /** Every slot of `st` holds the tuple of `st` in `h`. */
  ghost predicate HoldsTuples(st: Store, h: Heap) {
    h.Keys == st.heap.Keys && forall s :: s in h ==> h[s].tuple == st.heap[s].tuple
  }

  /** Over heaps with the tuples that followed the update there is room to take it back exactly when there was room
      for the later slots before it. */
  lemma RoomBefore(st: Store, op: Op, after: Heap, counts: Counts)
    requires WellPlaced(st) && op.UpdateTuple? && Succeeds(st, op) && HoldsTuples(Step(st, op), after)
    requires Count(counts, op.slot.at) >= Count(st.counts, op.slot.at)
    ensures HasRoom(after, counts, op.slot, st.heap[op.slot].tuple)
            <==> Free(st.heap, st.counts, op.slot.at)
                 >= SLOT_SIZE * (Count(counts, op.slot.at) - Count(st.counts, op.slot.at))
  {
    var s, p := op.slot, op.slot.at;
    var n := Count(counts, p);
    assert SameSizes(after, Step(st, op).heap, p);
    UsedAlike(after, Step(st, op).heap, p, n);
    UsedReplace(st.heap, s, st.heap[s].(tuple := op.tuple), n);
    UsedBeyond(st, p, n);
  }

  /** If all updates are taken back, Abort leaves the tuples of Begin. */
  lemma {:induction false} TakenBackKeeps(st: Store, aborted: bool, ops: seq<Op>, counts: Counts)
    requires WellPlaced(st) && Disciplined(st, aborted, ops) && AllTakenBack(st, aborted, ops, counts)
    ensures TuplesKept(st, aborted, ops, counts) && HoldsTuples(st, Outcome(st, aborted, ops, counts))
    decreases |ops|
  {
    if ops != [] {
      hide TakenBack, Outcome;
      var op, rest := ops[0], ops[1..];
      var st1, ab1 := Step(st, op), StepAborted(aborted, op);
      StepPlaced(st, op);
      TakenBackKeeps(st1, ab1, rest, counts);
      assert ops == [op] + rest;
      forall s | s in st.heap ensures KeptTuple(st, aborted, ops, counts, s) == st.heap[s].tuple {
        FrontStep(st, aborted, op, rest, counts, s);
        if !Rewrites(st, op, s) {
          assert s in st1.heap && st1.heap[s].tuple == st.heap[s].tuple by { OtherTuple(st, op, s); }
        }
      }
    }
    OutcomeHolds(st, aborted, ops, counts);
  }

  lemma OtherTuple(st: Store, op: Op, s: Slot)
    requires WellPlaced(st) && s in st.heap && !Rewrites(st, op, s)
    ensures s in Step(st, op).heap && Step(st, op).heap[s].tuple == st.heap[s].tuple
  {
  }

  lemma OutcomeHolds(st: Store, aborted: bool, ops: seq<Op>, counts: Counts)
    requires TuplesKept(st, aborted, ops, counts)
    ensures HoldsTuples(st, Outcome(st, aborted, ops, counts))
  {
    hide KeptTuple;
  }

  /** In a run that stops updating when the transaction fails, every logged update is taken back if and only if its
      page had room, just before it, for the slots the page gains afterwards. */
  lemma {:induction false} TakenBackExactly(st: Store, aborted: bool, ops: seq<Op>, counts: Counts)
    requires WellPlaced(st) && Disciplined(st, aborted, ops)
    requires forall p :: Count(counts, p) >= Count(Run(st, ops).counts, p)
    ensures AllTakenBack(st, aborted, ops, counts) <==> RoomKept(st, aborted, ops, counts)
    decreases |ops|
  {
    if ops != [] {
      hide Outcome, Succeeds, Step, WellPlaced, HasRoom, Free, Count, HoldsTuples;
      var op, rest := ops[0], ops[1..];
      var st1, ab1 := Step(st, op), StepAborted(aborted, op);
      StepPlaced(st, op);
      TakenBackExactly(st1, ab1, rest, counts);
      if LogsUpdate(st, aborted, op) && AllTakenBack(st1, ab1, rest, counts) {
        TakenBackKeeps(st1, ab1, rest, counts);
        RunPlaced(st, ops);
        RoomBefore(st, op, Outcome(st1, ab1, rest, counts), counts);
      }
    }
  }

  /** In any run: a logged update is taken back exactly when the free bytes just before it, plus what the page's other
      tuples have shrunk by when its turn comes, make up for the slots the page gains afterwards. */
  lemma TakenBackBytes(st: Store, aborted: bool, ops: seq<Op>, counts: Counts)
    requires WellPlaced(st) && ops != [] && LogsUpdate(st, aborted, ops[0])
    requires Count(counts, ops[0].slot.at) >= Count(st.counts, ops[0].slot.at)
    ensures var s, p, n := ops[0].slot, ops[0].slot.at, Count(counts, ops[0].slot.at);
            var after := Outcome(Step(st, ops[0]), StepAborted(aborted, ops[0]), ops[1..], counts);
            TakenBack(st, aborted, ops, counts)
            <==> Free(st.heap, st.counts, p)
                 + (Used(st.heap, p, n) - SizeAt(st.heap, s)) - (Used(after, p, n) - SizeAt(after, s))
                 >= SLOT_SIZE * (n - Count(st.counts, p))
  {
    hide Outcome, Used;
    UsedBeyond(st, ops[0].slot.at, Count(counts, ops[0].slot.at));
  }

  /** With that room, only marks can keep Abort from restoring the heap. */
  lemma RoomRestores(st: Store, ops: seq<Op>)
    requires WellPlaced(st) && Disciplined(st, false, ops) && RoomKept(st, false, ops, Run(st, ops).counts)
    ensures var end := Run(st, ops);
            UndoAll(end.heap, end.counts, RunLog(st, false, ops)) == Ok(st.heap)
            <==> NoMarkedHit(st.heap, ops) && MarksWithin(end.counts, ops)
  {
    hide Run, RunLog, UndoAll, NoMarkedHit, MarksWithin, TuplesKept, Count, Disciplined, RoomKept, WellPlaced,
      HoldsTuples;
    var counts := Run(st, ops).counts;
    TakenBackExactly(st, false, ops, counts);
    TakenBackKeeps(st, false, ops, counts);
    AbortRestoresExactly(st, ops);
  }

  // ---------------------------------------------------------------- pages never overflow

  /** No tuple lies beyond its page's slots, and no page is overfull. */
  ghost predicate StoreOk(st: Store) {
    WellPlaced(st) && forall p :: Free(st.heap, st.counts, p) >= 0
  }

  lemma {:induction false} UsedBut(a: Heap, b: Heap, s: Slot, p: PageId, n: nat)
    requires SameBut(a, b, s)
    ensures Used(b, p, n) == Used(a, p, n) + if s.at == p && s.slot < n then SizeAt(b, s) - SizeAt(a, s) else 0
  {
    if n > 0 {
      UsedBut(a, b, s, p, n - 1);
    }
  }

  lemma InsertFits(st: Store, op: Op, p: PageId)
    requires StoreOk(st) && op.InsertTuple? && Succeeds(st, op)
    ensures Free(Step(st, op).heap, Step(st, op).counts, p) >= 0
  {
    var s, n := Target(st, op.page), Count(Step(st, op).counts, p);
    TargetEmpty(st, op.page);
    assert SameBut(st.heap, Step(st, op).heap, s);
    assert Free(st.heap, st.counts, p) >= 0;
    UsedBut(st.heap, Step(st, op).heap, s, p, n);
    UsedBeyond(st, p, n);
  }

  lemma SlotFits(st: Store, op: Op, p: PageId)
    requires StoreOk(st) && !op.InsertTuple?
    ensures Free(Step(st, op).heap, Step(st, op).counts, p) >= 0
  {
    assert SameBut(st.heap, Step(st, op).heap, op.slot);
    assert Free(st.heap, st.counts, p) >= 0;
    UsedBut(st.heap, Step(st, op).heap, op.slot, p, Count(st.counts, p));
  }

  /** The page's slots before the `i`-th are taken and the `i`-th is not. */
  ghost predicate LeastEmpty(h: Heap, p: PageId, i: nat) {
    Slot(p, i) !in h && forall j: nat :: j < i ==> Slot(p, j) in h
  }

  lemma TargetLeast(st: Store, p: PageId)
    requires WellPlaced(st)
    ensures Target(st, p).at == p && LeastEmpty(st.heap, p, Target(st, p).slot)
  {
    TargetEmpty(st, p);
  }

  lemma InsertBytes(st: Store, op: Op)
    requires WellPlaced(st) && op.InsertTuple? && Succeeds(st, op)
    ensures var after, i := Step(st, op), Target(st, op.page).slot;
            Free(after.heap, after.counts, op.page)
            == Free(st.heap, st.counts, op.page) - op.tuple.size - if i == Count(st.counts, op.page) then 8 else 0
  {
    var s, after := Target(st, op.page), Step(st, op);
    TargetEmpty(st, op.page);
    var n := Count(after.counts, op.page);
    UsedBut(st.heap, after.heap, s, op.page, n);
    UsedBeyond(st, op.page, n);
  }

  lemma InsertSucceeds(st: Store, op: Op)
    requires op.InsertTuple?
    ensures Succeeds(st, op) <==> && op.room && op.tuple.size <= 4064
                                  && op.tuple.size + 8 <= Free(st.heap, st.counts, op.page)
    ensures Free(st.heap, st.counts, op.page)
            == 4096 - 24 - 8 * Count(st.counts, op.page) - Used(st.heap, op.page, Count(st.counts, op.page))
  {
  }

  /** An insert succeeds exactly when the tuple with its slot fits, takes the least empty slot of the page, and uses up
      the tuple's bytes, and a slot's if there was no empty one. */
  lemma InsertIs(st: Store, op: Op, aborted: bool) returns (i: nat)
    requires StoreOk(st) && op.InsertTuple?
    ensures Succeeds(st, op) <==> && op.room && op.tuple.size <= 4064
                                  && op.tuple.size + 8 <= Free(st.heap, st.counts, op.page)
    ensures Free(st.heap, st.counts, op.page)
            == 4096 - 24 - 8 * Count(st.counts, op.page) - Used(st.heap, op.page, Count(st.counts, op.page))
    ensures !Succeeds(st, op) ==> Step(st, op) == st && StepLog(st, aborted, op) == []
    ensures Succeeds(st, op) ==>
              var after, s := Step(st, op), Slot(op.page, i);
              && LeastEmpty(st.heap, op.page, i) && after.heap == st.heap[s := Entry(op.tuple, false)]
              && StepLog(st, aborted, op) == [Inserted(s)]
              && Free(after.heap, after.counts, op.page)
                 == Free(st.heap, st.counts, op.page) - op.tuple.size
                    - if i == Count(st.counts, op.page) then 8 else 0
  {
    hide Free, LeastEmpty, Target;
    i := Target(st, op.page).slot;
    InsertSucceeds(st, op);
    TargetLeast(st, op.page);
    if Succeeds(st, op) {
      InsertBytes(st, op);
    }
  }

  /** Marking and updating touch one slot: a live tuple is marked, or replaced if the page has room for the
      difference. */
  lemma SlotIs(st: Store, t: Tuple, s: Slot, found: bool)
    ensures var mark := Step(st, MarkDelete(s, found));
            && mark.counts == st.counts && SameBut(st.heap, mark.heap, s) && (s in mark.heap <==> s in st.heap)
            && (s in st.heap ==> mark.heap[s] == Entry(st.heap[s].tuple, st.heap[s].deleted || found))
    ensures var op := UpdateTuple(t, s, found);
            var update := Step(st, op);
            && (Succeeds(st, op) <==> && found && s in st.heap && !st.heap[s].deleted
                                      && t.size <= Free(st.heap, st.counts, s.at) + st.heap[s].tuple.size)
            && update.counts == st.counts && SameBut(st.heap, update.heap, s) && (s in update.heap <==> s in st.heap)
            && (s in st.heap ==> update.heap[s] == if Succeeds(st, op) then Entry(t, false) else st.heap[s])
  {
  }

  /** Every operation keeps the pages in order. */
  lemma StepOk(st: Store, op: Op)
    requires StoreOk(st)
    ensures StoreOk(Step(st, op))
  {
    hide Free;
    StepPlaced(st, op);
    forall p ensures Free(Step(st, op).heap, Step(st, op).counts, p) >= 0 {
      if !op.InsertTuple? {
        SlotFits(st, op, p);
      } else if Succeeds(st, op) {
        InsertFits(st, op, p);
      }
    }
  }

  lemma {:induction false} RunOk(st: Store, ops: seq<Op>)
    requires StoreOk(st)
    ensures StoreOk(Run(st, ops))
    decreases |ops|
  {
    if ops != [] {
      hide StoreOk, Step;
      StepOk(st, ops[0]);
      RunOk(Step(st, ops[0]), ops[1..]);
    }
  }

  lemma FreeBut(a: Heap, b: Heap, s: Slot, counts: Counts, p: PageId)
    requires SameBut(a, b, s)
    ensures Free(b, counts, p)
            == Free(a, counts, p) - if s.at == p && s.slot < Count(counts, p) then SizeAt(b, s) - SizeAt(a, s) else 0
  {
    UsedBut(a, b, s, p, Count(counts, p));
  }

  /** Nor does undoing overfill a page. */
  lemma {:induction false} OutcomeFits(st: Store, aborted: bool, ops: seq<Op>, counts: Counts, p: PageId)
    requires WellPlaced(st) && Free(Run(st, ops).heap, counts, p) >= 0
    ensures Free(Outcome(st, aborted, ops, counts), counts, p) >= 0
    decreases |ops|
  {
    if ops == [] {
      assert Outcome(st, aborted, ops, counts) == st.heap;
    } else {
      var op, rest := ops[0], ops[1..];
      var st1, ab1 := Step(st, op), StepAborted(aborted, op);
      StepPlaced(st, op);
      OutcomeFits(st1, ab1, rest, counts, p);
      assert ops == [op] + rest;
      UndoneFits(st, aborted, op, rest, counts, p);
    }
  }

  lemma {:induction false} UndoneFits(st: Store, aborted: bool, op: Op, rest: seq<Op>, counts: Counts, p: PageId)
    requires WellPlaced(st)
    requires Free(Outcome(Step(st, op), StepAborted(aborted, op), rest, counts), counts, p) >= 0
    ensures Free(Outcome(st, aborted, [op] + rest, counts), counts, p) >= 0
  {
    hide Used, Hit, KeptTuple, Count, WellPlaced, SameBut, Target;
    var after := Outcome(Step(st, op), StepAborted(aborted, op), rest, counts);
    var o := Outcome(st, aborted, [op] + rest, counts);
    var s := if op.InsertTuple? then Target(st, op.page) else op.slot;
    OutcomeElsewhere(st, counts, aborted, op, rest, s);
    FreeBut(after, o, s, counts, p);
    FrontStep(st, aborted, op, rest, counts, s);
    assert ([op] + rest)[1..] == rest;
    if op.InsertTuple? {
      TargetEmpty(st, op.page);
      assert SizeAt(o, s) == 0;
    } else if s in st.heap && Rewrites(st, op, s) && !aborted && TakenBack(st, aborted, [op] + rest, counts) {
      assert SizeAt(o, s) == st.heap[s].tuple.size;
    } else {
      assert SizeAt(o, s) == SizeAt(after, s);
    }
  }

  // ---------------------------------------------------------------- runs that update a tuple at most once

  /** The slots of the run's updates, in order. */
  function UpdatesOf(st: Store, ops: seq<Op>): seq<Slot>
    decreases |ops|
  {
    if ops == [] then []
    else (if ops[0].UpdateTuple? && Succeeds(st, ops[0]) then [ops[0].slot] else [])
         + UpdatesOf(Step(st, ops[0]), ops[1..])
  }

  /** Different slots, all of them filled at the start. */
  ghost predicate OnceEach(st: Store, ops: seq<Op>) {
    Distinct(UpdatesOf(st, ops)) && forall s :: s in UpdatesOf(st, ops) ==> s in st.heap
  }

  lemma {:induction false} NotUpdated(st: Store, aborted: bool, ops: seq<Op>, counts: Counts, s: Slot)
    requires WellPlaced(st) && s in st.heap && s !in UpdatesOf(st, ops)
    ensures KeptTuple(st, aborted, ops, counts, s) == st.heap[s].tuple
    decreases |ops|
  {
    if ops != [] {
      hide TakenBack, HasRoom;
      StepPlaced(st, ops[0]);
      OtherTuple(st, ops[0], s);
      NotUpdated(Step(st, ops[0]), StepAborted(aborted, ops[0]), ops[1..], counts, s);
    }
  }

  lemma OnceRest(st: Store, ops: seq<Op>)
    requires OnceEach(st, ops) && ops != []
    ensures OnceEach(Step(st, ops[0]), ops[1..])
    ensures ops[0].UpdateTuple? && Succeeds(st, ops[0]) ==> ops[0].slot !in UpdatesOf(Step(st, ops[0]), ops[1..])
    ensures ops[0].InsertTuple? && Target(st, ops[0].page) !in st.heap
            ==> Target(st, ops[0].page) !in UpdatesOf(Step(st, ops[0]), ops[1..])
  {
    hide HasRoom, Target;
    var rest := UpdatesOf(Step(st, ops[0]), ops[1..]);
    if ops[0].UpdateTuple? && Succeeds(st, ops[0]) {
      assert UpdatesOf(st, ops) == [ops[0].slot] + rest;
      DistinctCons(ops[0].slot, rest);
    } else {
      assert UpdatesOf(st, ops) == rest;
    }
    forall s | s in rest ensures s in st.heap && s in Step(st, ops[0]).heap {
      assert s in UpdatesOf(st, ops);
    }
  }

  /** An update that is not taken back shows: the tuple left is smaller. */
  lemma {:induction false} RefusalShows(st: Store, aborted: bool, ops: seq<Op>, counts: Counts)
    requires WellPlaced(st) && ops != [] && LogsUpdate(st, aborted, ops[0])
    requires !TakenBack(st, aborted, ops, counts) && ops[0].slot !in UpdatesOf(Step(st, ops[0]), ops[1..])
    requires Free(Run(st, ops).heap, counts, ops[0].slot.at) >= 0
    ensures KeptTuple(st, aborted, ops, counts, ops[0].slot) != st.heap[ops[0].slot].tuple
  {
    hide Free, Count;
    var op, rest := ops[0], ops[1..];
    var st1, ab1, s := Step(st, op), StepAborted(aborted, op), op.slot;
    StepPlaced(st, op);
    OutcomeFits(st1, ab1, rest, counts, s.at);
    NotUpdated(st1, ab1, rest, counts, s);
  }

  /** Where no slot is updated twice, keeping every tuple takes every update's being taken back. */
  lemma {:induction false} KeptTakesBack(st: Store, aborted: bool, ops: seq<Op>, counts: Counts)
    requires WellPlaced(st) && OnceEach(st, ops) && TuplesKept(st, aborted, ops, counts)
    requires forall p :: Free(Run(st, ops).heap, counts, p) >= 0
    ensures AllTakenBack(st, aborted, ops, counts)
    decreases |ops|
  {
    if ops != [] {
      hide TakenBack, HasRoom, Free, OnceEach, Outcome;
      var op, rest := ops[0], ops[1..];
      var st1, ab1 := Step(st, op), StepAborted(aborted, op);
      StepPlaced(st, op);
      OnceRest(st, ops);
      if LogsUpdate(st, aborted, op) && !TakenBack(st, aborted, ops, counts) {
        RefusalShows(st, aborted, ops, counts);
      }
      assert TuplesKept(st1, ab1, rest, counts) by { KeptRest(st, aborted, ops, counts); }
      assert Run(st, ops) == Run(st1, rest);
      KeptTakesBack(st1, ab1, rest, counts);
    }
  }

  lemma {:induction false} KeptRest(st: Store, aborted: bool, ops: seq<Op>, counts: Counts)
    requires WellPlaced(st) && OnceEach(st, ops) && TuplesKept(st, aborted, ops, counts) && ops != []
    ensures TuplesKept(Step(st, ops[0]), StepAborted(aborted, ops[0]), ops[1..], counts)
  {
    hide TakenBack, HasRoom, Free, OnceEach, Target;
    var op, rest := ops[0], ops[1..];
    var st1, ab1 := Step(st, op), StepAborted(aborted, op);
    StepPlaced(st, op);
    OnceRest(st, ops);
    forall s | s in st1.heap ensures KeptTuple(st1, ab1, rest, counts, s) == st1.heap[s].tuple {
      if s !in st.heap {
        NotUpdated(st1, ab1, rest, counts, s);
      } else if Rewrites(st, op, s) {
        NotUpdated(st1, ab1, rest, counts, s);
      } else {
        OtherTuple(st, op, s);
      }
    }
  }

  /** For a client that stops updating when the transaction fails and updates no tuple twice, Abort restores the heap
      exactly when no mark was attempted on a slot already marked or beyond a page's slots, and just before every
      update the page had room for the slots it gained afterwards. */
  lemma AbortRestoresIffRoom(st: Store, ops: seq<Op>)
    requires StoreOk(st) && Disciplined(st, false, ops) && OnceEach(st, ops)
    ensures var end := Run(st, ops);
            UndoAll(end.heap, end.counts, RunLog(st, false, ops)) == Ok(st.heap)
            <==> && NoMarkedHit(st.heap, ops) && MarksWithin(end.counts, ops)
                 && RoomKept(st, false, ops, end.counts)
  {
    var counts := Run(st, ops).counts;
    RunOk(st, ops);
    assert WellPlaced(st) && forall p :: Free(Run(st, ops).heap, counts, p) >= 0;
    hide Run, RunLog, UndoAll, NoMarkedHit, MarksWithin, TuplesKept, Count, Disciplined, RoomKept, WellPlaced, OnceEach,
      StoreOk, Free;
    AbortRestoresExactly(st, ops);
    TakenBackExactly(st, false, ops, counts);
    if TuplesKept(st, false, ops, counts) {
      KeptTakesBack(st, false, ops, counts);
    } else if RoomKept(st, false, ops, counts) {
      TakenBackKeeps(st, false, ops, counts);
    }
  }

  // ---------------------------------------------------------------- runs that are not undone

  const PAGE := PageId(0, 0)

  /** A tuple of that many bytes. */
  function Sized(n: nat): Tuple
    requires n > 0
  {
    TupleData([], n)
  }

  /** Three slots of a page with tuples of these sizes. */
  function Triple(a: nat, b: nat, c: nat): Heap
    requires a > 0 && b > 0 && c > 0
  {
    map[Slot(PAGE, 0) := Entry(Sized(a), false), Slot(PAGE, 1) := Entry(Sized(b), false),
        Slot(PAGE, 2) := Entry(Sized(c), false)]
  }

  lemma TripleUsed(a: nat, b: nat, c: nat)
    requires a > 0 && b > 0 && c > 0
    ensures Used(Triple(a, b, c), PAGE, 3) == a + b + c && Used(Triple(a, b, c), PAGE, 4) == a + b + c
  {
    var h := Triple(a, b, c);
    assert SizeAt(h, Slot(PAGE, 0)) == a && SizeAt(h, Slot(PAGE, 1)) == b && SizeAt(h, Slot(PAGE, 2)) == c;
    assert SizeAt(h, Slot(PAGE, 3)) == 0;
    assert Used(h, PAGE, 1) == a && Used(h, PAGE, 2) == a + b && Used(h, PAGE, 3) == a + b + c;
  }

  /** Room in a page with these three tuples. */
  lemma TripleRoom(a: nat, b: nat, c: nat, counts: Counts, i: nat, n: nat)
    requires a > 0 && b > 0 && c > 0 && i < 3 && n > 0 && 3 <= Count(counts, PAGE) <= 4
    ensures Free(Triple(a, b, c), counts, PAGE) == PAGE_ROOM - SLOT_SIZE * Count(counts, PAGE) - a - b - c
    ensures HasRoom(Triple(a, b, c), counts, Slot(PAGE, i), Sized(n))
            <==> PAGE_ROOM - SLOT_SIZE * Count(counts, PAGE) - a - b - c + [a, b, c][i] >= n
  {
    TripleUsed(a, b, c);
  }

  lemma TripleInsert(a: nat, b: nat, c: nat, n: nat)
    requires a > 0 && b > 0 && c > 0 && n > 0
    requires a + b + c + n + 4 * SLOT_SIZE <= PAGE_ROOM && FitsAPage(Sized(n))
    ensures var st, op := Store(Triple(a, b, c), map[PAGE := 3]), InsertTuple(Sized(n), PAGE, true);
            && Succeeds(st, op) && Target(st, PAGE) == Slot(PAGE, 3)
            && Step(st, op) == Store(Triple(a, b, c)[Slot(PAGE, 3) := Entry(Sized(n), false)], map[PAGE := 4])
            && Step(st, op).heap - {Slot(PAGE, 3)} == Triple(a, b, c)
  {
    var st := Store(Triple(a, b, c), map[PAGE := 3]);
    TripleRoom(a, b, c, st.counts, 0, n);
    assert Slot(PAGE, 0) in st.heap && Slot(PAGE, 1) in st.heap && Slot(PAGE, 2) in st.heap;
    assert Slot(PAGE, 3) !in st.heap;
  }

  lemma TripleUpdate(a: nat, b: nat, c: nat, counts: Counts, i: nat, n: nat)
    requires a > 0 && b > 0 && c > 0 && i < 3 && n > 0 && 3 <= Count(counts, PAGE) <= 4
    ensures var st, op := Store(Triple(a, b, c), counts), UpdateTuple(Sized(n), Slot(PAGE, i), true);
            var room := PAGE_ROOM - SLOT_SIZE * Count(counts, PAGE) - a - b - c + [a, b, c][i] >= n;
            var after := Triple(if i == 0 then n else a, if i == 1 then n else b, if i == 2 then n else c);
            && Succeeds(st, op) == room && (room ==> Step(st, op) == Store(after, counts))
            && UndoOne(st.heap, counts, Updated(Slot(PAGE, i), Sized(n))) == Ok(if room then after else st.heap)
  {
    TripleRoom(a, b, c, counts, i, n);
    var h := Triple(a, b, c);
    var after := Triple(if i == 0 then n else a, if i == 1 then n else b, if i == 2 then n else c);
    assert h[Slot(PAGE, i) := h[Slot(PAGE, i)].(tuple := Sized(n))] == after;
  }

  lemma UndoLast(h: Heap, counts: Counts, front: seq<TableWrite>, w: TableWrite)
    ensures var r := UndoOne(h, counts, w);
            UndoAll(h, counts, front + [w]) == if r.Err? then r else UndoAll(r.value, counts, front)
  {
    assert (front + [w])[|front|] == w && (front + [w])[..|front|] == front;
  }

  /** On a page with 4 free bytes a tuple shrinks from 60 to 30 bytes and 26 bytes are inserted into a new slot.  Abort
      empties the slot but does not give it back: 26 + 30 bytes are too few, and the tuple stays as updated. */
  lemma {:induction false} FullPageKeepsUpdate()
    ensures var st := Store(Triple(60, 1, 3983), map[PAGE := 3]);
            var ops := [UpdateTuple(Sized(30), Slot(PAGE, 0), true), InsertTuple(Sized(26), PAGE, true)];
            var end := Run(st, ops);
            && Free(st.heap, st.counts, PAGE) == 4 && Disciplined(st, false, ops) && Marks(ops) == []
            && UndoAll(end.heap, end.counts, RunLog(st, false, ops)) == Ok(Triple(30, 1, 3983)) != Ok(st.heap)
  {
    var st := Store(Triple(60, 1, 3983), map[PAGE := 3]);
    var up, ins := UpdateTuple(Sized(30), Slot(PAGE, 0), true), InsertTuple(Sized(26), PAGE, true);
    TripleRoom(60, 1, 3983, st.counts, 0, 30);
    TripleUpdate(60, 1, 3983, st.counts, 0, 30);
    var st1 := Store(Triple(30, 1, 3983), map[PAGE := 3]);
    TripleInsert(30, 1, 3983, 26);
    var st2 := Step(st1, ins);
    TripleUpdate(30, 1, 3983, st2.counts, 0, 60);
    assert Triple(30, 1, 3983)[Slot(PAGE, 0)] != st.heap[Slot(PAGE, 0)];
    var log := [Updated(Slot(PAGE, 0), Sized(60)), Inserted(Slot(PAGE, 3))];
    assert StepLog(st, false, up) == [log[0]] && StepLog(st1, false, ins) == [log[1]];
    hide Triple, Step, Succeeds, UndoOne, Free, StepLog, Target, Disciplined, Run, RunLog, Marks;
    TwoOps(st, up, ins);
    assert RunLog(st, false, [up, ins]) == [log[0]] + [log[1]] == log;
    UndoLast(st2.heap, st2.counts, [log[0]], log[1]);
    UndoSingle(st1.heap, st2.counts, [log[0]]);
  }

  /** Where a tuple is updated twice, Abort can restore a heap although one of its steps is refused: the tuple that was
      not taken back at first left the other one its room, and the earlier record puts it right. */
  lemma {:induction false} RefusedYetRestored()
    ensures var st := Store(Triple(10, 50, 3968), map[PAGE := 3]);
            var ops := [UpdateTuple(Sized(25), Slot(PAGE, 0), true), UpdateTuple(Sized(49), Slot(PAGE, 1), true),
                        UpdateTuple(Sized(10), Slot(PAGE, 0), true), InsertTuple(Sized(1), PAGE, true)];
            var end := Run(st, ops);
            && !RoomKept(st, false, ops, end.counts)
            && UndoAll(end.heap, end.counts, RunLog(st, false, ops)) == Ok(st.heap)
  {
    var s0, s1 := Slot(PAGE, 0), Slot(PAGE, 1);
    var a, b, c := UpdateTuple(Sized(25), s0, true), UpdateTuple(Sized(49), s1, true), UpdateTuple(Sized(10), s0, true);
    var d, cs := InsertTuple(Sized(1), PAGE, true), map[PAGE := 3];
    var st := Store(Triple(10, 50, 3968), cs);
    TripleUpdate(10, 50, 3968, cs, 0, 25);
    var st1 := Store(Triple(25, 50, 3968), cs);
    TripleRoom(25, 50, 3968, cs, 0, 1);
    TripleUpdate(25, 50, 3968, cs, 1, 49);
    var st2 := Store(Triple(25, 49, 3968), cs);
    TripleUpdate(25, 49, 3968, cs, 0, 10);
    var st3 := Store(Triple(10, 49, 3968), cs);
    TripleInsert(10, 49, 3968, 1);
    var st4 := Step(st3, d);
    TripleUpdate(10, 49, 3968, st4.counts, 0, 25);
    TripleUpdate(10, 49, 3968, st4.counts, 1, 50);
    TripleUpdate(10, 50, 3968, st4.counts, 0, 10);
    var log := [Updated(s0, Sized(10)), Updated(s1, Sized(50)), Updated(s0, Sized(25)), Inserted(Slot(PAGE, 3))];
    assert StepLog(st, false, a) == [log[0]] && StepLog(st1, false, b) == [log[1]];
    assert StepLog(st2, false, c) == [log[2]] && StepLog(st3, false, d) == [log[3]];
    assert UndoOne(st4.heap, st4.counts, log[3]) == Ok(st3.heap);
    hide Triple, Step, Succeeds, UndoOne, Free, StepLog, Target, RoomKept;
    var ops := [a, b, c, d];
    FourOps(st, a, b, c, d);
    assert RunLog(st, false, ops) == log;
    UndoLast(st4.heap, st4.counts, log[..3], log[3]);
    assert log[..3] + [log[3]] == log && log[..2] + [log[2]] == log[..3] && log[..1] + [log[1]] == log[..2];
    UndoLast(st3.heap, st4.counts, log[..2], log[2]);
    UndoLast(st3.heap, st4.counts, log[..1], log[1]);
    UndoSingle(Triple(10, 50, 3968), st4.counts, log[..1]);
    NoRoomAtSecond(st, ops, st4.counts);
  }

  lemma TwoOps(st: Store, a: Op, b: Op)
    requires !StepAborted(false, a)
    ensures Run(st, [a, b]) == Step(Step(st, a), b) && Disciplined(st, false, [a, b])
    ensures RunLog(st, false, [a, b]) == StepLog(st, false, a) + StepLog(Step(st, a), false, b)
    ensures !a.MarkDelete? && !b.MarkDelete? ==> Marks([a, b]) == []
  {
    hide Step, StepLog, Succeeds;
    assert [a] + [b] == [a, b] && [b] + [] == [b];
    RunFront(st, false, a, [b]);
    RunFront(Step(st, a), false, b, []);
    assert [a, b][1..] == [b] && [b][1..] == [];
    assert Disciplined(Step(st, a), false, [b]);
    assert Marks([b]) == (if b.MarkDelete? && b.found then [b.slot] else []) + Marks([]);
  }

  lemma FourOps(st: Store, a: Op, b: Op, c: Op, d: Op)
    requires !StepAborted(false, a) && !StepAborted(false, b) && !StepAborted(false, c)
    ensures var st1, ops := Step(st, a), [a, b, c, d];
            var st2 := Step(st1, b);
            var st3 := Step(st2, c);
            && Run(st, ops) == Step(st3, d)
            && RunLog(st, false, ops)
               == StepLog(st, false, a) + StepLog(st1, false, b) + StepLog(st2, false, c) + StepLog(st3, false, d)
  {
    hide Step, StepLog;
    var st1 := Step(st, a);
    var st2 := Step(st1, b);
    var st3 := Step(st2, c);
    assert [a] + [b, c, d] == [a, b, c, d] && [b] + [c, d] == [b, c, d] && [c] + [d] == [c, d] && [d] + [] == [d];
    RunFront(st, false, a, [b, c, d]);
    RunFront(st1, false, b, [c, d]);
    RunFront(st2, false, c, [d]);
    RunFront(st3, false, d, []);
  }

  lemma NoRoomAtSecond(st: Store, ops: seq<Op>, counts: Counts)
    requires |ops| >= 2 && !StepAborted(false, ops[0])
    requires LogsUpdate(Step(st, ops[0]), false, ops[1])
    requires var st1, p := Step(st, ops[0]), ops[1].slot.at;
             Free(st1.heap, st1.counts, p) < SLOT_SIZE * (Count(counts, p) - Count(st1.counts, p))
    ensures !RoomKept(st, false, ops, counts)
  {
    hide Step, Succeeds, Free;
    assert ops[1..][0] == ops[1];
  }

  /** An update after the transaction has failed is not logged, and Abort leaves it in place. */
  lemma {:induction false} LateUpdateStays()
    ensures var st := Store(Triple(1, 1, 1), map[PAGE := 3]);
            var ops := [InsertTuple(Sized(1), PAGE, false), UpdateTuple(Sized(2), Slot(PAGE, 0), true)];
            var end := Run(st, ops);
            && !Disciplined(st, false, ops)
            && UndoAll(end.heap, end.counts, RunLog(st, false, ops)) == Ok(end.heap) != Ok(st.heap)
  {
    var st := Store(Triple(1, 1, 1), map[PAGE := 3]);
    var ins, up := InsertTuple(Sized(1), PAGE, false), UpdateTuple(Sized(2), Slot(PAGE, 0), true);
    TripleUpdate(1, 1, 1, st.counts, 0, 2);
    var st2 := Store(Triple(2, 1, 1), map[PAGE := 3]);
    assert Step(st, ins) == st && StepLog(st, false, ins) == [] && StepLog(st, true, up) == [];
    assert Triple(2, 1, 1)[Slot(PAGE, 0)] != st.heap[Slot(PAGE, 0)];
    hide Triple, Step, Succeeds, StepLog, Target;
    assert [ins] + [up] == [ins, up] && [up] + [] == [up];
    RunFront(st, false, ins, [up]);
    RunFront(st, true, up, []);
    assert [ins, up][1..][0] == up;
  }

  /** A mark that the page refused, because another transaction had made it, is logged all the same, and Abort
      clears the other transaction's mark. */
  lemma {:induction false} RefusedMarkIsCleared(t: Tuple)
    ensures var s := Slot(PAGE, 0);
            var st := Store(map[s := Entry(t, true)], map[PAGE := 1]);
            var ops := [MarkDelete(s, true)];
            && Run(st, ops) == st
            && UndoAll(st.heap, st.counts, RunLog(st, false, ops)) == Ok(map[s := Entry(t, false)])
  {
    var s := Slot(PAGE, 0);
    var st := Store(map[s := Entry(t, true)], map[PAGE := 1]);
    assert [MarkDelete(s, true)] == [MarkDelete(s, true)] + [];
    RunFront(st, false, MarkDelete(s, true), []);
    UndoSingle(st.heap, st.counts, [Deleted(s)]);
    assert st.heap[s := st.heap[s].(deleted := false)] == map[s := Entry(t, false)];
  }

  // ---------------------------------------------------------------- committing

  /** The slots with a delete record, in order. */
  function Deletions(log: seq<TableWrite>): seq<Slot> {
    if log == [] then []
    else
      var w := log[|log| - 1];
      Deletions(log[..|log| - 1]) + (if w.Deleted? then [w.slot] else [])
  }

  /** Last record first: apply the deletes, skip the rest. */
  function CommitAll(h: Heap, log: seq<TableWrite>): Result<Heap> {
    if log == [] then Ok(h)
    else
      var w := log[|log| - 1];
      var r := if w.Deleted? then ApplyDelete(h, w.slot) else Ok(h);
      if r.Err? then r else CommitAll(r.value, log[..|log| - 1])
  }

  predicate Distinct(ss: seq<Slot>) {
    forall i, j :: 0 <= i < j < |ss| ==> ss[i] != ss[j]
  }

  /** The slots are different ones and all hold something. */
  ghost predicate Applicable(h: Heap, ss: seq<Slot>) {
    Distinct(ss) && forall i :: 0 <= i < |ss| ==> ss[i] in h
  }

  ghost function Members(ss: seq<Slot>): set<Slot> {
    set i | 0 <= i < |ss| :: ss[i]
  }

  lemma ApplicableStep(h: Heap, front: seq<Slot>, s: Slot)
    ensures Applicable(h, front + [s]) <==> s in h && Applicable(h - {s}, front)
    ensures h - Members(front + [s]) == (h - {s}) - Members(front)
  {
    var all := front + [s];
    assert forall i :: 0 <= i < |front| ==> all[i] == front[i];
    assert all[|front|] == s;
    if s in h && Applicable(h - {s}, front) {
      assert Distinct(all);
    }
    if Applicable(h, all) {
      forall i | 0 <= i < |front| ensures front[i] in h - {s} {
        assert all[i] != all[|front|];
      }
    }
    assert Members(all) == Members(front) + {s};
  }

  /** What Commit makes of any heap and log. */
  lemma {:induction false} CommitOutcome(h: Heap, log: seq<TableWrite>)
    ensures CommitAll(h, log).Ok? <==> Applicable(h, Deletions(log))
    ensures CommitAll(h, log).Ok? ==> CommitAll(h, log).value == h - Members(Deletions(log))
  {
    hide Applicable, Members;
    if log == [] {
      assert Applicable(h, []) && h - Members([]) == h by { NothingDeleted(h); }
    } else {
      var w, front := log[|log| - 1], log[..|log| - 1];
      if w.Deleted? {
        ApplicableStep(h, Deletions(front), w.slot);
        CommitOutcome(h - {w.slot}, front);
      } else {
        CommitOutcome(h, front);
        assert Deletions(log) == Deletions(front);
      }
    }
  }

  lemma NothingDeleted(h: Heap)
    ensures Applicable(h, []) && h - Members([]) == h
  {
  }

  lemma {:induction false} DeletionsFront(log: seq<TableWrite>, w: TableWrite)
    ensures Deletions([w] + log) == (if w.Deleted? then [w.slot] else []) + Deletions(log)
    decreases |log|
  {
    var all := [w] + log;
    if log == [] {
      assert all == [w] && all[..0] == [];
      assert Deletions(all[..|all| - 1]) == [];
    } else {
      var front := log[..|log| - 1];
      assert all[|all| - 1] == log[|log| - 1] && all[..|all| - 1] == [w] + front;
      DeletionsFront(front, w);
    }
  }

  lemma {:induction false} RunDeletions(st: Store, aborted: bool, ops: seq<Op>)
    ensures Deletions(RunLog(st, aborted, ops)) == Marks(ops)
    decreases |ops|
  {
    if ops != [] {
      var rest := RunLog(Step(st, ops[0]), StepAborted(aborted, ops[0]), ops[1..]);
      RunDeletions(Step(st, ops[0]), StepAborted(aborted, ops[0]), ops[1..]);
      var log := StepLog(st, aborted, ops[0]);
      if log == [] {
        assert log + rest == rest;
      } else {
        assert log == [log[0]];
        DeletionsFront(rest, log[0]);
      }
    }
  }

  /** What Commit makes of the heap after any run: it fails unless the slots marked are different ones that hold
      something in the end, and then exactly those are emptied. */
  lemma CommitRunOutcome(st: Store, aborted: bool, ops: seq<Op>)
    ensures var r := CommitAll(Run(st, ops).heap, RunLog(st, aborted, ops));
            && (r.Ok? <==> Applicable(Run(st, ops).heap, Marks(ops)))
            && (r.Ok? ==> r.value == Run(st, ops).heap - Members(Marks(ops)))
  {
    RunDeletions(st, aborted, ops);
    CommitOutcome(Run(st, ops).heap, RunLog(st, aborted, ops));
  }

  /** The slots whose tuple this transaction marked: the page took the mark. */
  ghost function MarkedBy(st: Store, ops: seq<Op>): set<Slot>
    decreases |ops|
  {
    if ops == [] then {}
    else
      (if ops[0].MarkDelete? && ops[0].found && Live(st.heap, ops[0].slot) then {ops[0].slot} else {})
      + MarkedBy(Step(st, ops[0]), ops[1..])
  }

  /** Every mark the run attempted met a live tuple. */
  predicate MarksLive(st: Store, ops: seq<Op>)
    decreases |ops|
  {
    ops == []
    || ((ops[0].MarkDelete? && ops[0].found ==> Live(st.heap, ops[0].slot)) && MarksLive(Step(st, ops[0]), ops[1..]))
  }

  lemma {:induction false} MarkStays(st: Store, ops: seq<Op>, s: Slot)
    requires WellPlaced(st) && Marked(st.heap, s)
    ensures Marked(Run(st, ops).heap, s)
    ensures MarksLive(st, ops) ==> s !in Marks(ops)
    decreases |ops|
  {
    if ops != [] {
      StepPlaced(st, ops[0]);
      MarkStays(Step(st, ops[0]), ops[1..], s);
    }
  }

  lemma DistinctCons(s: Slot, rest: seq<Slot>)
    ensures Distinct([s] + rest) <==> s !in rest && Distinct(rest)
  {
    var all := [s] + rest;
    if s !in rest && Distinct(rest) {
      forall i, j | 0 <= i < j < |all| ensures all[i] != all[j] {
        assert all[j] == rest[j - 1];
        if i > 0 {
          assert all[i] == rest[i - 1];
        }
      }
    }
    if Distinct(all) {
      forall j | 0 <= j < |rest| ensures rest[j] != s {
        assert all[0] != all[j + 1];
      }
      forall i, j | 0 <= i < j < |rest| ensures rest[i] != rest[j] {
        assert all[i + 1] != all[j + 1];
      }
    }
  }

  lemma MembersCons(s: Slot, rest: seq<Slot>)
    ensures Members([s] + rest) == {s} + Members(rest)
  {
    var all := [s] + rest;
    forall t ensures t in Members(all) <==> t in {s} + Members(rest) {
      if t in Members(rest) {
        var i :| 0 <= i < |rest| && rest[i] == t;
        assert all[i + 1] == t;
      }
      assert all[0] == s;
    }
  }

  lemma {:induction false} LiveMarks(st: Store, ops: seq<Op>)
    requires WellPlaced(st) && MarksLive(st, ops)
    ensures Distinct(Marks(ops)) && Members(Marks(ops)) == MarkedBy(st, ops)
    ensures forall s :: s in MarkedBy(st, ops) ==> s in Run(st, ops).heap
    decreases |ops|
  {
    if ops != [] {
      var st1, rest := Step(st, ops[0]), ops[1..];
      StepPlaced(st, ops[0]);
      LiveMarks(st1, rest);
      if ops[0].MarkDelete? && ops[0].found {
        MarkStays(st1, rest, ops[0].slot);
        DistinctCons(ops[0].slot, Marks(rest));
        MembersCons(ops[0].slot, Marks(rest));
      } else {
        assert Marks(ops) == Marks(rest);
      }
    }
  }

  lemma {:induction false} MarkedByIsMarked(st: Store, ops: seq<Op>, s: Slot)
    requires s in MarkedBy(st, ops)
    ensures s in Marks(ops)
    decreases |ops|
  {
    if s in MarkedBy(Step(st, ops[0]), ops[1..]) {
      MarkedByIsMarked(Step(st, ops[0]), ops[1..], s);
    }
  }

  lemma {:induction false} OwnMarksMetLive(st: Store, ops: seq<Op>)
    requires Distinct(Marks(ops)) && forall s :: s in Marks(ops) ==> s in MarkedBy(st, ops)
    ensures MarksLive(st, ops)
    decreases |ops|
  {
    if ops != [] {
      var st1, rest := Step(st, ops[0]), ops[1..];
      if ops[0].MarkDelete? && ops[0].found {
        var s := ops[0].slot;
        DistinctCons(s, Marks(rest));
        assert Marks(ops) == [s] + Marks(rest) && s in Marks(ops);
        if s in MarkedBy(st1, rest) {
          MarkedByIsMarked(st1, rest, s);
        }
        forall t | t in Marks(rest) ensures t in MarkedBy(st1, rest) {
          assert t in Marks(ops);
        }
      } else {
        assert Marks(ops) == Marks(rest);
      }
      OwnMarksMetLive(st1, rest);
    }
  }

  /** Commit removes exactly what this transaction marked if and only if every mark it attempted met a live tuple. */
  lemma CommitRemovesOwnMarksExactly(st: Store, aborted: bool, ops: seq<Op>)
    requires WellPlaced(st)
    ensures CommitAll(Run(st, ops).heap, RunLog(st, aborted, ops)) == Ok(Run(st, ops).heap - MarkedBy(st, ops))
            <==> MarksLive(st, ops)
  {
    CommitRunOutcome(st, aborted, ops);
    var end, ss := Run(st, ops).heap, Marks(ops);
    if MarksLive(st, ops) {
      LiveMarks(st, ops);
      forall i | 0 <= i < |ss| ensures ss[i] in end {
        assert ss[i] in Members(ss);
      }
    } else if CommitAll(end, RunLog(st, aborted, ops)) == Ok(end - MarkedBy(st, ops)) {
      forall s | s in ss ensures s in MarkedBy(st, ops) {
        var i :| 0 <= i < |ss| && ss[i] == s;
        assert s in end && s in Members(ss);
        assert s !in end - Members(ss);
      }
      OwnMarksMetLive(st, ops);
    }
  }

  /** A mark on an empty slot is logged; the heap reuses the slot, and Commit removes the transaction's own insert. */
  lemma {:induction false} CommitLosesOwnInsert(t: Tuple)
    requires t.size + 2 * SLOT_SIZE <= PAGE_ROOM
    ensures var s := Slot(PAGE, 0);
            var st := Store(map[], map[PAGE := 1]);
            var ops := [MarkDelete(s, true), InsertTuple(t, PAGE, true)];
            && Run(st, ops).heap == map[s := Entry(t, false)]
            && CommitAll(Run(st, ops).heap, RunLog(st, false, ops)) == Ok(map[])
  {
    var s, st := Slot(PAGE, 0), Store(map[], map[PAGE := 1]);
    var mark, ins := MarkDelete(s, true), InsertTuple(t, PAGE, true);
    assert Used(st.heap, PAGE, 1) == Used(st.heap, PAGE, 0) == 0;
    assert Step(st, mark) == st && Step(st, ins).heap == map[s := Entry(t, false)];
    TwoOps(st, mark, ins);
    assert [mark] + [ins] == [mark, ins];
    assert [mark, ins][1..] == [ins] && [ins][1..] == [];
    assert Marks([ins]) == [] + Marks([]);
    assert Marks([mark, ins]) == [s] + Marks([ins]) == [s];
    CommitRunOutcome(st, false, [mark, ins]);
    var h2: Heap := map[s := Entry(t, false)];
    assert Members([s]) == {s} by { assert [s][0] == s; }
    assert h2 - {s} == map[];
  }

  /** Marking a tuple twice is logged twice, and Commit then empties an empty slot. */
  lemma DoubleMarkFailsCommit(st: Store, s: Slot)
    requires Live(st.heap, s)
    ensures var ops := [MarkDelete(s, true), MarkDelete(s, true)];
            CommitAll(Run(st, ops).heap, RunLog(st, false, ops)).Err?
  {
    var ops := [MarkDelete(s, true), MarkDelete(s, true)];
    assert ops[1..] == [MarkDelete(s, true)] && ops[1..][1..] == [];
    assert Marks(ops) == [s] + Marks(ops[1..]) && Marks(ops[1..]) == [s] + Marks([]);
    assert Marks(ops) == [s, s];
    assert !Distinct([s, s]) by { assert [s, s][0] == [s, s][1]; }
    CommitRunOutcome(st, false, ops);
  }
}

/** Table heaps, indexes and transactions as the objects the transaction manager mutates. */
module Transactions {
  import opened Rollback
  import opened IndexRollback

  datatype TransactionState = GROWING | SHRINKING | COMMITTED | ABORTED

  class Transaction {
    var state: TransactionState
    var writes: seq<TableWrite>
    var indexWrites: seq<IndexWrite>

    constructor ()
      ensures state == GROWING && writes == [] && indexWrites == []
    {
      state, writes, indexWrites := GROWING, [], [];
    }
  }

  /** Where the tuples of each page begin; those of a new page at its end. */
  type Pointers = map<PageId, nat>

  function PointerOf(pointers: Pointers, p: PageId): nat {
    if p in pointers then pointers[p] else PAGE_SIZE
  }

  /** The pages are in order, and each pointer leaves its page's tuples just their bytes. */
  ghost predicate Tallies(st: Store, pointers: Pointers) {
    StoreOk(st) && forall p :: PointerOf(pointers, p) == PAGE_SIZE - Used(st.heap, p, Count(st.counts, p))
  }

  /** Changing one slot's tuple, or adding a slot with one, moves its page's pointer by the difference in bytes. */
  lemma TallyBut(st: Store, pointers: Pointers, after: Store, s: Slot, pointer: nat)
    requires Tallies(st, pointers) && StoreOk(after) && SameBut(st.heap, after.heap, s)
    requires forall p :: Count(st.counts, p) <= Count(after.counts, p)
    requires s in after.heap || s in st.heap
    requires pointer == PointerOf(pointers, s.at) + SizeAt(st.heap, s) - SizeAt(after.heap, s)
    ensures Tallies(after, pointers[s.at := pointer])
  {
    forall p
      ensures PointerOf(pointers[s.at := pointer], p) == PAGE_SIZE - Used(after.heap, p, Count(after.counts, p))
    {
      UsedBut(st.heap, after.heap, s, p, Count(after.counts, p));
      UsedBeyond(st, p, Count(after.counts, p));
      assert PointerOf(pointers, p) == PAGE_SIZE - Used(st.heap, p, Count(st.counts, p));
      assert s in after.heap ==> s.slot < Count(after.counts, s.at);
      assert s in st.heap ==> s.slot < Count(st.counts, s.at);
    }
  }

  /** The bytes below the pointer that no slot takes are the free ones. */
  lemma TalliesFree(st: Store, pointers: Pointers, p: PageId)
    requires Tallies(st, pointers)
    ensures PointerOf(pointers, p) - HEADER_SIZE - SLOT_SIZE * Count(st.counts, p) == Free(st.heap, st.counts, p)
  {
  }

  /** A change of mark moves no pointer. */
  lemma TallyMark(st: Store, pointers: Pointers, s: Slot, deleted: bool)
    requires Tallies(st, pointers) && s in st.heap
    ensures Tallies(st.(heap := st.heap[s := st.heap[s].(deleted := deleted)]), pointers)
  {
    var h := st.heap[s := st.heap[s].(deleted := deleted)];
    forall p
      ensures PointerOf(pointers, p) == PAGE_SIZE - Used(h, p, Count(st.counts, p)) && Free(h, st.counts, p) >= 0
    {
      UsedBut(st.heap, h, s, p, Count(st.counts, p));
      assert Free(st.heap, st.counts, p) >= 0;
    }
  }

  lemma TallyInsert(st: Store, pointers: Pointers, op: Op)
    requires Tallies(st, pointers) && op.InsertTuple? && Succeeds(st, op)
    ensures PointerOf(pointers, op.page) >= op.tuple.size
    ensures Tallies(Step(st, op), pointers[op.page := PointerOf(pointers, op.page) - op.tuple.size])
  {
    StepOk(st, op);
    StepPlaced(st, op);
    TargetEmpty(st, op.page);
    TallyBut(st, pointers, Step(st, op), Target(st, op.page), PointerOf(pointers, op.page) - op.tuple.size);
  }

  lemma TallyUpdate(st: Store, pointers: Pointers, op: Op)
    requires Tallies(st, pointers) && op.UpdateTuple? && Succeeds(st, op)
    ensures var pointer := PointerOf(pointers, op.slot.at) + SizeAt(st.heap, op.slot) - op.tuple.size;
            pointer >= 0 && Tallies(Step(st, op), pointers[op.slot.at := pointer])
  {
    StepOk(st, op);
    var pointer := PointerOf(pointers, op.slot.at) + SizeAt(st.heap, op.slot) - op.tuple.size;
    assert pointer == Free(st.heap, st.counts, op.slot.at) + HEADER_SIZE + SLOT_SIZE * Count(st.counts, op.slot.at)
                      + SizeAt(st.heap, op.slot) - op.tuple.size;
    TallyBut(st, pointers, Step(st, op), op.slot, pointer);
  }

  lemma TallyDrop(st: Store, pointers: Pointers, s: Slot)
    requires Tallies(st, pointers) && s in st.heap
    ensures Tallies(st.(heap := st.heap - {s}),
                    pointers[s.at := PointerOf(pointers, s.at) + st.heap[s].tuple.size])
  {
    var after := st.(heap := st.heap - {s});
    forall p ensures Free(after.heap, st.counts, p) >= 0 {
      UsedBut(st.heap, after.heap, s, p, Count(st.counts, p));
      assert Free(st.heap, st.counts, p) >= 0;
    }
    TallyBut(st, pointers, after, s, PointerOf(pointers, s.at) + st.heap[s].tuple.size);
  }

  /** All table heaps of the database: a slot names its page and table. */
  class TableHeap {
    var entries: Heap
    var counts: Counts
    var pointers: Pointers

    function FreeSpaceRemaining(p: PageId): int
      reads this
    {
      PointerOf(pointers, p) - HEADER_SIZE - SLOT_SIZE * Count(counts, p)
    }

    function State(): Store
      reads this
    {
      Store(entries, counts)
    }

    ghost predicate Valid()
      reads this
    {
      Tallies(State(), pointers)
    }

    /** The first empty slot of the page, or the one behind the last. */
    method FindSlot(page: PageId) returns (slot: Slot)
      ensures slot == Target(State(), page)
    {
      var n, i := Count(counts, page), 0;
      while i < n && Slot(page, i) in entries
        invariant 0 <= i <= n && FirstEmpty(entries, page, i, n) == FirstEmpty(entries, page, 0, n)
      {
        i := i + 1;
      }
      slot := Slot(page, i);
    }

    /** `page` is where the search for space ends; without `room`, or for too large a tuple, the transaction fails. */
    method InsertTuple(tuple: Tuple, page: PageId, room: bool, txn: Transaction) returns (ok: bool)
      requires Valid() && (room && FitsAPage(tuple) ==> Free(entries, counts, page) >= tuple.size + SLOT_SIZE)
      modifies this, txn`state, txn`writes
      ensures Valid() && State() == Step(old(State()), Op.InsertTuple(tuple, page, room))
      ensures ok == Succeeds(old(State()), Op.InsertTuple(tuple, page, room))
      ensures txn.writes == old(txn.writes) + StepLog(old(State()), old(txn.state) == ABORTED,
                                                      Op.InsertTuple(tuple, page, room))
      ensures txn.state == if ok then old(txn.state) else ABORTED
    {
      hide Tallies, Target, Free, Count, PointerOf;
      if tuple.size + 32 > PAGE_SIZE || !room {
        txn.state := ABORTED;
        return false;
      }
      var slot := FindSlot(page);
      TallyInsert(State(), pointers, Op.InsertTuple(tuple, page, room));
      pointers := pointers[page := PointerOf(pointers, page) - tuple.size];
      entries := entries[slot := Entry(tuple, false)];
      if slot.slot == Count(counts, page) {
        counts := counts[page := slot.slot + 1];
      }
      txn.writes := txn.writes + [Inserted(slot)];
      ok := true;
    }

    method MarkDelete(slot: Slot, found: bool, txn: Transaction) returns (ok: bool)
      requires Valid()
      modifies this`entries, txn`state, txn`writes
      ensures Valid() && State() == Step(old(State()), Op.MarkDelete(slot, found))
      ensures ok == found
      ensures txn.writes
              == old(txn.writes) + StepLog(old(State()), old(txn.state) == ABORTED, Op.MarkDelete(slot, found))
      ensures txn.state == if ok then old(txn.state) else ABORTED
    {
      if !found {
        txn.state := ABORTED;
        return false;
      }
      if slot in entries && !entries[slot].deleted {
        TallyMark(State(), pointers, slot, true);
        entries := entries[slot := entries[slot].(deleted := true)];
      }
      txn.writes := txn.writes + [Deleted(slot)];
      ok := true;
    }

    /** Refused for an empty or marked slot and without room in the page. */
    method UpdateTuple(tuple: Tuple, slot: Slot, found: bool, txn: Transaction) returns (ok: bool)
      requires Valid()
      modifies this`entries, this`pointers, txn`state, txn`writes
      ensures Valid() && State() == Step(old(State()), Op.UpdateTuple(tuple, slot, found))
      ensures ok == Succeeds(old(State()), Op.UpdateTuple(tuple, slot, found))
      ensures txn.writes == old(txn.writes) + StepLog(old(State()), old(txn.state) == ABORTED,
                                                      Op.UpdateTuple(tuple, slot, found))
      ensures txn.state == if found then old(txn.state) else ABORTED
    {
      hide Tallies, Free, Count, PointerOf;
      if !found {
        txn.state := ABORTED;
        return false;
      }
      if slot !in entries || entries[slot].deleted {
        return false;
      }
      var before := entries[slot].tuple;
      TalliesFree(State(), pointers, slot.at);
      if FreeSpaceRemaining(slot.at) + before.size < tuple.size {
        return false;
      }
      TallyUpdate(State(), pointers, Op.UpdateTuple(tuple, slot, found));
      pointers := pointers[slot.at := PointerOf(pointers, slot.at) + before.size - tuple.size];
      entries := entries[slot := entries[slot].(tuple := tuple)];
      if txn.state != ABORTED {
        txn.writes := txn.writes + [Updated(slot, before)];
      }
      ok := true;
    }

    /** Fails on a slot that holds nothing; the slot itself stays. */
    method ApplyDelete(slot: Slot) returns (ok: bool)
      requires Valid()
      modifies this`entries, this`pointers
      ensures Valid() && ok == (slot in old(entries))
      ensures entries == if ok then old(entries) - {slot} else old(entries)
    {
      ok := slot in entries;
      if ok {
        TallyDrop(State(), pointers, slot);
        pointers := pointers[slot.at := PointerOf(pointers, slot.at) + entries[slot].tuple.size];
        entries := entries - {slot};
      }
    }

    /** Fails on a slot no page has. */
    method RollbackDelete(slot: Slot) returns (ok: bool)
      requires Valid()
      modifies this`entries
      ensures Valid() && ok == UndoOne(old(entries), counts, Deleted(slot)).Ok?
      ensures ok ==> entries == UndoOne(old(entries), counts, Deleted(slot)).value
    {
      ok := slot.slot < Count(counts, slot.at);
      if slot in entries && entries[slot].deleted {
        TallyMark(State(), pointers, slot, false);
        entries := entries[slot := entries[slot].(deleted := false)];
      }
    }
  }

  /** All B+ tree indexes of the database. */
  class Indexes {
    var entries: Index

    method InsertEntry(k: IndexKey, rid: Rid)
      modifies this
      ensures entries == IndexRollback.InsertEntry(old(entries), k, rid)
    {
      if k !in entries {
        entries := entries[k := rid];
      }
    }

    /** The tree's removal is empty. */
    method DeleteEntry(k: IndexKey)
    {
    }
  }

  class TransactionManager {
    /** Applies the marked deletes, last first, and empties the write set; stops if a delete fails. */
    method Commit(txn: Transaction, heap: TableHeap) returns (ok: bool)
      requires heap.Valid()
      modifies txn, heap`entries, heap`pointers
      ensures heap.Valid() && txn.state == COMMITTED && txn.indexWrites == old(txn.indexWrites)
      ensures ok == CommitAll(old(heap.entries), old(txn.writes)).Ok?
      ensures ok ==> heap.entries == CommitAll(old(heap.entries), old(txn.writes)).value && txn.writes == []
    {
      txn.state := COMMITTED;
      while txn.writes != []
        invariant heap.Valid() && txn.state == COMMITTED && txn.indexWrites == old(txn.indexWrites)
        invariant CommitAll(heap.entries, txn.writes) == CommitAll(old(heap.entries), old(txn.writes))
        decreases |txn.writes|
      {
        var item := txn.writes[|txn.writes| - 1];
        if item.Deleted? {
          ok := heap.ApplyDelete(item.slot);
          if !ok {
            return;
          }
        }
        txn.writes := txn.writes[..|txn.writes| - 1];
      }
      ok := true;
    }

    /** One record undone; the transaction is ABORTED, so undoing logs nothing, and whether an update is taken back is
        not looked at. */
    method UndoTableWrite(item: TableWrite, txn: Transaction, heap: TableHeap) returns (ok: bool)
      requires heap.Valid() && txn.state == ABORTED
      modifies txn`state, txn`writes, heap`entries, heap`pointers
      ensures heap.Valid() && txn.state == ABORTED && txn.writes == old(txn.writes)
      ensures ok == UndoOne(old(heap.entries), heap.counts, item).Ok?
      ensures ok ==> heap.entries == UndoOne(old(heap.entries), heap.counts, item).value
    {
      match item
      case Deleted(slot) => ok := heap.RollbackDelete(slot);
      case Inserted(slot) => ok := heap.ApplyDelete(slot);
      case Updated(slot, before) =>
        var _ := heap.UpdateTuple(before, slot, true, txn);
        ok := true;
    }

    /** Undoes the table writes, last first; stops if one fails. */
    method UndoTableWrites(txn: Transaction, heap: TableHeap) returns (ok: bool)
      requires heap.Valid() && txn.state == ABORTED
      modifies txn`state, txn`writes, heap`entries, heap`pointers
      ensures heap.Valid() && txn.state == ABORTED
      ensures ok == UndoAll(old(heap.entries), heap.counts, old(txn.writes)).Ok?
      ensures ok ==> heap.entries == UndoAll(old(heap.entries), heap.counts, old(txn.writes)).value && txn.writes == []
    {
      hide UndoOne;
      while txn.writes != []
        invariant heap.Valid() && txn.state == ABORTED
        invariant UndoAll(heap.entries, heap.counts, txn.writes)
                  == UndoAll(old(heap.entries), heap.counts, old(txn.writes))
        decreases |txn.writes|
      {
        ok := UndoTableWrite(txn.writes[|txn.writes| - 1], txn, heap);
        if !ok {
          return;
        }
        txn.writes := txn.writes[..|txn.writes| - 1];
      }
      ok := true;
    }

    method UndoIndexWrites(txn: Transaction, indexes: Indexes)
      modifies txn`indexWrites, indexes
      ensures txn.indexWrites == []
      ensures indexes.entries == UndoAllKeeping(old(indexes.entries), old(txn.indexWrites))
    {
      while txn.indexWrites != []
        invariant UndoAllKeeping(indexes.entries, txn.indexWrites)
                  == UndoAllKeeping(old(indexes.entries), old(txn.indexWrites))
        decreases |txn.indexWrites|
      {
        var item := txn.indexWrites[|txn.indexWrites| - 1];
        match item.wtype {
          case DELETE => indexes.InsertEntry(item.key, item.rid);
          case INSERT => indexes.DeleteEntry(item.key);
          case UPDATE =>
            indexes.DeleteEntry(item.key);
            indexes.InsertEntry(item.oldKey, item.rid);
        }
        txn.indexWrites := txn.indexWrites[..|txn.indexWrites| - 1];
      }
    }

    /** Both logs are replayed backwards and emptied. */
    method Abort(txn: Transaction, heap: TableHeap, indexes: Indexes) returns (ok: bool)
      requires heap.Valid()
      modifies txn, heap`entries, heap`pointers, indexes
      ensures heap.Valid() && txn.state == ABORTED
      ensures ok == UndoAll(old(heap.entries), heap.counts, old(txn.writes)).Ok?
      ensures ok ==> heap.entries == UndoAll(old(heap.entries), heap.counts, old(txn.writes)).value
      ensures ok ==> indexes.entries == UndoAllKeeping(old(indexes.entries), old(txn.indexWrites))
      ensures ok ==> txn.writes == [] && txn.indexWrites == []
    {
      txn.state := ABORTED;
      ok := UndoTableWrites(txn, heap);
      if ok {
        UndoIndexWrites(txn, indexes);
      }
    }
  }
}

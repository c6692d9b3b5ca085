/**
 * A transaction's writes to the indexes as values, and what undoing their log leaves:
 * for an index that can remove entries, and for the B+ tree, whose removal is empty.
 */
module IndexRollback {
  import opened Expressions
  import Rollback

  type Key = Row

  datatype WType = INSERT | DELETE | UPDATE

  /** An entry of an index: the index and the key in it. */
  datatype IndexKey = IndexKey(index: nat, key: Key)

  type Rid = Rollback.Slot

  type Index = map<IndexKey, Rid>

  /** `key` is the key of the record's tuple, `oldKey` that of its old tuple. */
  datatype IndexWrite = IndexWrite(rid: Rid, wtype: WType, key: IndexKey, oldKey: IndexKey)

  /** Keys are unique: an insert of a present key is refused. */
  function InsertEntry(x: Index, k: IndexKey, rid: Rid): Index {
    if k in x then x else x[k := rid]
  }

  /** A delete goes by key alone. */
  function DeleteEntry(x: Index, k: IndexKey): Index {
    x - {k}
  }

  /** The write the record stands for. */
  function Redo(x: Index, w: IndexWrite): Index {
    match w.wtype
    case INSERT => InsertEntry(x, w.key, w.rid)
    case DELETE => DeleteEntry(x, w.key)
    case UPDATE => InsertEntry(DeleteEntry(x, w.oldKey), w.key, w.rid)
  }

  function UndoIndexOne(x: Index, w: IndexWrite): Index {
    match w.wtype
    case DELETE => InsertEntry(x, w.key, w.rid)
    case INSERT => DeleteEntry(x, w.key)
    case UPDATE => InsertEntry(DeleteEntry(x, w.key), w.oldKey, w.rid)
  }

  function RedoAll(x: Index, log: seq<IndexWrite>): Index
    decreases |log|
  {
    if log == [] then x else RedoAll(Redo(x, log[0]), log[1..])
  }

  function UndoIndexAll(x: Index, log: seq<IndexWrite>): Index
    decreases |log|
  {
    if log == [] then x else UndoIndexAll(UndoIndexOne(x, log[|log| - 1]), log[..|log| - 1])
  }

  lemma {:induction false} UndoIndexFront(x: Index, w: IndexWrite, log: seq<IndexWrite>)
    ensures UndoIndexAll(x, [w] + log) == UndoIndexOne(UndoIndexAll(x, log), w)
    decreases |log|
  {
    var all := [w] + log;
    if log == [] {
      assert all == [w] && all[..0] == [];
      assert UndoIndexAll(UndoIndexOne(x, all[|all| - 1]), all[..|all| - 1]) == UndoIndexOne(x, w);
    } else {
      var last := log[|log| - 1];
      assert all[|all| - 1] == last && all[..|all| - 1] == [w] + log[..|log| - 1];
      UndoIndexFront(UndoIndexOne(x, last), w, log[..|log| - 1]);
    }
  }

  /** What undoing the log leaves at a key, whatever is there now. */
  datatype Trace = Untouched | Absent | Holds(rid: Rid)

  /** A delete is undone by an insert, which is refused if undoing a later write has put something back. */
  function AfterDelete(rest: Trace, rid: Rid): Trace {
    if rest.Holds? then rest else Holds(rid)
  }

  function TraceAt(log: seq<IndexWrite>, k: IndexKey): Trace {
    if log == [] then Untouched
    else
      var w, rest := log[0], TraceAt(log[1..], k);
      match w.wtype
      case INSERT => if w.key == k then Absent else rest
      case DELETE => if w.key == k then AfterDelete(rest, w.rid) else rest
      case UPDATE =>
        var inner := if w.key == k then Absent else rest;
        if w.oldKey == k then AfterDelete(inner, w.rid) else inner
  }

  /** The index `x` with the trace imposed at every key. */
  predicate TraceFits(x: Index, k: IndexKey, t: Trace, result: Index) {
    match t
    case Untouched => (k in result <==> k in x) && (k in x ==> result[k] == x[k])
    case Absent => k !in result
    case Holds(rid) => k in result && result[k] == rid
  }

  lemma TraceStep(x: Index, w: IndexWrite, log: seq<IndexWrite>, k: IndexKey, inner: Index)
    requires TraceFits(Redo(x, w), k, TraceAt(log, k), inner)
    ensures TraceFits(x, k, TraceAt([w] + log, k), UndoIndexOne(inner, w))
  {
    assert ([w] + log)[1..] == log;
    hide UndoIndexAll;
  }

  /** What Abort leaves at each key of the indexes after any run of index writes. */
  lemma {:induction false} AbortIndexOutcome(x: Index, log: seq<IndexWrite>, k: IndexKey)
    ensures TraceFits(x, k, TraceAt(log, k), UndoIndexAll(RedoAll(x, log), log))
    decreases |log|
  {
    if log != [] {
      var w, rest := log[0], log[1..];
      AbortIndexOutcome(Redo(x, w), rest, k);
      UndoIndexFront(RedoAll(x, log), w, rest);
      assert log == [w] + rest;
      TraceStep(x, w, rest, k, UndoIndexAll(RedoAll(x, log), rest));
    }
  }

  /** The trace at `k` agrees with the index at Begin. */
  predicate TraceAgrees(x: Index, k: IndexKey, t: Trace) {
    match t
    case Untouched => true
    case Absent => k !in x
    case Holds(rid) => k in x && x[k] == rid
  }

  ghost predicate AllAgree(x: Index, log: seq<IndexWrite>) {
    forall k :: TraceAgrees(x, k, TraceAt(log, k))
  }

  /** Abort restores the indexes exactly when, at every key, the first write found what it expected: an insert an
      absent key, a run of deletes the rid the last of them names. */
  lemma AbortIndexRestoresExactly(x: Index, log: seq<IndexWrite>)
    ensures UndoIndexAll(RedoAll(x, log), log) == x <==> AllAgree(x, log)
  {
    var undone := UndoIndexAll(RedoAll(x, log), log);
    forall k ensures TraceFits(x, k, TraceAt(log, k), undone) {
      AbortIndexOutcome(x, log, k);
    }
    hide UndoIndexAll, RedoAll, TraceAt;
    if AllAgree(x, log) {
      forall k ensures (k in undone <==> k in x) && (k in x ==> undone[k] == x[k]) {
        assert TraceFits(x, k, TraceAt(log, k), undone) && TraceAgrees(x, k, TraceAt(log, k));
      }
      assert undone.Keys == x.Keys;
      assert undone == x;
    }
  }

  /** Each write finds what it expects: inserts absent keys, deletes the very entries they name. */
  predicate Sound(x: Index, log: seq<IndexWrite>)
    decreases |log|
  {
    log == [] ||
    (var w := log[0];
     && (match w.wtype
         case INSERT => w.key !in x
         case DELETE => w.key in x && x[w.key] == w.rid
         case UPDATE => w.oldKey in x && x[w.oldKey] == w.rid && w.key !in DeleteEntry(x, w.oldKey))
     && Sound(Redo(x, w), log[1..]))
  }

  lemma {:induction false} SoundAgrees(x: Index, log: seq<IndexWrite>, k: IndexKey)
    requires Sound(x, log)
    ensures TraceAgrees(x, k, TraceAt(log, k))
    decreases |log|
  {
    if log != [] {
      SoundAgrees(Redo(x, log[0]), log[1..], k);
    }
  }

  /** A run of sound index writes is undone completely. */
  lemma SoundRunRestored(x: Index, log: seq<IndexWrite>)
    requires Sound(x, log)
    ensures UndoIndexAll(RedoAll(x, log), log) == x
  {
    forall k ensures TraceAgrees(x, k, TraceAt(log, k)) {
      SoundAgrees(x, log, k);
    }
    AbortIndexRestoresExactly(x, log);
  }

  // ---------------------------------------------------------------- indexes whose removal is left empty

  /** The source's B+ tree has no removal yet: deleting an entry does nothing. */
  function RedoKeeping(x: Index, w: IndexWrite): Index {
    if w.wtype == DELETE then x else InsertEntry(x, w.key, w.rid)
  }

  function UndoKeeping(x: Index, w: IndexWrite): Index {
    match w.wtype
    case DELETE => InsertEntry(x, w.key, w.rid)
    case INSERT => x
    case UPDATE => InsertEntry(x, w.oldKey, w.rid)
  }

  function RedoAllKeeping(x: Index, log: seq<IndexWrite>): Index
    decreases |log|
  {
    if log == [] then x else RedoAllKeeping(RedoKeeping(x, log[0]), log[1..])
  }

  function UndoAllKeeping(x: Index, log: seq<IndexWrite>): Index
    decreases |log|
  {
    if log == [] then x else UndoAllKeeping(UndoKeeping(x, log[|log| - 1]), log[..|log| - 1])
  }

  /** The keys a record's write and its undoing insert. */
  function KeysOf(w: IndexWrite): set<IndexKey> {
    if w.wtype == UPDATE then {w.key, w.oldKey} else {w.key}
  }

  function LoggedKeys(log: seq<IndexWrite>): set<IndexKey> {
    set i, k | 0 <= i < |log| && k in KeysOf(log[i]) :: k
  }

  lemma LoggedSlice(log: seq<IndexWrite>, a: nat, b: nat)
    requires a <= b <= |log|
    ensures LoggedKeys(log[a..b]) <= LoggedKeys(log)
    ensures forall i :: 0 <= i < |log| ==> KeysOf(log[i]) <= LoggedKeys(log)
  {
    hide KeysOf;
    forall k | k in LoggedKeys(log[a..b]) ensures k in LoggedKeys(log) {
      var i :| 0 <= i < b - a && k in KeysOf(log[a..b][i]);
      assert k in KeysOf(log[a + i]);
    }
  }

  /** `y` has the entries of `x` and possibly more. */
  predicate Extends(x: Index, y: Index) {
    forall k :: k in x ==> k in y && y[k] == x[k]
  }

  lemma {:induction false} RedoExtends(x: Index, log: seq<IndexWrite>)
    ensures Extends(x, RedoAllKeeping(x, log)) && RedoAllKeeping(x, log).Keys <= x.Keys + LoggedKeys(log)
    ensures forall i :: 0 <= i < |log| && log[i].wtype != DELETE ==> log[i].key in RedoAllKeeping(x, log)
    decreases |log|
  {
    if log != [] {
      RedoExtends(RedoKeeping(x, log[0]), log[1..]);
      LoggedSlice(log, 1, |log|);
      hide LoggedKeys;
      assert forall i :: 0 <= i < |log| - 1 ==> log[1..][i] == log[i + 1];
    }
  }

  /** The key that undoing the record puts back is there. */
  predicate PutBack(x: Index, w: IndexWrite) {
    (w.wtype == DELETE ==> w.key in x) && (w.wtype == UPDATE ==> w.oldKey in x)
  }

  lemma UndoKeepingStep(x: Index, w: IndexWrite, y: Index)
    requires Extends(UndoKeeping(x, w), y)
    ensures Extends(x, y) && PutBack(y, w) && UndoKeeping(x, w).Keys <= x.Keys + KeysOf(w)
  {
  }

  lemma {:induction false} UndoExtends(x: Index, log: seq<IndexWrite>)
    ensures Extends(x, UndoAllKeeping(x, log)) && UndoAllKeeping(x, log).Keys <= x.Keys + LoggedKeys(log)
    ensures forall i :: 0 <= i < |log| ==> PutBack(UndoAllKeeping(x, log), log[i])
    decreases |log|
  {
    if log != [] {
      hide LoggedKeys, Extends, PutBack, UndoKeeping, KeysOf;
      var front, last := log[..|log| - 1], log[|log| - 1];
      UndoExtends(UndoKeeping(x, last), front);
      UndoKeepingStep(x, last, UndoAllKeeping(x, log));
      LoggedSlice(log, 0, |log| - 1);
      assert log[0..|log| - 1] == front;
      assert forall i :: 0 <= i < |front| ==> front[i] == log[i];
    }
  }

  /** With removal left empty, Abort restores the indexes exactly when every key the transaction touched was there
      at Begin. */
  lemma AbortWithoutRemovalExactly(x: Index, log: seq<IndexWrite>)
    ensures UndoAllKeeping(RedoAllKeeping(x, log), log) == x <==> LoggedKeys(log) <= x.Keys
  {
    var y := RedoAllKeeping(x, log);
    var z := UndoAllKeeping(y, log);
    RedoExtends(x, log);
    UndoExtends(y, log);
    hide RedoAllKeeping, UndoAllKeeping;
    if z == x {
      forall i, k | 0 <= i < |log| && k in KeysOf(log[i]) ensures k in x {
        assert log[i].wtype != DELETE ==> log[i].key in y;
        assert PutBack(z, log[i]);
      }
    }
  }

  /** One entry inserted into an index without the key: after Abort it is still there. */
  lemma InsertedEntryStays(x: Index, k: IndexKey, rid: Rid)
    requires k !in x
    ensures var log := [IndexWrite(rid, INSERT, k, k)];
            UndoAllKeeping(RedoAllKeeping(x, log), log) == x[k := rid] != x
  {
    var w := IndexWrite(rid, INSERT, k, k);
    assert [w][1..] == [] && [w][..0] == [] && [w][0] == w;
    assert RedoAllKeeping(x, [w]) == RedoAllKeeping(x[k := rid], []) == x[k := rid];
    assert UndoAllKeeping(x[k := rid], [w]) == UndoAllKeeping(x[k := rid], []) == x[k := rid];
    assert k in x[k := rid];
  }
}

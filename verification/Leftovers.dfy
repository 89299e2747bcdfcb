/** Recovering over what an older term left in the store at the same revision. */
module Leftovers {
  import Lex
  import opened Entries
  import opened Mvcc
  import opened StoreState
  import opened StoreProofs
  import opened StoreReads

  ghost predicate Puts(e: Entry, key: Key) {
    exists i :: Touches(e, key, i) && SubOps(e)[i].op != OpDelete
  }

  ghost predicate WritesKey(e: Entry, key: Key) {
    exists i :: Touches(e, key, i)
  }

  function IndexAt(idx: map<Key, int>, key: Key): (r: Option<int>) {
    if key in idx then Some(idx[key]) else None
  }

  // ------------------------------------------------------------ what is written

  /** A state with the given index. */
  function ViewFor(idx: map<Key, int>): (v: View)
    ensures IndexMatches(idx, v)
  {
    map k | k in idx :: KeyValue(k, [], idx[k], 0, 0, 0, 0)
  }

  /** What an entry makes of the index at one key. */
  ghost function Effect(e: Entry, key: Key, was: Option<int>): (r: Option<int>) {
    if Puts(e, key) then Some(e.revision) else if WritesKey(e, key) then None else was
  }

  lemma IndexWritten(db: DB, e: Entry, key: Key)
    requires ValidEntry(e) && IsData(e)
    ensures IndexAt(Commit(db, EntryWrites(e)).idx, key) == Effect(e, key, IndexAt(db.idx, key))
  {
    var v := ViewFor(db.idx);
    EntryWritesCommit(db, e, v);
    ApplySubsLookup(v, e.revision, SubOps(e), key);
    if i :| Touches(e, key, i) {
      OneTouch(e, key, i);
    } else {
      forall i | 0 <= i < |SubOps(e)| ensures SubOps(e)[i].key != key { assert !Touches(e, key, i); }
    }
  }

  lemma OneTouch(e: Entry, key: Key, i: int)
    requires ValidEntry(e) && IsData(e) && Touches(e, key, i)
    ensures Puts(e, key) <==> SubOps(e)[i].op != OpDelete
  {
  }

  lemma RowsWritten(db: DB, e: Entry)
    requires ValidEntry(e) && IsData(e)
    ensures Commit(db, EntryWrites(e)).log == db.log + RowsOf(e)
  {
    EntryWritesCommit(db, e, ViewFor(db.idx));
  }

  /** The rows at a revision nobody else has written are the entry's. */
  lemma RowIsPut(e: Entry, k: Lex.Key)
    requires ValidEntry(e) && k in RowsOf(e)
    ensures !RowsOf(e)[k].delete ==> Puts(e, RowsOf(e)[k].key)
  {
    var i := OpOfRow(e, k);
    assert Touches(e, RowsOf(e)[k].key, i);
  }

  lemma PutHasRow(e: Entry, key: Key) returns (k: Lex.Key)
    requires ValidEntry(e) && IsData(e) && Puts(e, key)
    ensures k in RowsOf(e) && RowsOf(e)[k].key == key && !RowsOf(e)[k].delete
    ensures e.op != OpTxn ==> k == [e.revision]
  {
    var i :| Touches(e, key, i) && SubOps(e)[i].op != OpDelete;
    RowOfOp(e, i);
    k := RowKey(e, i);
  }

  // ------------------------------------------------------------ what is cleared

  /** The keys whose index entries go with the listed rows. */
  function ClearedKeys(log: Log, keys: seq<Lex.Key>): (r: set<Key>)
    requires forall k :: k in keys ==> k in log
  {
    set k | k in keys && !log[k].delete :: log[k].key
  }

  function RowSet(keys: seq<Lex.Key>): (r: set<Lex.Key>) {
    set k | k in keys
  }

  lemma ClearedMore(log: Log, init: seq<Lex.Key>, k: Lex.Key)
    requires k in log && forall x :: x in init ==> x in log
    ensures ClearedKeys(log, init + [k]) == ClearedKeys(log, init) + if log[k].delete then {} else {log[k].key}
    ensures RowSet(init + [k]) == RowSet(init) + {k}
  {
    assert k in init + [k];
    assert forall x :: x in init + [k] <==> x in init || x == k;
  }

  function ClearOne(log: Log, k: Lex.Key): (ws: seq<Write>)
    requires k in log
  {
    (if log[k].delete then [] else [DelIdx(log[k].key)]) + [DelLog(k)]
  }

  lemma CleanupMore(db: DB, log: Log, init: seq<Lex.Key>, k: Lex.Key)
    requires k in log && forall x :: x in init ==> x in log
    ensures Commit(db, CleanupTxn(log, init + [k])) == Commit(Commit(db, CleanupTxn(log, init)), ClearOne(log, k))
  {
    assert (init + [k])[..|init|] == init;
    Associative(CleanupTxn(log, init), if log[k].delete then [] else [DelIdx(log[k].key)], [DelLog(k)]);
    CommitAppend(db, CleanupTxn(log, init), ClearOne(log, k));
  }

  lemma MinusMore<K, V>(m: map<K, V>, a: set<K>, b: set<K>)
    ensures (m - a) - b == m - (a + b)
  {
  }

  lemma {:induction false} RowsCleared(db: DB, log: Log, keys: seq<Lex.Key>)
    requires forall k :: k in keys ==> k in log
    ensures Commit(db, CleanupTxn(log, keys)).log == db.log - RowSet(keys)
    ensures Commit(db, CleanupTxn(log, keys)).idx == db.idx - ClearedKeys(log, keys)
  {
    if keys != [] {
      var init, k := keys[..|keys| - 1], keys[|keys| - 1];
      assert keys == init + [k];
      RowsCleared(db, log, init);
      ClearedMore(log, init, k);
      CleanupMore(db, log, init, k);
      OneRowCleared(Commit(db, CleanupTxn(log, init)), log, k);
      MinusMore(db.log, RowSet(init), {k});
      MinusMore(db.idx, ClearedKeys(log, init), if log[k].delete then {} else {log[k].key});
    }
  }

  lemma OneRowCleared(db: DB, log: Log, k: Lex.Key)
    requires k in log
    ensures Commit(db, ClearOne(log, k)).log == db.log - {k}
    ensures Commit(db, ClearOne(log, k)).idx == db.idx - if log[k].delete then {} else {log[k].key}
  {
    if log[k].delete {
      assert [] + [DelLog(k)] == [DelLog(k)];
      CommitSingle(db, DelLog(k));
    } else {
      assert [DelIdx(log[k].key)] + [DelLog(k)] == [DelIdx(log[k].key), DelLog(k)];
      CommitTwo(db, DelIdx(log[k].key), DelLog(k));
    }
  }

  // --------------------------------------------------------------- one leftover

  ghost predicate NothingAt(db: DB, rev: int) {
    (forall k :: k in db.log && |k| > 0 ==> k[0] != rev) && (forall key :: key in db.idx ==> db.idx[key] != rev)
  }

  /** Two entries at one revision that db has nothing at. */
  ghost predicate Conflict(db: DB, left: Entry, e: Entry) {
    ValidEntry(left) && IsData(left) && ValidEntry(e) && IsData(e) && left.revision == e.revision && NothingAt(db, e.revision)
  }

  /** The store with left in it, and then with e recovered over that. */
  function Leftover(db: DB, left: Entry): (db': DB) {
    Commit(db, EntryWrites(left))
  }

  function RecoveredOver(db: DB, e: Entry): (db': DB) {
    Commit(db, Cleanup(db, e) + EntryWrites(e))
  }

  /** What left wrote is rewritten by e or was not live before, and e sees all of it. */
  ghost predicate Replaceable(idx: map<Key, int>, left: Entry, e: Entry) {
    && (e.op == OpTxn || left.op != OpTxn || left.ops == [])
    && (forall key :: WritesKey(left, key) && !WritesKey(e, key) ==> key !in idx)
  }

  lemma LeftoverRows(db: DB, left: Entry, e: Entry, k: Lex.Key)
    requires Conflict(db, left, e)
    ensures k in Scan(Leftover(db, left).log, e.revision, e.revision + 1) <==> k in RowsOf(left)
    ensures k in RowsOf(left) ==> k !in db.log && Leftover(db, left).log[k] == RowsOf(left)[k]
  {
    RowsWritten(db, left);
    if k in RowsOf(left) { RowsAt(left, k); }
  }

  lemma TxnClearsRows(db: DB, left: Entry, e: Entry)
    requires Conflict(db, left, e)
    ensures Leftover(db, left).log - RowSet(Scan(Leftover(db, left).log, e.revision, e.revision + 1)) == db.log
  {
    RowsWritten(db, left);
    forall k ensures k in Scan(Leftover(db, left).log, e.revision, e.revision + 1) <==> k in RowsOf(left)
             ensures k in RowsOf(left) ==> k !in db.log
    {
      LeftoverRows(db, left, e, k);
    }
  }

  lemma TxnClearsKeys(db: DB, left: Entry, e: Entry, key: Key)
    requires Conflict(db, left, e)
    ensures key in ClearedAt(Leftover(db, left), e.revision) <==> Puts(left, key)
  {
    var log := Leftover(db, left).log;
    var keys := Scan(log, e.revision, e.revision + 1);
    if key in ClearedKeys(log, keys) {
      var k :| k in keys && !log[k].delete && log[k].key == key;
      LeftoverRows(db, left, e, k);
      RowIsPut(left, k);
    }
    if Puts(left, key) {
      var k := PutHasRow(left, key);
      LeftoverRows(db, left, e, k);
      assert k in keys && !log[k].delete && log[k].key == key;
    }
  }

  /** What the cleanup before a transaction leaves: no row of the leftover, and none
      of the keys it put in the index. */
  lemma TxnCleanup(db: DB, left: Entry, e: Entry, key: Key)
    requires Conflict(db, left, e) && e.op == OpTxn
    ensures Commit(Leftover(db, left), Cleanup(Leftover(db, left), e)).log == db.log
    ensures IndexAt(Commit(Leftover(db, left), Cleanup(Leftover(db, left), e)).idx, key) ==
            if Puts(left, key) then None else IndexAt(Leftover(db, left).idx, key)
  {
    TxnCleaned(Leftover(db, left), e);
    TxnClearsRows(db, left, e);
    TxnClearsKeys(db, left, e, key);
    MinusAt(Leftover(db, left).idx, ClearedAt(Leftover(db, left), e.revision), key);
  }

  /** The index keys of the rows at a revision. */
  function ClearedAt(db: DB, rev: int): (r: set<Key>) {
    ClearedKeys(db.log, Scan(db.log, rev, rev + 1))
  }

  lemma CleanupIs(over: DB, e: Entry, keys: seq<Lex.Key>)
    requires e.op == OpTxn && keys == Scan(over.log, e.revision, e.revision + 1)
    ensures Cleanup(over, e) == CleanupTxn(over.log, keys)
  {
    StaleRowsIs(over.log, e.revision, keys);
  }

  lemma StaleRowsIs(log: Log, rev: int, keys: seq<Lex.Key>)
    requires keys == Scan(log, rev, rev + 1)
    ensures StaleRows(log, rev) == CleanupTxn(log, keys)
  {
  }

  lemma CommitEqual(db: DB, ws: seq<Write>, ws': seq<Write>, log: Log, idx: map<Key, int>)
    requires ws == ws' && Commit(db, ws').log == log && Commit(db, ws').idx == idx
    ensures Commit(db, ws).log == log && Commit(db, ws).idx == idx
  {
  }

  lemma TxnCleaned(over: DB, e: Entry)
    requires e.op == OpTxn
    ensures Commit(over, Cleanup(over, e)).log == over.log - RowSet(Scan(over.log, e.revision, e.revision + 1))
    ensures Commit(over, Cleanup(over, e)).idx == over.idx - ClearedAt(over, e.revision)
  {
    var keys := Scan(over.log, e.revision, e.revision + 1);
    CleanupIs(over, e, keys);
    RowsCleared(over, over.log, keys);
    CommitEqual(over, Cleanup(over, e), CleanupTxn(over.log, keys), over.log - RowSet(keys), over.idx - ClearedKeys(over.log, keys));
  }

  lemma MinusAt(idx: map<Key, int>, keys: set<Key>, key: Key)
    ensures IndexAt(idx - keys, key) == if key in keys then None else IndexAt(idx, key)
  {
  }

  lemma PlainRow(db: DB, left: Entry, e: Entry)
    requires Conflict(db, left, e)
    ensures [e.revision] in Leftover(db, left).log <==> left.op != OpTxn
    ensures left.op != OpTxn ==> Leftover(db, left).log[[e.revision]] == RecordOf(SubOps(left)[0])
  {
    LeftoverRows(db, left, e, [e.revision]);
    RowsWritten(db, left);
    if left.op == OpTxn { SubRowsAt(left.revision, left.ops, [e.revision]); }
  }

  lemma SinglePuts(left: Entry, key: Key)
    requires ValidEntry(left) && IsData(left) && left.op != OpTxn
    ensures Puts(left, key) <==> left.op != OpDelete && key == left.key
  {
    assert Touches(left, left.key, 0);
  }

  /** Before a single write only the plain row's key can lose its index entry. */
  lemma SingleCleanup(db: DB, left: Entry, e: Entry, key: Key)
    requires Conflict(db, left, e) && e.op != OpTxn
    ensures Commit(Leftover(db, left), Cleanup(Leftover(db, left), e)).log == Leftover(db, left).log
    ensures IndexAt(Commit(Leftover(db, left), Cleanup(Leftover(db, left), e)).idx, key) ==
            if left.op != OpTxn && Puts(left, key) && key != e.key then None else IndexAt(Leftover(db, left).idx, key)
  {
    PlainRow(db, left, e);
    if left.op != OpTxn {
      SinglePuts(left, key);
      CommitSingle(Leftover(db, left), DelIdx(left.key));
    }
  }

  lemma RecoveredIndex(db: DB, left: Entry, e: Entry, key: Key)
    requires Conflict(db, left, e)
    ensures IndexAt(RecoveredOver(Leftover(db, left), e).idx, key) == IndexAt(Commit(db, EntryWrites(e)).idx, key) <==>
            (WritesKey(left, key) && !WritesKey(e, key) ==>
               key !in db.idx && (Puts(left, key) ==> e.op == OpTxn || left.op != OpTxn))
  {
    var over := Leftover(db, left);
    var cleared := Commit(over, Cleanup(over, e));
    CommitAppend(over, Cleanup(over, e), EntryWrites(e));
    IndexWritten(db, left, key);
    IndexWritten(db, e, key);
    IndexWritten(cleared, e, key);
    if e.op == OpTxn {
      TxnCleanup(db, left, e, key);
    } else {
      SingleCleanup(db, left, e, key);
      assert Touches(e, e.key, 0);
    }
  }

  lemma Overwritten<K, V>(m: map<K, V>, a: map<K, V>, b: map<K, V>)
    requires a.Keys <= b.Keys
    ensures m + a + b == m + b
  {
  }

  lemma SubRowsStay(db: DB, left: Entry, e: Entry)
    requires Conflict(db, left, e) && e.op != OpTxn && left.op == OpTxn && left.ops != []
    ensures db.log + RowsOf(left) + RowsOf(e) != db.log + RowsOf(e)
  {
    var at := [left.revision, 0];
    SubRowsAt(left.revision, left.ops, at);
    LeftoverRows(db, left, e, at);
    assert at in db.log + RowsOf(left) + RowsOf(e) && at !in db.log + RowsOf(e);
  }

  lemma RowsReplacedIff(db: DB, left: Entry, e: Entry)
    requires Conflict(db, left, e) && e.op != OpTxn
    ensures db.log + RowsOf(left) + RowsOf(e) == db.log + RowsOf(e) <==> left.op != OpTxn || left.ops == []
  {
    if left.op == OpTxn && left.ops != [] {
      SubRowsStay(db, left, e);
    } else {
      assert RowsOf(left).Keys <= {[e.revision]} == RowsOf(e).Keys;
      Overwritten(db.log, RowsOf(left), RowsOf(e));
    }
  }

  lemma RecoveredRows(db: DB, left: Entry, e: Entry)
    requires Conflict(db, left, e)
    ensures RecoveredOver(Leftover(db, left), e).log == Commit(db, EntryWrites(e)).log <==>
            (e.op == OpTxn || left.op != OpTxn || left.ops == [])
  {
    var over := Leftover(db, left);
    CommitAppend(over, Cleanup(over, e), EntryWrites(e));
    RowsWritten(Commit(over, Cleanup(over, e)), e);
    RowsWritten(db, e);
    RowsWritten(db, left);
    if e.op == OpTxn {
      TxnCleanup(db, left, e, []);
    } else {
      SingleCleanup(db, left, e, []);
      RowsReplacedIff(db, left, e);
    }
  }

  /** Recovering an entry over one that an older term left at its revision gives the
      rows and the index the store would have had without the leftover, if and only
      if every key the leftover wrote is written again or was not live before, and a
      transaction is not replaced by a single write. */
  lemma RecoverReplacesIff(db: DB, left: Entry, e: Entry)
    requires Conflict(db, left, e)
    ensures var got, want := RecoveredOver(Leftover(db, left), e), Commit(db, EntryWrites(e));
            (got.log == want.log && got.idx == want.idx) <==> Replaceable(db.idx, left, e)
  {
    var got, want := RecoveredOver(Leftover(db, left), e), Commit(db, EntryWrites(e));
    RecoveredRows(db, left, e);
    forall key
      ensures IndexAt(got.idx, key) == IndexAt(want.idx, key) <==>
              (WritesKey(left, key) && !WritesKey(e, key) ==>
                 key !in db.idx && (Puts(left, key) ==> e.op == OpTxn || left.op != OpTxn))
    {
      RecoveredIndex(db, left, e, key);
    }
    SameIndex(got.idx, want.idx);
    assert left.ops == [] && left.op == OpTxn ==> forall key :: !WritesKey(left, key);
  }

  lemma SameIndex(a: map<Key, int>, b: map<Key, int>)
    ensures a == b <==> forall key :: IndexAt(a, key) == IndexAt(b, key)
  {
    if forall key :: IndexAt(a, key) == IndexAt(b, key) {
      forall key ensures key in a <==> key in b ensures key in a ==> a[key] == b[key] {
        assert IndexAt(a, key) == IndexAt(b, key);
      }
      assert a == b;
    }
  }

  // --------------------------------------------------------- the promise, and calls

  /** The index entry of key points at a row that puts it. */
  ghost predicate Points(db: DB, key: Key)
    requires key in db.idx
  {
    exists k :: k in db.log && |k| > 0 && k[0] == db.idx[key] && db.log[k].key == key && !db.log[k].delete
  }

  lemma RowPoints(db: DB, key: Key, e: Entry, k: Lex.Key)
    requires key in db.idx && db.idx[key] == e.revision && k in RowsOf(e) && k in db.log && db.log[k] == RowsOf(e)[k]
    requires RowsOf(e)[k].key == key && !RowsOf(e)[k].delete
    ensures Points(db, key)
  {
    RowsAt(e, k);
  }

  /** No index entry is left dangling at the revision. */
  lemma NoDanglingPointer(db: DB, left: Entry, e: Entry, key: Key)
    requires Conflict(db, left, e)
    ensures var got := RecoveredOver(Leftover(db, left), e);
            key in got.idx && got.idx[key] == e.revision ==> Points(got, key)
  {
    var over := Leftover(db, left);
    var cleared, got := Commit(over, Cleanup(over, e)), RecoveredOver(over, e);
    CommitAppend(over, Cleanup(over, e), EntryWrites(e));
    RowsWritten(cleared, e);
    IndexWritten(cleared, e, key);
    if IndexAt(got.idx, key) == Some(e.revision) {
      if Puts(e, key) {
        var k := PutHasRow(e, key);
        RowPoints(got, key, e, k);
      } else {
        StaleSurvivor(db, left, e, key);
      }
    }
  }

  lemma StaleSurvivor(db: DB, left: Entry, e: Entry, key: Key)
    requires Conflict(db, left, e) && !WritesKey(e, key)
    requires IndexAt(RecoveredOver(Leftover(db, left), e).idx, key) == Some(e.revision)
    ensures e.op != OpTxn && left.op == OpTxn && Puts(left, key) && Points(RecoveredOver(Leftover(db, left), e), key)
  {
    var over := Leftover(db, left);
    CommitAppend(over, Cleanup(over, e), EntryWrites(e));
    IndexWritten(Commit(over, Cleanup(over, e)), e, key);
    IndexWritten(db, left, key);
    if e.op == OpTxn {
      TxnCleanup(db, left, e, key);
    } else {
      SingleCleanup(db, left, e, key);
      assert Touches(e, e.key, 0);
      var k := PutHasRow(left, key);
      RowsWritten(Commit(over, Cleanup(over, e)), e);
      LeftoverRows(db, left, e, k);
      if left.op == OpTxn { SubRowsAt(left.revision, left.ops, k); }
      RowPoints(RecoveredOver(over, e), key, left, k);
    }
  }

  /** A key of a transaction that a single write of another key replaced is read as
      holding what that write wrote. */
  lemma SurvivorMisread(db: DB, left: Entry, e: Entry, key: Key)
    requires Conflict(db, left, e) && e.op != OpTxn && left.op == OpTxn && Puts(left, key) && key != e.key
    ensures var got := RecoveredOver(Leftover(db, left), e);
            && key in got.idx
            && LogEntry(got.log, key, got.idx[key]) == Some(RecordToKV(key, e.revision, RecordOf(SubOps(e)[0])))
  {
    var over := Leftover(db, left);
    CommitAppend(over, Cleanup(over, e), EntryWrites(e));
    IndexWritten(Commit(over, Cleanup(over, e)), e, key);
    RowsWritten(Commit(over, Cleanup(over, e)), e);
    IndexWritten(db, left, key);
    SingleCleanup(db, left, e, key);
  }

  function CallWrites(db: DB, e: Entry, recover: bool): (ws: seq<Write>) {
    (if recover then Cleanup(db, e) else []) + EntryWrites(e)
  }

  lemma OneEntryBatch(s: State, e: Entry, recover: bool)
    requires IsData(e)
    ensures BatchOf(s, [e], recover).writes == CallWrites(s.db, e, recover)
  {
    assert [e][..0] == [] && [e][0] == e;
    assert BatchOf(s, [], recover).writes == [];
    Associative([], if recover then Cleanup(s.db, e) else [], EntryWrites(e));
    assert [] + CallWrites(s.db, e, recover) == CallWrites(s.db, e, recover);
  }

  lemma OneEntryCall(s: State, e: Entry, recover: bool)
    requires IsData(e)
    ensures ApplyBatch(s, [e], recover).db.log == Commit(s.db, CallWrites(s.db, e, recover)).log
    ensures ApplyBatch(s, [e], recover).db.idx == Commit(s.db, CallWrites(s.db, e, recover)).idx
  {
    OneEntryBatch(s, e, recover);
    assert ApplyBatch(s, [e], recover) == CommitBatch(s, BatchOf(s, [e], recover));
  }

  lemma NothingAtNext(s: State, hist: seq<Entry>, rev: int)
    requires Represents(s, hist) && rev > CurrentRev(hist)
    ensures NothingAt(s.db, rev)
  {
    forall k | k in s.db.log && |k| > 0 ensures k[0] != rev {
      FullLogBounds(hist, k);
    }
    forall key | key in s.db.idx ensures s.db.idx[key] != rev {
      var k := IndexedRow(s, hist, key);
      FullLogBounds(hist, k);
    }
  }

  /** The same about the calls: recovering e in a store that has applied another
      entry at its revision gives what applying e in its place would have given, if
      and only if the leftover is replaceable. */
  lemma RecoverCallReplacesIff(s: State, hist: seq<Entry>, left: Entry, e: Entry)
    requires Represents(s, hist) && IsData(left) && IsData(e) && left.revision == e.revision > CurrentRev(hist)
    requires ValidEntry(left) && ValidEntry(e)
    ensures var got, want := ApplyBatch(ApplyBatch(s, [left], false), [e], true), ApplyBatch(s, [e], false);
            (got.db.log == want.db.log && got.db.idx == want.db.idx) <==> Replaceable(s.db.idx, left, e)
  {
    NothingAtNext(s, hist, e.revision);
    var s1 := ApplyBatch(s, [left], false);
    OneEntryCall(s, left, false);
    OneEntryCall(s, e, false);
    OneEntryCall(s1, e, true);
    assert [] + EntryWrites(left) == EntryWrites(left) && [] + EntryWrites(e) == EntryWrites(e);
    SameRowsSameRecovery(s1.db, Leftover(s.db, left), e);
    RecoverReplacesIff(s.db, left, e);
  }

  /** Only rows and index matter to a recovery. */
  lemma SameRowsSameRecovery(a: DB, b: DB, e: Entry)
    requires a.log == b.log && a.idx == b.idx && ValidEntry(e) && IsData(e)
    ensures RecoveredOver(a, e).log == RecoveredOver(b, e).log && RecoveredOver(a, e).idx == RecoveredOver(b, e).idx
  {
    assert Cleanup(a, e) == Cleanup(b, e);
    CommitSame(a, b, Cleanup(a, e) + EntryWrites(e));
  }

  lemma {:induction false} CommitSame(a: DB, b: DB, ws: seq<Write>)
    requires a.log == b.log && a.idx == b.idx
    ensures Commit(a, ws).log == Commit(b, ws).log && Commit(a, ws).idx == Commit(b, ws).idx
  {
    if ws != [] { CommitSame(a, b, ws[..|ws| - 1]); }
  }
}

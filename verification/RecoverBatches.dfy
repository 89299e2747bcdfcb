/** Recovering any entries over any store: when the result is what applying them to
    another store would have given, for instance to the same store without what an
    older term left there. */
module RecoverBatches {
  import Lex
  import opened Entries
  import opened Mvcc
  import opened StoreState
  import opened StoreProofs
  import opened StoreReads
  import opened Leftovers

  ghost predicate DataOnly(es: seq<Entry>) {
    forall i :: 0 <= i < |es| ==> IsData(es[i]) && ValidEntry(es[i])
  }

  function Writing(s: State, es: seq<Entry>, recover: bool): (ws: seq<Write>) {
    BatchOf(s, es, recover).writes
  }

  // -------------------------------------------------------------------- one more entry

  lemma WritingMore(s: State, es: seq<Entry>, recover: bool)
    requires es != [] && IsData(es[|es| - 1])
    ensures Writing(s, es, recover) == Writing(s, es[..|es| - 1], recover) + CallWrites(s.db, es[|es| - 1], recover)
  {
    var init, e := es[..|es| - 1], es[|es| - 1];
    Associative(Writing(s, init, recover), if recover then Cleanup(s.db, e) else [], EntryWrites(e));
  }

  /** The entry clears the index entry of key before it writes. */
  ghost predicate Cleans(log: Log, e: Entry, key: Key) {
    if e.op == OpTxn then key in ClearedKeys(log, Scan(log, e.revision, e.revision + 1))
    else [e.revision] in log && !log[[e.revision]].delete && log[[e.revision]].key == key && key != e.key
  }

  /** The entry deletes the row k before it writes. */
  ghost predicate Removes(log: Log, e: Entry, k: Lex.Key) {
    e.op == OpTxn && k in log && |k| > 0 && k[0] == e.revision
  }

  function RowAt(log: Log, k: Lex.Key): (r: Option<Record>) {
    if k in log then Some(log[k]) else None
  }

  lemma CleanupEffect(db: DB, base: DB, e: Entry, key: Key, k: Lex.Key)
    ensures IndexAt(Commit(db, Cleanup(base, e)).idx, key) == if Cleans(base.log, e, key) then None else IndexAt(db.idx, key)
    ensures RowAt(Commit(db, Cleanup(base, e)).log, k) == if Removes(base.log, e, k) then None else RowAt(db.log, k)
  {
    if e.op == OpTxn {
      TxnCleans(db, base, e, key, k);
    } else {
      SingleCleans(db, base.log, e, key);
    }
  }

  lemma TxnCleans(db: DB, base: DB, e: Entry, key: Key, k: Lex.Key)
    requires e.op == OpTxn
    ensures IndexAt(Commit(db, Cleanup(base, e)).idx, key) == if Cleans(base.log, e, key) then None else IndexAt(db.idx, key)
    ensures RowAt(Commit(db, Cleanup(base, e)).log, k) == if Removes(base.log, e, k) then None else RowAt(db.log, k)
  {
    var keys := Scan(base.log, e.revision, e.revision + 1);
    CleanupIs(base, e, keys);
    RowsCleared(db, base.log, keys);
    CommitEqual(db, Cleanup(base, e), CleanupTxn(base.log, keys), db.log - RowSet(keys), db.idx - ClearedKeys(base.log, keys));
    MinusAt(db.idx, ClearedKeys(base.log, keys), key);
    assert k in RowSet(keys) <==> Removes(base.log, e, k);
  }

  lemma SingleCleans(db: DB, log: Log, e: Entry, key: Key)
    requires e.op != OpTxn
    ensures var ws := StaleIndex(log, [e.revision], e.key);
            Commit(db, ws).log == db.log && IndexAt(Commit(db, ws).idx, key) == if Cleans(log, e, key) then None else IndexAt(db.idx, key)
  {
    if [e.revision] in log { CommitSingle(db, DelIdx(log[[e.revision]].key)); }
  }

  lemma EntryEffect(db: DB, e: Entry)
    requires ValidEntry(e) && IsData(e)
    ensures forall key :: IndexAt(Commit(db, EntryWrites(e)).idx, key) == Effect(e, key, IndexAt(db.idx, key))
    ensures forall k :: RowAt(Commit(db, EntryWrites(e)).log, k) == if k in RowsOf(e) then Some(RowsOf(e)[k]) else RowAt(db.log, k)
  {
    RowsWritten(db, e);
    forall key ensures IndexAt(Commit(db, EntryWrites(e)).idx, key) == Effect(e, key, IndexAt(db.idx, key)) {
      IndexWritten(db, e, key);
    }
  }

  // ------------------------------------------------------------- all entries, key by key

  /** The index at key after recovering es over db. */
  ghost function KeyRecovered(db: DB, es: seq<Entry>, key: Key): (r: Option<int>) {
    if es == [] then IndexAt(db.idx, key)
    else
      var init, e := es[..|es| - 1], es[|es| - 1];
      Effect(e, key, if Cleans(db.log, e, key) then None else KeyRecovered(db, init, key))
  }

  ghost function KeyApplied(db: DB, es: seq<Entry>, key: Key): (r: Option<int>) {
    if es == [] then IndexAt(db.idx, key)
    else Effect(es[|es| - 1], key, KeyApplied(db, es[..|es| - 1], key))
  }

  ghost function RowRecovered(db: DB, es: seq<Entry>, k: Lex.Key): (r: Option<Record>) {
    if es == [] then RowAt(db.log, k)
    else
      var init, e := es[..|es| - 1], es[|es| - 1];
      if k in RowsOf(e) then Some(RowsOf(e)[k])
      else if Removes(db.log, e, k) then None
      else RowRecovered(db, init, k)
  }

  ghost function RowApplied(db: DB, es: seq<Entry>, k: Lex.Key): (r: Option<Record>) {
    if es == [] then RowAt(db.log, k)
    else
      var init, e := es[..|es| - 1], es[|es| - 1];
      if k in RowsOf(e) then Some(RowsOf(e)[k]) else RowApplied(db, init, k)
  }

  lemma {:induction false} RecoveredIs(s: State, es: seq<Entry>, key: Key, k: Lex.Key)
    requires DataOnly(es)
    ensures IndexAt(Commit(s.db, Writing(s, es, true)).idx, key) == KeyRecovered(s.db, es, key)
    ensures RowAt(Commit(s.db, Writing(s, es, true)).log, k) == RowRecovered(s.db, es, k)
  {
    if es != [] {
      var init, e := es[..|es| - 1], es[|es| - 1];
      RecoveredIs(s, init, key, k);
      WritingMore(s, es, true);
      var db := Commit(s.db, Writing(s, init, true));
      CommitAppend(s.db, Writing(s, init, true), CallWrites(s.db, e, true));
      CommitAppend(db, Cleanup(s.db, e), EntryWrites(e));
      CleanupEffect(db, s.db, e, key, k);
      EntryEffect(Commit(db, Cleanup(s.db, e)), e);
    }
  }

  lemma {:induction false} AppliedIs(s: State, es: seq<Entry>, key: Key, k: Lex.Key)
    requires DataOnly(es)
    ensures IndexAt(Commit(s.db, Writing(s, es, false)).idx, key) == KeyApplied(s.db, es, key)
    ensures RowAt(Commit(s.db, Writing(s, es, false)).log, k) == RowApplied(s.db, es, k)
  {
    if es != [] {
      var init, e := es[..|es| - 1], es[|es| - 1];
      AppliedIs(s, init, key, k);
      WritingMore(s, es, false);
      assert CallWrites(s.db, e, false) == EntryWrites(e);
      CommitAppend(s.db, Writing(s, init, false), CallWrites(s.db, e, false));
      EntryEffect(Commit(s.db, Writing(s, init, false)), e);
    }
  }

  // --------------------------------------------------------------------- closed forms

  ghost predicate LastWriter(es: seq<Entry>, key: Key, w: int) {
    0 <= w < |es| && WritesKey(es[w], key) && forall j :: w < j < |es| ==> !WritesKey(es[j], key)
  }

  ghost predicate Written(es: seq<Entry>, key: Key) {
    exists i :: 0 <= i < |es| && WritesKey(es[i], key)
  }

  ghost predicate AnyFrom(f: Entry -> bool, es: seq<Entry>, from: int) {
    exists j :: from <= j < |es| && 0 <= j && f(es[j])
  }

  lemma AnyMore(f: Entry -> bool, es: seq<Entry>, from: int)
    requires es != [] && 0 <= from <= |es| - 1
    ensures AnyFrom(f, es, from) <==> AnyFrom(f, es[..|es| - 1], from) || f(es[|es| - 1])
  {
    var init := es[..|es| - 1];
    if AnyFrom(f, init, from) {
      var j :| from <= j < |init| && 0 <= j && f(init[j]);
      assert f(es[j]);
    }
    if AnyFrom(f, es, from) {
      var j :| from <= j < |es| && 0 <= j && f(es[j]);
      assert j < |init| ==> f(init[j]);
    }
  }

  /** Some entry from position from on clears key. */
  ghost predicate CleanedFrom(log: Log, es: seq<Entry>, key: Key, from: int) {
    AnyFrom(e => Cleans(log, e, key), es, from)
  }

  /** The index entry of key comes out the same: the last of es to put it is not followed
      by one that clears it; a key that es does not write is as wanted before, or wanted
      absent and cleared. */
  ghost predicate KeyRestored(db: DB, wanted: DB, es: seq<Entry>, key: Key) {
    && (forall w :: LastWriter(es, key, w) && Puts(es[w], key) ==> !CleanedFrom(db.log, es, key, w + 1))
    && (!Written(es, key) ==>
          IndexAt(wanted.idx, key) == if CleanedFrom(db.log, es, key, 0) then None else IndexAt(db.idx, key))
  }

  lemma CleanedMore(log: Log, es: seq<Entry>, key: Key, from: int)
    requires es != [] && 0 <= from <= |es| - 1
    ensures CleanedFrom(log, es, key, from) <==> CleanedFrom(log, es[..|es| - 1], key, from) || Cleans(log, es[|es| - 1], key)
  {
    AnyMore(e => Cleans(log, e, key), es, from);
  }

  lemma LastWriterInit(es: seq<Entry>, key: Key, w: int)
    requires es != [] && !WritesKey(es[|es| - 1], key)
    ensures LastWriter(es, key, w) <==> LastWriter(es[..|es| - 1], key, w)
  {
    var init := es[..|es| - 1];
    assert forall j :: 0 <= j < |init| ==> init[j] == es[j];
  }

  lemma {:induction false} RecoveredAfterWriter(db: DB, es: seq<Entry>, key: Key, w: int)
    requires LastWriter(es, key, w)
    ensures KeyRecovered(db, es, key) ==
            if Puts(es[w], key) && !CleanedFrom(db.log, es, key, w + 1) then Some(es[w].revision) else None
  {
    var init, e := es[..|es| - 1], es[|es| - 1];
    if w < |es| - 1 {
      LastWriterInit(es, key, w);
      RecoveredAfterWriter(db, init, key, w);
      CleanedMore(db.log, es, key, w + 1);
      NotPut(e, key);
    }
  }

  lemma NotPut(e: Entry, key: Key)
    ensures Puts(e, key) ==> WritesKey(e, key)
  {
    if Puts(e, key) {
      var i :| Touches(e, key, i) && SubOps(e)[i].op != OpDelete;
      assert Touches(e, key, i);
    }
  }

  lemma {:induction false} RecoveredUnwritten(db: DB, es: seq<Entry>, key: Key)
    requires !Written(es, key)
    ensures KeyRecovered(db, es, key) == if CleanedFrom(db.log, es, key, 0) then None else IndexAt(db.idx, key)
  {
    if es != [] {
      var init, e := es[..|es| - 1], es[|es| - 1];
      assert !WritesKey(e, key);
      UnwrittenInit(es, key);
      RecoveredUnwritten(db, init, key);
      CleanedMore(db.log, es, key, 0);
      NotPut(e, key);
    }
  }

  lemma UnwrittenInit(es: seq<Entry>, key: Key)
    requires es != [] && !Written(es, key)
    ensures !Written(es[..|es| - 1], key)
  {
    var init := es[..|es| - 1];
    forall i | 0 <= i < |init| ensures !WritesKey(init[i], key) { assert !WritesKey(es[i], key); }
  }

  lemma {:induction false} AppliedAfterWriter(db: DB, es: seq<Entry>, key: Key, w: int)
    requires LastWriter(es, key, w)
    ensures KeyApplied(db, es, key) == if Puts(es[w], key) then Some(es[w].revision) else None
  {
    if w < |es| - 1 {
      LastWriterInit(es, key, w);
      AppliedAfterWriter(db, es[..|es| - 1], key, w);
      NotPut(es[|es| - 1], key);
    }
  }

  lemma {:induction false} AppliedUnwritten(db: DB, es: seq<Entry>, key: Key)
    requires !Written(es, key)
    ensures KeyApplied(db, es, key) == IndexAt(db.idx, key)
  {
    if es != [] {
      assert !WritesKey(es[|es| - 1], key);
      UnwrittenInit(es, key);
      AppliedUnwritten(db, es[..|es| - 1], key);
      NotPut(es[|es| - 1], key);
    }
  }

  lemma {:induction false} SomeLastWriter(es: seq<Entry>, key: Key) returns (w: int)
    requires Written(es, key)
    ensures LastWriter(es, key, w)
  {
    if WritesKey(es[|es| - 1], key) {
      w := |es| - 1;
    } else {
      var i :| 0 <= i < |es| && WritesKey(es[i], key);
      assert WritesKey(es[..|es| - 1][i], key);
      w := SomeLastWriter(es[..|es| - 1], key);
      LastWriterInit(es, key, w);
    }
  }

  lemma OneLastWriter(es: seq<Entry>, key: Key, w: int, w': int)
    requires LastWriter(es, key, w) && LastWriter(es, key, w')
    ensures w == w'
  {
  }

  lemma KeyIff(db: DB, wanted: DB, es: seq<Entry>, key: Key)
    ensures KeyRecovered(db, es, key) == KeyApplied(wanted, es, key) <==> KeyRestored(db, wanted, es, key)
  {
    if Written(es, key) {
      var w := SomeLastWriter(es, key);
      RecoveredAfterWriter(db, es, key, w);
      AppliedAfterWriter(wanted, es, key, w);
      forall w' | LastWriter(es, key, w') ensures w' == w { OneLastWriter(es, key, w, w'); }
    } else {
      RecoveredUnwritten(db, es, key);
      AppliedUnwritten(wanted, es, key);
    }
  }

  // ------------------------------------------------------------------------- the rows

  ghost predicate RowWritten(es: seq<Entry>, k: Lex.Key) {
    exists i :: 0 <= i < |es| && k in RowsOf(es[i])
  }

  ghost predicate LastRowWriter(es: seq<Entry>, k: Lex.Key, w: int) {
    0 <= w < |es| && k in RowsOf(es[w]) && forall j :: w < j < |es| ==> k !in RowsOf(es[j])
  }

  /** Some entry from position from on deletes the row k. */
  ghost predicate RemovedFrom(log: Log, es: seq<Entry>, k: Lex.Key, from: int) {
    AnyFrom(e => Removes(log, e, k), es, from)
  }

  /** The row comes out the same: the last of es to write it is not followed by one that
      deletes it; a row that es does not write is as wanted before, or wanted absent and
      deleted. */
  ghost predicate RowRestored(db: DB, wanted: DB, es: seq<Entry>, k: Lex.Key) {
    && (forall w :: LastRowWriter(es, k, w) ==> !RemovedFrom(db.log, es, k, w + 1))
    && (!RowWritten(es, k) ==>
          RowAt(wanted.log, k) == if RemovedFrom(db.log, es, k, 0) then None else RowAt(db.log, k))
  }

  lemma RemovedMore(log: Log, es: seq<Entry>, k: Lex.Key, from: int)
    requires es != [] && 0 <= from <= |es| - 1
    ensures RemovedFrom(log, es, k, from) <==> RemovedFrom(log, es[..|es| - 1], k, from) || Removes(log, es[|es| - 1], k)
  {
    AnyMore(e => Removes(log, e, k), es, from);
  }

  lemma LastRowWriterInit(es: seq<Entry>, k: Lex.Key, w: int)
    requires es != [] && k !in RowsOf(es[|es| - 1])
    ensures LastRowWriter(es, k, w) <==> LastRowWriter(es[..|es| - 1], k, w)
  {
    var init := es[..|es| - 1];
    assert forall j :: 0 <= j < |init| ==> init[j] == es[j];
  }

  lemma {:induction false} RowsAfterWriter(db: DB, wanted: DB, es: seq<Entry>, k: Lex.Key, w: int)
    requires LastRowWriter(es, k, w)
    ensures RowRecovered(db, es, k) == if RemovedFrom(db.log, es, k, w + 1) then None else Some(RowsOf(es[w])[k])
    ensures RowApplied(wanted, es, k) == Some(RowsOf(es[w])[k])
  {
    if w < |es| - 1 {
      LastRowWriterInit(es, k, w);
      RowsAfterWriter(db, wanted, es[..|es| - 1], k, w);
      RemovedMore(db.log, es, k, w + 1);
    }
  }

  lemma RowUnwrittenInit(es: seq<Entry>, k: Lex.Key)
    requires es != [] && !RowWritten(es, k)
    ensures k !in RowsOf(es[|es| - 1]) && !RowWritten(es[..|es| - 1], k)
  {
    var init := es[..|es| - 1];
    forall i | 0 <= i < |init| ensures k !in RowsOf(init[i]) { assert k !in RowsOf(es[i]); }
  }

  lemma {:induction false} RowsUnwritten(db: DB, wanted: DB, es: seq<Entry>, k: Lex.Key)
    requires !RowWritten(es, k)
    ensures RowRecovered(db, es, k) == if RemovedFrom(db.log, es, k, 0) then None else RowAt(db.log, k)
    ensures RowApplied(wanted, es, k) == RowAt(wanted.log, k)
  {
    if es != [] {
      RowUnwrittenInit(es, k);
      RowsUnwritten(db, wanted, es[..|es| - 1], k);
      RemovedMore(db.log, es, k, 0);
    }
  }

  lemma {:induction false} SomeLastRowWriter(es: seq<Entry>, k: Lex.Key) returns (w: int)
    requires RowWritten(es, k)
    ensures LastRowWriter(es, k, w)
  {
    if k in RowsOf(es[|es| - 1]) {
      w := |es| - 1;
    } else {
      var i :| 0 <= i < |es| && k in RowsOf(es[i]);
      assert k in RowsOf(es[..|es| - 1][i]);
      w := SomeLastRowWriter(es[..|es| - 1], k);
      LastRowWriterInit(es, k, w);
    }
  }

  lemma OneLastRowWriter(es: seq<Entry>, k: Lex.Key, w: int, w': int)
    requires LastRowWriter(es, k, w) && LastRowWriter(es, k, w')
    ensures w == w'
  {
  }

  lemma RowIff(db: DB, wanted: DB, es: seq<Entry>, k: Lex.Key)
    ensures RowRecovered(db, es, k) == RowApplied(wanted, es, k) <==> RowRestored(db, wanted, es, k)
  {
    if RowWritten(es, k) {
      var w := SomeLastRowWriter(es, k);
      RowsAfterWriter(db, wanted, es, k, w);
      forall w' | LastRowWriter(es, k, w') ensures w' == w { OneLastRowWriter(es, k, w, w'); }
    } else {
      RowsUnwritten(db, wanted, es, k);
    }
  }

  // -------------------------------------------------------------------- the whole call

  lemma SameRows(a: Log, b: Log)
    ensures a == b <==> forall k :: RowAt(a, k) == RowAt(b, k)
  {
    if forall k :: RowAt(a, k) == RowAt(b, k) {
      forall k ensures k in a <==> k in b ensures k in a ==> a[k] == b[k] { assert RowAt(a, k) == RowAt(b, k); }
      assert a == b;
    }
  }

  lemma CallCommits(s: State, es: seq<Entry>, recover: bool)
    ensures ApplyBatch(s, es, recover).db.log == Commit(s.db, Writing(s, es, recover)).log
    ensures ApplyBatch(s, es, recover).db.idx == Commit(s.db, Writing(s, es, recover)).idx
  {
  }

  lemma CallRow(s: State, wanted: State, es: seq<Entry>, k: Lex.Key)
    requires DataOnly(es)
    ensures RowAt(ApplyBatch(s, es, true).db.log, k) == RowAt(ApplyBatch(wanted, es, false).db.log, k)
            <==> RowRestored(s.db, wanted.db, es, k)
  {
    CallCommits(s, es, true);
    CallCommits(wanted, es, false);
    RecoveredIs(s, es, [], k);
    AppliedIs(wanted, es, [], k);
    RowIff(s.db, wanted.db, es, k);
  }

  lemma CallKey(s: State, wanted: State, es: seq<Entry>, key: Key)
    requires DataOnly(es)
    ensures IndexAt(ApplyBatch(s, es, true).db.idx, key) == IndexAt(ApplyBatch(wanted, es, false).db.idx, key)
            <==> KeyRestored(s.db, wanted.db, es, key)
  {
    CallCommits(s, es, true);
    CallCommits(wanted, es, false);
    RecoveredIs(s, es, key, []);
    AppliedIs(wanted, es, key, []);
    KeyIff(s.db, wanted.db, es, key);
  }

  /** Recovering es in one call over s gives the rows and the index that applying es to
      wanted would give, if and only if every row and every index entry comes out the
      same. */
  lemma RecoverBatchIff(s: State, wanted: State, es: seq<Entry>)
    requires DataOnly(es)
    ensures ApplyBatch(s, es, true).db.log == ApplyBatch(wanted, es, false).db.log
            <==> forall k :: RowRestored(s.db, wanted.db, es, k)
    ensures ApplyBatch(s, es, true).db.idx == ApplyBatch(wanted, es, false).db.idx
            <==> forall key :: KeyRestored(s.db, wanted.db, es, key)
  {
    RowsIff(s, wanted, es, ApplyBatch(s, es, true).db.log, ApplyBatch(wanted, es, false).db.log);
    KeysIff(s, wanted, es, ApplyBatch(s, es, true).db.idx, ApplyBatch(wanted, es, false).db.idx);
  }

  lemma RowsIff(s: State, wanted: State, es: seq<Entry>, got: Log, want: Log)
    requires DataOnly(es)
    requires got == ApplyBatch(s, es, true).db.log && want == ApplyBatch(wanted, es, false).db.log
    ensures got == want <==> forall k :: RowRestored(s.db, wanted.db, es, k)
  {
    forall k ensures RowAt(got, k) == RowAt(want, k) <==> RowRestored(s.db, wanted.db, es, k) {
      CallRow(s, wanted, es, k);
    }
    SameRows(got, want);
  }

  lemma KeysIff(s: State, wanted: State, es: seq<Entry>, got: map<Key, int>, want: map<Key, int>)
    requires DataOnly(es)
    requires got == ApplyBatch(s, es, true).db.idx && want == ApplyBatch(wanted, es, false).db.idx
    ensures got == want <==> forall key :: KeyRestored(s.db, wanted.db, es, key)
  {
    forall key ensures IndexAt(got, key) == IndexAt(want, key) <==> KeyRestored(s.db, wanted.db, es, key) {
      CallKey(s, wanted, es, key);
    }
    SameIndex(got, want);
  }

  /** So a store in which an older term has left any number of entries holds, after the
      call, the history with es in their place, when everything is restored. */
  lemma RecoverHolds(s: State, wanted: State, hist: seq<Entry>, es: seq<Entry>)
    requires Represents(wanted, hist) && ValidLog(hist + es) && DataOnly(es)
    requires (forall k :: RowRestored(s.db, wanted.db, es, k)) && forall key :: KeyRestored(s.db, wanted.db, es, key)
    ensures Holds(ApplyBatch(s, es, true).db, hist + es)
  {
    RecoverBatchIff(s, wanted, es);
    ApplyRepresents(wanted, hist, es, false);
  }

  ghost predicate SinglePut(e: Entry) {
    ValidEntry(e) && IsData(e) && e.op != OpTxn && e.op != OpDelete
  }

  lemma SinglePutEffect(e: Entry, key: Key, before: Option<int>)
    requires SinglePut(e)
    ensures Effect(e, key, before) == if key == e.key then Some(e.revision) else before
    ensures RowsOf(e) == map[[e.revision] := RecordOf(SubOps(e)[0])] && RecordOf(SubOps(e)[0]).key == e.key
    ensures !RecordOf(SubOps(e)[0]).delete
  {
    if key == e.key { assert Touches(e, key, 0) && SubOps(e)[0].op != OpDelete; }
  }

  lemma LeftoverCleaned(s: State, left: Entry, f: Entry)
    requires SinglePut(left) && SinglePut(f) && left.key != f.key && left.revision == f.revision
    ensures Cleans(ApplyBatch(s, [left], false).db.log, f, left.key)
  {
    var over := ApplyBatch(s, [left], false);
    OneEntryCall(s, left, false);
    assert [] + EntryWrites(left) == EntryWrites(left);
    EntryEffect(s.db, left);
    SinglePutEffect(left, left.key, None);
    assert RowAt(over.db.log, [f.revision]) == Some(RecordOf(SubOps(left)[0]));
  }

  /** One that is not restored: recovering puts of two keys over a leftover that put the
      first key at the revision of the second loses the first put. */
  lemma LaterCleanupLosesPut(s: State, left: Entry, e: Entry, f: Entry)
    requires SinglePut(left) && SinglePut(e) && SinglePut(f)
    requires left.key == e.key != f.key && e.revision < left.revision == f.revision
    ensures e.key !in ApplyBatch(ApplyBatch(s, [left], false), [e, f], true).db.idx
    ensures e.key in ApplyBatch(s, [e, f], false).db.idx
  {
    var over := ApplyBatch(s, [left], false);
    LeftoverCleaned(s, left, f);
    assert [e, f][..1] == [e] && [e][..0] == [];
    SinglePutEffect(f, e.key, None);
    SinglePutEffect(f, e.key, Some(e.revision));
    SinglePutEffect(e, e.key, IndexAt(s.db.idx, e.key));
    CallCommits(over, [e, f], true);
    CallCommits(s, [e, f], false);
    RecoveredIs(over, [e, f], e.key, []);
    AppliedIs(s, [e, f], e.key, []);
  }
}

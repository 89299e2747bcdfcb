/** Reads of a store, and why each returns the serial state of the entries the
    store represents, at the revision asked for. */
module StoreReads {
  import Lex
  import opened Entries
  import opened Mvcc
  import opened StoreState
  import opened StoreProofs
  import opened Ranges

  type Log = map<Lex.Key, Record>

  datatype Read<+T> = Ok(value: T) | ErrCompacted | ErrFutureRevision | ErrRowNotFound

  function RecordVersion(r: Record): (v: int) {
    if r.version > 0 then r.version else if r.delete then 0 else 1
  }

  function RecordToKV(key: Key, rev: int, r: Record): (kv: KeyValue) {
    KeyValue(key, r.value, rev, r.createRev, r.prevRev, RecordVersion(r), r.lease)
  }

  /** What a row says about its key. */
  function RowValue(log: Log, k: Lex.Key): (r: Option<KeyValue>)
    requires k in log && |k| > 0
  {
    if log[k].delete then None else Some(RecordToKV(log[k].key, k[0], log[k]))
  }

  // ------------------------------------------------------------- newest rows

  ghost predicate HasRow(log: Log, key: Key, rev: int, k: Lex.Key) {
    k in log && |k| > 0 && log[k].key == key && k[0] <= rev
  }

  /** k is a row of key with the highest revision at or below rev. */
  ghost predicate Newest(log: Log, key: Key, rev: int, k: Lex.Key) {
    HasRow(log, key, rev, k) && forall k' :: HasRow(log, key, rev, k') ==> k'[0] <= k[0]
  }

  lemma {:induction false} NewestExists(log: Log, key: Key, rev: int, rows: set<Lex.Key>)
    requires forall k :: k in rows <==> HasRow(log, key, rev, k)
    requires rows != {}
    ensures exists k :: Newest(log, key, rev, k)
  {
    var best := HighestRow(rows);
    assert Newest(log, key, rev, best);
  }

  lemma {:induction false} HighestRow(rows: set<Lex.Key>) returns (best: Lex.Key)
    requires rows != {} && forall k :: k in rows ==> |k| > 0
    ensures best in rows && forall k :: k in rows ==> k[0] <= best[0]
    decreases |rows|
  {
    var k :| k in rows;
    best := k;
    if rows != {k} {
      var other := HighestRow(rows - {k});
      if other[0] > k[0] { best := other; }
      assert forall x :: x in rows ==> x == k || x in rows - {k};
    }
  }

  lemma SomeRowHasNewest(log: Log, key: Key, rev: int, k: Lex.Key)
    requires HasRow(log, key, rev, k)
    ensures exists k' :: Newest(log, key, rev, k')
  {
    var rows := set x | x in log && HasRow(log, key, rev, x);
    assert k in rows;
    NewestExists(log, key, rev, rows);
  }

  /** Compaction keeps the newest row at or before every permitted revision. */
  lemma NewestKept(log: Log, full: Log, upTo: int, key: Key, rev: int, k: Lex.Key)
    requires LogHolds(log, full, upTo) && rev >= upTo
    ensures Newest(full, key, rev, k) <==> Newest(log, key, rev, k)
  {
    if Newest(full, key, rev, k) {
      NewestNotMissing(log, full, upTo, key, rev, k);
      assert forall k' :: HasRow(log, key, rev, k') ==> HasRow(full, key, rev, k');
    }
    if Newest(log, key, rev, k) {
      assert HasRow(full, key, rev, k);
      SomeRowHasNewest(full, key, rev, k);
      var top :| Newest(full, key, rev, top);
      NewestNotMissing(log, full, upTo, key, rev, top);
      assert HasRow(log, key, rev, top);
    }
  }

  lemma NewestNotMissing(log: Log, full: Log, upTo: int, key: Key, rev: int, k: Lex.Key)
    requires LogHolds(log, full, upTo) && rev >= upTo && Newest(full, key, rev, k)
    ensures k in log && HasRow(log, key, rev, k)
  {
    assert k !in log ==> Superseded(full, k, upTo);
    assert forall k' :: k' in full && |k'| > 0 && full[k'].key == key && k'[0] <= upTo ==> HasRow(full, key, rev, k');
  }

  lemma NoRowKept(log: Log, full: Log, upTo: int, key: Key, rev: int)
    requires LogHolds(log, full, upTo) && rev >= upTo
    requires forall k :: !HasRow(log, key, rev, k)
    ensures forall k :: !HasRow(full, key, rev, k)
  {
    forall k | HasRow(full, key, rev, k) ensures false {
      SomeRowHasNewest(full, key, rev, k);
      var top :| Newest(full, key, rev, top);
      NewestNotMissing(log, full, upTo, key, rev, top);
    }
  }

  // ------------------------------------- the full log against the serial state

  function RowKey(e: Entry, i: int): (k: Lex.Key) {
    if e.op == OpTxn then [e.revision, i] else [e.revision]
  }

  lemma RowOfOp(e: Entry, i: int)
    requires ValidEntry(e) && IsData(e) && 0 <= i < |SubOps(e)|
    ensures RowKey(e, i) in RowsOf(e) && RowsOf(e)[RowKey(e, i)] == RecordOf(SubOps(e)[i])
  {
    if e.op == OpTxn { SubRowsAt(e.revision, e.ops, RowKey(e, i)); }
  }

  lemma OpOfRow(e: Entry, k: Lex.Key) returns (i: int)
    requires ValidEntry(e) && k in RowsOf(e)
    ensures IsData(e) && 0 <= i < |SubOps(e)| && k == RowKey(e, i) && RowsOf(e)[k] == RecordOf(SubOps(e)[i])
  {
    RowsAt(e, k);
    if e.op == OpTxn {
      SubRowsAt(e.revision, e.ops, k);
      i := k[1];
      assert k == [k[0], k[1]];
    } else {
      i := 0;
    }
  }

  /** The newest row of a key in the full log says what the serial state holds;
      a key without a row is not in the serial state. */
  ghost predicate RowsAgree(es: seq<Entry>, key: Key, rev: int) {
    && (forall k :: Newest(FullLog(es), key, rev, k) ==> Lookup(ViewAt(es, rev), key) == RowValue(FullLog(es), k))
    && ((forall k :: !HasRow(FullLog(es), key, rev, k)) ==> key !in ViewAt(es, rev))
  }

  ghost predicate Touches(e: Entry, key: Key, i: int) {
    0 <= i < |SubOps(e)| && SubOps(e)[i].key == key
  }

  /** When the last entry counts and touches the key, its row decides. */
  lemma AgreeTouched(init: seq<Entry>, e: Entry, key: Key, rev: int, i: int)
    requires ValidLog(init + [e]) && IsData(e) && e.revision <= rev && Touches(e, key, i)
    ensures RowsAgree(init + [e], key, rev)
  {
    Extend(init, e);
    var full, at := FullLog(init + [e]), RowKey(e, i);
    RowOfOp(e, i);
    assert HasRow(full, key, rev, at);
    forall k | Newest(full, key, rev, k) ensures k == at {
      if k in RowsOf(e) {
        var j := OpOfRow(e, k);
        assert SubOps(e)[j].key == key;
      } else {
        FullLogBounds(init, k);
      }
    }
    ApplySubsLookup(ViewAt(init, rev), e.revision, SubOps(e), key);
  }

  /** Otherwise its rows are not rows of the key at rev. */
  lemma AgreeUntouched(init: seq<Entry>, e: Entry, key: Key, rev: int)
    requires ValidLog(init + [e]) && RowsAgree(init, key, rev)
    requires IsData(e) && e.revision <= rev ==> forall i :: !Touches(e, key, i)
    ensures RowsAgree(init + [e], key, rev)
  {
    Extend(init, e);
    var full, full' := FullLog(init), FullLog(init + [e]);
    forall k
      ensures HasRow(full', key, rev, k) <==> HasRow(full, key, rev, k)
      ensures k in full ==> k in full' && full'[k] == full[k]
    {
      if k in full {
        OldRowKept(init, e, k);
      } else if k in RowsOf(e) {
        var i := OpOfRow(e, k);
        assert !Touches(e, key, i) || e.revision > rev;
      }
    }
    if IsData(e) && e.revision <= rev {
      assert forall i :: 0 <= i < |SubOps(e)| ==> SubOps(e)[i].key != key by {
        forall i | 0 <= i < |SubOps(e)| ensures SubOps(e)[i].key != key { assert !Touches(e, key, i); }
      }
      ApplySubsLookup(ViewAt(init, rev), e.revision, SubOps(e), key);
    }
    forall k | Newest(full', key, rev, k) ensures Newest(full, key, rev, k) {
      assert HasRow(full, key, rev, k);
    }
    assert Lookup(ViewAt(init + [e], rev), key) == Lookup(ViewAt(init, rev), key);
  }

  lemma {:induction false} FullLogAgrees(es: seq<Entry>, key: Key, rev: int)
    requires ValidLog(es)
    ensures RowsAgree(es, key, rev)
  {
    if es != [] {
      var init, e := es[..|es| - 1], es[|es| - 1];
      assert es == init + [e];
      FullLogAgrees(init, key, rev);
      if i :| IsData(e) && e.revision <= rev && Touches(e, key, i) {
        AgreeTouched(init, e, key, rev, i);
      } else {
        AgreeUntouched(init, e, key, rev);
      }
    }
  }

  // ---------------------------------------------------------- reads at a revision

  /** The last listed row of key, as the backward iteration of getAtRevision finds it. */
  function LastRow(log: Log, keys: seq<Lex.Key>, key: Key): (r: Option<Lex.Key>)
    requires forall k :: k in keys ==> k in log
    ensures r.Some? ==> r.value in keys && log[r.value].key == key
    ensures r.None? ==> forall k :: k in keys ==> log[k].key != key
  {
    if keys == [] then None
    else if log[keys[|keys| - 1]].key == key then Some(keys[|keys| - 1])
    else LastRow(log, keys[..|keys| - 1], key)
  }

  function ReadAt(log: Log, key: Key, rev: int): (r: Option<KeyValue>) {
    match LastRow(log, Scan(log, 0, Unsigned(rev + 1)), key)
    case None => None
    case Some(k) => RowValue(log, k)
  }

  lemma {:induction false} LastRowIsHighest(log: Log, keys: seq<Lex.Key>, key: Key)
    requires Lex.Sorted(keys) && forall k :: k in keys ==> k in log && |k| > 0
    ensures var r := LastRow(log, keys, key);
            r.Some? ==> forall k :: k in keys && log[k].key == key ==> k[0] <= r.value[0]
  {
    if keys != [] {
      var n := |keys| - 1;
      if log[keys[n]].key == key {
        assert forall i :: 0 <= i < n ==> Lex.Less(keys[i], keys[n]);
      } else {
        LastRowIsHighest(log, keys[..n], key);
        assert keys == keys[..n] + [keys[n]];
      }
    }
  }

  ghost predicate PositiveRows(log: Log) {
    forall k :: k in log ==> |k| > 0 && k[0] > 0
  }

  lemma RepresentedRowsPositive(s: State, es: seq<Entry>)
    requires Represents(s, es)
    ensures PositiveRows(s.db.log)
  {
    forall k | k in s.db.log ensures |k| > 0 && k[0] > 0 {
      FullLogBounds(es, k);
    }
  }

  lemma ReadAtNewest(log: Log, key: Key, rev: int)
    requires PositiveRows(log) && rev >= 0
    ensures var r := LastRow(log, Scan(log, 0, Unsigned(rev + 1)), key);
            && (r.Some? ==> Newest(log, key, rev, r.value))
            && (r.None? ==> forall k :: !HasRow(log, key, rev, k))
  {
    var keys := Scan(log, 0, Unsigned(rev + 1));
    assert Lex.Sorted(keys);
    LastRowIsHighest(log, keys, key);
    forall k | HasRow(log, key, rev, k) ensures k in keys {
    }
  }

  /** A read at any revision from the highest compaction target on returns the
      serial state at that revision. */
  lemma ReadAtIsSerial(s: State, es: seq<Entry>, key: Key, rev: int)
    requires Represents(s, es) && rev >= MaxCompact(es) && rev >= 0
    ensures ReadAt(s.db.log, key, rev) == Lookup(ViewAt(es, rev), key)
  {
    var log, full := s.db.log, FullLog(es);
    RepresentedRowsPositive(s, es);
    ReadAtNewest(log, key, rev);
    FullLogAgrees(es, key, rev);
    match LastRow(log, Scan(log, 0, Unsigned(rev + 1)), key) {
      case Some(k) => NewestKept(log, full, MaxCompact(es), key, rev, k);
      case None => NoRowKept(log, full, MaxCompact(es), key, rev);
    }
  }

  // ------------------------------------------------------------ reads at HEAD

  function FirstRow(log: Log, keys: seq<Lex.Key>, key: Key): (r: Option<Lex.Key>)
    requires forall k :: k in keys ==> k in log
    ensures r.Some? ==> r.value in keys && log[r.value].key == key
    ensures r.None? ==> forall k :: k in keys ==> log[k].key != key
  {
    if keys == [] then None
    else if log[keys[0]].key == key then Some(keys[0])
    else FirstRow(log, keys[1..], key)
  }

  /** getLogEntry: the row [rev], else the first sub-row at rev with this key;
      None is the not-found error. */
  function LogEntry(log: Log, key: Key, rev: int): (r: Option<KeyValue>) {
    if [rev] in log then Some(RecordToKV(key, rev, log[[rev]]))
    else
      match FirstRow(log, Scan(log, rev, rev + 1), key)
      case None => None
      case Some(k) => Some(RecordToKV(key, rev, log[k]))
  }

  /** At one revision there is either one plain row or one row per key. */
  lemma {:induction false} RowsAtOneRevision(es: seq<Entry>, k: Lex.Key, k': Lex.Key)
    requires ValidLog(es) && k in FullLog(es) && k' in FullLog(es)
    requires |k| > 0 && |k'| > 0 && k[0] == k'[0]
    requires k == [k[0]] || FullLog(es)[k].key == FullLog(es)[k'].key
    ensures k == k'
  {
    var init, e := es[..|es| - 1], es[|es| - 1];
    assert es == init + [e];
    if k in RowsOf(e) {
      RowsAt(e, k);
      if k' !in RowsOf(e) { FullLogBounds(init, k'); }
      var i := OpOfRow(e, k);
      var j := OpOfRow(e, k');
    } else {
      FullLogBounds(init, k);
      if k' in RowsOf(e) { RowsAt(e, k'); }
      RowsAtOneRevision(init, k, k');
    }
  }

  /** The row the index points to survives every compaction and carries the serial value. */
  lemma IndexedRow(s: State, es: seq<Entry>, key: Key) returns (k: Lex.Key)
    requires Represents(s, es) && key in ViewOf(es)
    ensures k in s.db.log && |k| > 0 && k[0] == ViewOf(es)[key].revision && s.db.log[k].key == key
    ensures RowValue(s.db.log, k) == Some(ViewOf(es)[key])
  {
    var rev := Max(CurrentRev(es), MaxCompact(es));
    ViewAtCurrent(es, rev);
    FullLogAgrees(es, key, rev);
    var k0 :| HasRow(FullLog(es), key, rev, k0);
    SomeRowHasNewest(FullLog(es), key, rev, k0);
    k :| Newest(FullLog(es), key, rev, k);
    NewestKept(s.db.log, FullLog(es), MaxCompact(es), key, rev, k);
  }

  /** Following the index yields the serial value of every live key. */
  lemma LogEntryIsSerial(s: State, es: seq<Entry>, key: Key)
    requires Represents(s, es) && key in ViewOf(es)
    ensures key in s.db.idx && s.db.idx[key] > 0
    ensures LogEntry(s.db.log, key, s.db.idx[key]) == Some(ViewOf(es)[key])
  {
    var k := IndexedRow(s, es, key);
    FullLogBounds(es, k);
    var log, rev := s.db.log, s.db.idx[key];
    if [rev] in log {
      RowsAtOneRevision(es, [rev], k);
    } else {
      var keys := Scan(log, rev, rev + 1);
      assert k in keys;
      var r := FirstRow(log, keys, key);
      RowsAtOneRevision(es, k, r.value);
    }
  }

  // ------------------------------------------------------------------ the answers

  /** What Get says. */
  function CurrentAnswer(s: State, key: Key): (r: Read<Option<KeyValue>>) {
    if key !in s.db.idx || s.db.idx[key] == 0 then Ok(None)
    else
      match LogEntry(s.db.log, key, s.db.idx[key])
      case None => ErrRowNotFound
      case Some(kv) => Ok(Some(kv))
  }

  /** What GetAt says. */
  function AnswerAt(s: State, key: Key, revision: int): (r: Read<Option<KeyValue>>) {
    if revision == 0 then CurrentAnswer(s, key)
    else if s.compactRev > 0 && revision < s.compactRev then ErrCompacted
    else if revision > s.currentRev then ErrFutureRevision
    else Ok(ReadAt(s.db.log, key, revision))
  }

  lemma CurrentIsSerial(s: State, es: seq<Entry>, key: Key)
    requires Represents(s, es)
    ensures CurrentAnswer(s, key) == Ok(Lookup(ViewOf(es), key))
  {
    if key in ViewOf(es) { LogEntryIsSerial(s, es, key); }
  }
}

/** What the entries and counts of a Range answer say about the state that was read. */
module EtcdWire {
  import Lex
  import opened Entries
  import opened Mvcc
  import Serial
  import opened StoreLists
  import opened StoreState
  import opened StoreReads
  import opened EtcdRange
  import S = Store

  // --------------------------------------------------------------------- one answer

  /** A live key the request asks for; the server's own keys are nobody's. */
  predicate Asked(v: View, key: Key, end: Key, k: Key) {
    && k in v && !IsInternal(k)
    && (if end == [] then k == key else Lex.LessEq(key, k) && (end == OPEN || Lex.Less(k, end)))
  }

  /** An entry shows what the key held, with revisions one up, and without the value if
      only keys were asked for. */
  predicate Shows(w: WireKV, kv: KeyValue, keysOnly: bool) {
    && w.key == kv.key && w.modRevision == kv.revision + 1 && w.createRevision == kv.createRev + 1
    && w.lease == kv.lease && w.version == (if kv.version > 0 then kv.version else 1)
    && w.value == if keysOnly then [] else kv.value
  }

  /** A watch reports exactly the keys that a Range of the same bounds asks for, and the
      server's own ones. */
  lemma WatchReportsRange(v: View, key: Key, end: Key, k: Key)
    requires k in v && !IsInternal(k)
    ensures WatchMatches(k, key, end) <==> Asked(v, key, end, k)
  {
  }

  lemma MatchesAre(v: View, key: Key, end: Key)
    ensures forall k: Key :: k in Matches(v, key, end) <==> Asked(v, key, end, k)
    ensures |Matches(v, key, end)| == |set k: Key | k in v && Asked(v, key, end, k)|
  {
    assert (set k | k in v && (if end == [] then k == key && !IsInternal(k) else MatchRange(k, key, end))) ==
           set k: Key | k in v && Asked(v, key, end, k);
  }

  lemma {:induction false} ValuesAt(v: View, names: seq<Key>, i: nat)
    requires i < |names| && forall k :: k in names ==> k in v
    ensures |Values(v, names)| == |names| && Values(v, names)[i] == v[names[i]]
  {
    ValuesLength(v, names);
    var init := names[..|names| - 1];
    ValuesLength(v, init);
    if i < |init| { ValuesAt(v, init, i); }
  }

  /** The keys of an answer. */
  function Returned(v: View, key: Key, end: Key, limit: int, countOnly: bool): (names: seq<Key>) {
    if countOnly then [] else if end == [] then Matches(v, key, end) else Limit(Matches(v, key, end), limit)
  }

  lemma AnswerAtIndex(v: View, key: Key, end: Key, limit: int, countOnly: bool, keysOnly: bool, current: int, wire: int, i: nat)
    requires Keyed(v)
    ensures var kvs, names := WireAnswer(Reference(v, key, end, limit, countOnly, keysOnly), current, wire).kvs,
                              Returned(v, key, end, limit, countOnly);
            |kvs| == |names| && (i < |names| ==> names[i] in v && Shows(kvs[i], v[names[i]], keysOnly))
  {
    var names := Returned(v, key, end, limit, countOnly);
    ValuesLength(v, names);
    if i < |names| {
      assert names[i] in names;
      ValuesAt(v, names, i);
    }
  }

  /** The answer names its keys in the order of the listing, from the first on. */
  lemma AnswerNames(v: View, key: Key, end: Key, limit: int, countOnly: bool, keysOnly: bool, current: int, wire: int, kvs: seq<WireKV>)
    requires Keyed(v) && kvs == WireAnswer(Reference(v, key, end, limit, countOnly, keysOnly), current, wire).kvs
    ensures |kvs| <= |Matches(v, key, end)| && forall i :: 0 <= i < |kvs| ==> kvs[i].key == Matches(v, key, end)[i]
    ensures forall i :: 0 <= i < |kvs| ==> Asked(v, key, end, kvs[i].key) && Shows(kvs[i], v[kvs[i].key], keysOnly)
  {
    MatchesAre(v, key, end);
    var all, names := Matches(v, key, end), Returned(v, key, end, limit, countOnly);
    AnswerAtIndex(v, key, end, limit, countOnly, keysOnly, current, wire, 0);
    forall i | 0 <= i < |kvs|
      ensures kvs[i].key == all[i] && Asked(v, key, end, kvs[i].key) && Shows(kvs[i], v[kvs[i].key], keysOnly)
    {
      AnswerAtIndex(v, key, end, limit, countOnly, keysOnly, current, wire, i);
      assert names[i] == all[i] && all[i] in all;
    }
  }

  /** The count is that of all asked-for keys, however many are returned, and more says
      that not all of them are. */
  lemma AnswerCounts(v: View, key: Key, end: Key, limit: int, countOnly: bool, keysOnly: bool, current: int, wire: int)
    requires Keyed(v)
    ensures var a := WireAnswer(Reference(v, key, end, limit, countOnly, keysOnly), current, wire);
            var n := |set k: Key | k in v && Asked(v, key, end, k)|;
            && a.revision == (if wire <= 0 then current + 1 else wire) && a.count == n
            && |a.kvs| == (if countOnly then 0 else if end != [] && 0 < limit < n then limit else n)
            && (a.more <==> !countOnly && |a.kvs| < n)
  {
    MatchesAre(v, key, end);
    AnswerAtIndex(v, key, end, limit, countOnly, keysOnly, current, wire, 0);
    if end == [] { OneReference(v, key); }
  }

  /** The entries are the asked-for keys in ascending order, from the first on, each as
      the state has it. */
  lemma AnswerMeans(v: View, key: Key, end: Key, limit: int, countOnly: bool, keysOnly: bool, current: int, wire: int, kvs: seq<WireKV>)
    requires Keyed(v) && kvs == WireAnswer(Reference(v, key, end, limit, countOnly, keysOnly), current, wire).kvs
    ensures forall i :: 0 <= i < |kvs| ==> Asked(v, key, end, kvs[i].key) && Shows(kvs[i], v[kvs[i].key], keysOnly)
    ensures forall i, j :: 0 <= i < j < |kvs| ==> Lex.Less(kvs[i].key, kvs[j].key)
    ensures forall k: Key :: Asked(v, key, end, k) && (forall i :: 0 <= i < |kvs| ==> kvs[i].key != k) ==>
              forall i :: 0 <= i < |kvs| ==> Lex.Less(kvs[i].key, k)
  {
    var all := Matches(v, key, end);
    AnswerNames(v, key, end, limit, countOnly, keysOnly, current, wire, kvs);
    MatchesAre(v, key, end);
    forall k: Key | Asked(v, key, end, k) && (forall i :: 0 <= i < |kvs| ==> kvs[i].key != k)
      ensures forall i :: 0 <= i < |kvs| ==> Lex.Less(kvs[i].key, k)
    {
      assert k in all;
      var j :| 0 <= j < |all| && all[j] == k;
      assert j >= |kvs|;
    }
  }

  // ------------------------------------------------------------- the rows behind it

  /** Every record of the history was written by a leader as Serial decides. */
  ghost predicate LeaderLog(es: seq<Entry>) {
    forall i :: 0 <= i < |es| ==> Serial.BoundedEntry(es[i])
  }

  lemma RowBounded(e: Entry, k: Lex.Key)
    requires Serial.BoundedEntry(e) && ValidEntry(e) && k in RowsOf(e) && !RowsOf(e)[k].delete
    ensures |k| > 0 && 1 <= RowsOf(e)[k].createRev <= k[0]
  {
    RowsAt(e, k);
    if e.op == OpTxn {
      SubRowsAt(e.revision, e.ops, k);
      assert Serial.BoundedOp(SubOps(e)[k[1]], e.revision);
    } else {
      assert Serial.BoundedOp(SubOps(e)[0], e.revision);
    }
  }

  lemma {:induction false} FullLogBounded(es: seq<Entry>, k: Lex.Key)
    requires LeaderLog(es) && ValidLog(es) && k in FullLog(es) && !FullLog(es)[k].delete
    ensures |k| > 0 && 1 <= FullLog(es)[k].createRev <= k[0]
  {
    var init, e := es[..|es| - 1], es[|es| - 1];
    if k in RowsOf(e) {
      RowBounded(e, k);
    } else {
      FullLogBounded(init, k);
    }
  }

  /** The row that a read of key at a revision, or at 0 of the current state, tells. */
  lemma RowBehind(db: S.Store, revision: int, key: Key) returns (k: Lex.Key)
    requires db.Valid() && revision >= 0 && key in ReadView(db, revision)
    ensures var kv := ReadView(db, revision)[key];
            && k in db.db.log && |k| > 0 && k[0] == kv.revision && db.db.log[k].key == key && RowValue(db.db.log, k) == Some(kv)
            && 0 < kv.revision <= if revision == 0 then db.currentRev else revision
  {
    RepresentedRowsPositive(db.Abs(), db.hist);
    if revision == 0 {
      k := IndexedRow(db.Abs(), db.hist, key);
      FullLogBounds(db.hist, k);
    } else {
      StoredLookup(db.db.log, key, revision);
      k := LastRow(db.db.log, Scan(db.db.log, 0, Unsigned(revision + 1)), key).value;
    }
  }

  /** A read at the revision of a row tells that row. */
  lemma RowIsRead(db: S.Store, k: Lex.Key)
    requires db.Valid() && k in db.db.log
    ensures |k| > 0 && ReadAt(db.db.log, db.db.log[k].key, k[0]) == RowValue(db.db.log, k)
  {
    var log, key := db.db.log, db.db.log[k].key;
    RepresentedRowsPositive(db.Abs(), db.hist);
    ReadAtNewest(log, key, k[0]);
    assert HasRow(log, key, k[0], k);
    var k' := LastRow(log, Scan(log, 0, Unsigned(k[0] + 1)), key).value;
    RowsAtOneRevision(db.hist, k', k);
  }

  lemma ReadAgain(db: S.Store, revision: int, key: Key)
    requires db.Valid() && revision >= 0 && key in ReadView(db, revision)
    ensures var r := ReadView(db, revision)[key].revision;
            r > 0 && Lookup(ReadView(db, r), key) == Lookup(ReadView(db, revision), key)
  {
    var k := RowBehind(db, revision, key);
    RowIsRead(db, k);
    StoredLookup(db.db.log, key, k[0]);
  }

  lemma FieldsInOrder(db: S.Store, revision: int, key: Key)
    requires db.Valid() && LeaderLog(db.hist) && revision >= 0 && key in ReadView(db, revision)
    ensures var kv := ReadView(db, revision)[key];
            1 <= kv.createRev <= kv.revision <= if revision == 0 then db.currentRev else revision
  {
    var k := RowBehind(db, revision, key);
    FullLogBounded(db.hist, k);
  }

  // ------------------------------------------------------------ the answers of Range

  /** What Range answers when it does not fail. */
  ghost function Answer(db: S.Store, key: Key, end: Key, wire: int, limit: int, countOnly: bool, keysOnly: bool): (a: WireResponse)
    reads db
  {
    WireAnswer(Reference(WireView(db, wire), key, end, limit, countOnly, keysOnly), db.currentRev, wire)
  }

  lemma EntryFields(db: S.Store, rev: int, w: WireKV, keysOnly: bool)
    requires db.Valid() && LeaderLog(db.hist) && rev >= 0
    requires w.key in ReadView(db, rev) && Shows(w, ReadView(db, rev)[w.key], keysOnly)
    ensures 2 <= w.createRevision <= w.modRevision <= 1 + if rev == 0 then db.currentRev else rev
  {
    FieldsInOrder(db, rev, w.key);
  }

  lemma EntryReread(db: S.Store, rev: int, w: WireKV, keysOnly: bool)
    requires db.Valid() && rev >= 0 && !IsInternal(w.key)
    requires w.key in ReadView(db, rev) && Shows(w, ReadView(db, rev)[w.key], keysOnly)
    ensures Answer(db, w.key, [], w.modRevision, 0, false, keysOnly).kvs == [w]
  {
    ReadAgain(db, rev, w.key);
    OneEntry(WireView(db, w.modRevision), w, keysOnly, db.currentRev, w.modRevision);
  }

  /** Every entry of an answer was created before it was last modified, and that not
      after the revision in the header; and a Range of its key at the revision it was
      last modified returns just this entry, unless that revision is compacted. */
  lemma EntriesAreHistory(db: S.Store, key: Key, end: Key, wire: int, limit: int, countOnly: bool, keysOnly: bool, i: nat, w: WireKV)
    requires db.Valid() && LeaderLog(db.hist)
    requires i < |Answer(db, key, end, wire, limit, countOnly, keysOnly).kvs| && w == Answer(db, key, end, wire, limit, countOnly, keysOnly).kvs[i]
    ensures 2 <= w.createRevision <= w.modRevision <= Answer(db, key, end, wire, limit, countOnly, keysOnly).revision
    ensures Answer(db, w.key, [], w.modRevision, 0, false, keysOnly).kvs == [w]
  {
    EntryShows(db, key, end, wire, limit, countOnly, keysOnly, i);
    EntryFields(db, FromEtcd(wire), w, keysOnly);
    EntryReread(db, FromEtcd(wire), w, keysOnly);
  }

  lemma EntryShows(db: S.Store, key: Key, end: Key, wire: int, limit: int, countOnly: bool, keysOnly: bool, i: nat)
    requires i < |Answer(db, key, end, wire, limit, countOnly, keysOnly).kvs|
    ensures var w := Answer(db, key, end, wire, limit, countOnly, keysOnly).kvs[i];
            && wire != 1 && w.key in ReadView(db, FromEtcd(wire)) && !IsInternal(w.key)
            && Shows(w, ReadView(db, FromEtcd(wire))[w.key], keysOnly)
  {
    AnswerMeans(WireView(db, wire), key, end, limit, countOnly, keysOnly, db.currentRev, wire,
                Answer(db, key, end, wire, limit, countOnly, keysOnly).kvs);
  }

  lemma OneEntry(v: View, w: WireKV, keysOnly: bool, current: int, wire: int)
    requires Keyed(v) && w.key in v && !IsInternal(w.key) && Shows(w, v[w.key], keysOnly)
    ensures WireAnswer(Reference(v, w.key, [], 0, false, keysOnly), current, wire).kvs == [w]
  {
    var kvs := WireAnswer(Reference(v, w.key, [], 0, false, keysOnly), current, wire).kvs;
    OneReference(v, w.key);
    AnswerAtIndex(v, w.key, [], 0, false, keysOnly, current, wire, 0);
    assert kvs[0] == w;
  }
}

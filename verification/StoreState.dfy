/** The Pebble contents of a store and what one batch of WAL entries does to them. */
module StoreState {
  import Lex
  import opened Entries
  import opened Mvcc

  /** One row of the change log. */
  datatype Record = Record(key: Key, value: Value, createRev: int, prevRev: int, version: int,
                           lease: int, create: bool, delete: bool)

  /** Log rows by key [rev] or, inside a transaction, [rev, subIndex]; the index
      from live key to its current revision; and the meta keys. */
  datatype DB = DB(log: map<Lex.Key, Record>, idx: map<Key, int>,
                   metaCompact: Option<int>, metaRev: Option<int>, metaSeq: Option<int>)

  datatype State = State(db: DB, currentRev: int, compactRev: int, lastSeq: int)

  const EMPTY: State := State(DB(map[], map[], None, None, None), 0, 0, 0)

  /** A Pebble batch is a list of updates, invisible to reads until committed. */
  datatype Write =
    | SetLog(at: Lex.Key, row: Record)
    | DelLog(at: Lex.Key)
    | SetIdx(key: Key, rev: int)
    | DelIdx(key: Key)
    | SetCompact(rev: int)

  function CommitOne(db: DB, w: Write): (db': DB) {
    match w
    case SetLog(at, row) => db.(log := db.log[at := row])
    case DelLog(at) => db.(log := db.log - {at})
    case SetIdx(key, rev) => db.(idx := db.idx[key := rev])
    case DelIdx(key) => db.(idx := db.idx - {key})
    case SetCompact(rev) => db.(metaCompact := Some(rev))
  }

  function Commit(db: DB, ws: seq<Write>): (db': DB) {
    if ws == [] then db else CommitOne(Commit(db, ws[..|ws| - 1]), ws[|ws| - 1])
  }

  // ---------------------------------------------------------- batch contents

  /** Revisions are written as unsigned big-endian numbers. */
  function Unsigned(x: int): (r: int) {
    if x < 0 then x + 0x1_0000_0000_0000_0000 else x
  }

  /** The log keys with lo <= revision < hi, in iteration order. */
  function Scan(log: map<Lex.Key, Record>, lo: int, hi: int): (keys: seq<Lex.Key>)
    ensures forall k :: k in keys <==> k in log && |k| > 0 && lo <= k[0] < hi
  {
    Lex.SortedKeys(set k | k in log && |k| > 0 && lo <= k[0] < hi)
  }

  function RecordOf(o: SubOp): (r: Record) {
    Record(o.key, o.value, o.createRev, o.prevRev, EntryVersion(o.version), o.lease,
           o.op == OpCreate, o.op == OpDelete)
  }

  function IndexWrite(rev: int, o: SubOp): (w: Write) {
    if o.op == OpDelete then DelIdx(o.key) else SetIdx(o.key, rev)
  }

  function SubWrites(rev: int, ops: seq<SubOp>): (ws: seq<Write>) {
    if ops == [] then []
    else
      var i := |ops| - 1;
      SubWrites(rev, ops[..i]) + [SetLog([rev, i % 0x10000], RecordOf(ops[i])), IndexWrite(rev, ops[i])]
  }

  /** applyEntry and applyTxnEntry. */
  function EntryWrites(e: Entry): (ws: seq<Write>) {
    match e.op
    case OpCompact => []
    case OpTxn => SubWrites(e.revision, e.ops)
    case _ => var o := SubOps(e)[0]; [SetLog([e.revision], RecordOf(o)), IndexWrite(e.revision, o)]
  }

  /** Another row of key lies in (afterRev, upTo]. */
  predicate HasLater(log: map<Lex.Key, Record>, key: Key, afterRev: int, upTo: int) {
    afterRev < upTo && exists k :: k in log && |k| > 0 && Unsigned(afterRev + 1) <= k[0] < Unsigned(upTo + 1) && log[k].key == key
  }

  function CompactDeletes(log: map<Lex.Key, Record>, keys: seq<Lex.Key>, target: int): (ws: seq<Write>)
    requires forall k :: k in keys ==> k in log && |k| > 0
  {
    if keys == [] then []
    else
      var k := keys[|keys| - 1];
      CompactDeletes(log, keys[..|keys| - 1], target) +
      (if HasLater(log, log[k].key, k[0], target) then [DelLog(k)] else [])
  }

  /** applyCompact: it scans the committed rows, not the batch being built. */
  function CompactWrites(db: DB, compactRev: int, target: int): (ws: seq<Write>) {
    [SetCompact(target)] + CompactDeletes(db.log, Scan(db.log, Unsigned(compactRev), Unsigned(target)), target)
  }

  function CleanupTxn(log: map<Lex.Key, Record>, keys: seq<Lex.Key>): (ws: seq<Write>)
    requires forall k :: k in keys ==> k in log
  {
    if keys == [] then []
    else
      var k := keys[|keys| - 1];
      CleanupTxn(log, keys[..|keys| - 1]) +
      (if log[k].delete then [] else [DelIdx(log[k].key)]) + [DelLog(k)]
  }

  /** Everything an older term left at rev. */
  function StaleRows(log: map<Lex.Key, Record>, rev: int): (ws: seq<Write>) {
    CleanupTxn(log, Scan(log, rev, rev + 1))
  }

  /** The index entry of another key that an older term wrote at rev. */
  function StaleIndex(log: map<Lex.Key, Record>, at: Lex.Key, key: Key): (ws: seq<Write>) {
    if at in log && !log[at].delete && log[at].key != key then [DelIdx(log[at].key)] else []
  }

  /** Recover first removes what an older term left at the same revision. */
  function Cleanup(db: DB, e: Entry): (ws: seq<Write>) {
    if e.op == OpTxn then StaleRows(db.log, e.revision)
    else StaleIndex(db.log, [e.revision], e.key)
  }

  /** A batch under construction. */
  datatype Batch = Batch(writes: seq<Write>, compactRev: int, maxRev: int, maxSeq: int)

  function AddEntry(db: DB, b: Batch, e: Entry, recover: bool): (b': Batch) {
    if e.op == OpCompact then
      Batch(b.writes + CompactWrites(db, b.compactRev, e.prevRev), e.prevRev, b.maxRev, Max(b.maxSeq, e.Sequence()))
    else
      Batch(b.writes + (if recover then Cleanup(db, e) else []) + EntryWrites(e), b.compactRev,
            Max(b.maxRev, e.revision), Max(b.maxSeq, e.Sequence()))
  }

  function BatchOf(s: State, es: seq<Entry>, recover: bool): (b: Batch) {
    if es == [] then Batch([], s.compactRev, 0, 0)
    else AddEntry(s.db, BatchOf(s, es[..|es| - 1], recover), es[|es| - 1], recover)
  }

  function CommitBatch(s: State, b: Batch): (s': State) {
    var db := Commit(s.db, b.writes);
    State(db.(metaRev := if b.maxRev > 0 then Some(b.maxRev) else db.metaRev,
              metaSeq := if b.maxSeq > 0 then Some(b.maxSeq) else db.metaSeq),
          Max(s.currentRev, b.maxRev), b.compactRev, Max(s.lastSeq, b.maxSeq))
  }

  /** Apply (recover false) and Recover (recover true). */
  function ApplyBatch(s: State, es: seq<Entry>, recover: bool): (s': State) {
    if es == [] then s else CommitBatch(s, BatchOf(s, es, recover))
  }

  // ------------------------------------------------- the log without compaction

  function SubRows(rev: int, ops: seq<SubOp>): (rows: map<Lex.Key, Record>) {
    if ops == [] then map[]
    else SubRows(rev, ops[..|ops| - 1])[[rev, |ops| - 1] := RecordOf(ops[|ops| - 1])]
  }

  function RowsOf(e: Entry): (rows: map<Lex.Key, Record>) {
    if e.op == OpTxn then SubRows(e.revision, e.ops)
    else if e.op == OpCompact then map[]
    else map[[e.revision] := RecordOf(SubOps(e)[0])]
  }

  function FullLog(es: seq<Entry>): (log: map<Lex.Key, Record>) {
    if es == [] then map[] else FullLog(es[..|es| - 1]) + RowsOf(es[|es| - 1])
  }

  /** A later row of the same key exists at or below upTo. */
  ghost predicate Superseded(log: map<Lex.Key, Record>, k: Lex.Key, upTo: int)
    requires k in log
  {
    |k| > 0 && exists k' :: k' in log && |k'| > 0 && log[k'].key == log[k].key && k[0] < k'[0] <= upTo
  }

  /** log is full with only superseded rows missing. */
  ghost predicate LogHolds(log: map<Lex.Key, Record>, full: map<Lex.Key, Record>, upTo: int) {
    && (forall k :: k in log ==> k in full && log[k] == full[k])
    && (forall k :: k in full && k !in log ==> Superseded(full, k, upTo))
  }

  /** The index names every live key's revision and no other key. */
  ghost predicate IndexMatches(idx: map<Key, int>, v: View) {
    idx.Keys == v.Keys && forall key :: key in idx ==> idx[key] == v[key].revision
  }

  /** What a store holds after the entries es, however they were batched. */
  ghost predicate Holds(db: DB, es: seq<Entry>) {
    LogHolds(db.log, FullLog(es), MaxCompact(es)) && IndexMatches(db.idx, ViewOf(es))
  }

  ghost predicate Represents(s: State, es: seq<Entry>) {
    && ValidLog(es) && Holds(s.db, es)
    && s.currentRev == CurrentRev(es) && s.lastSeq == LastSeq(es) && s.compactRev == LastCompact(es)
  }

  // --------------------------------------------------------- facts about FullLog

  lemma {:induction false} SubRowsAt(rev: int, ops: seq<SubOp>, k: Lex.Key)
    ensures k in SubRows(rev, ops) <==> |k| == 2 && k[0] == rev && 0 <= k[1] < |ops|
    ensures k in SubRows(rev, ops) ==> SubRows(rev, ops)[k] == RecordOf(ops[k[1]])
  {
    if ops != [] {
      SubRowsAt(rev, ops[..|ops| - 1], k);
      assert |k| == 2 ==> k == [k[0], k[1]];
    }
  }

  lemma RowsAt(e: Entry, k: Lex.Key)
    requires k in RowsOf(e)
    ensures |k| > 0 && k[0] == e.revision && IsData(e)
  {
    if e.op == OpTxn { SubRowsAt(e.revision, e.ops, k); }
  }

  lemma {:induction false} FullLogBounds(es: seq<Entry>, k: Lex.Key)
    requires ValidLog(es) && k in FullLog(es)
    ensures |k| > 0 && 0 < k[0] <= CurrentRev(es)
  {
    var init, e := es[..|es| - 1], es[|es| - 1];
    if k in FullLog(init) {
      FullLogBounds(init, k);
    } else {
      RowsAt(e, k);
    }
  }

  lemma {:induction false} CommitAppend(db: DB, a: seq<Write>, b: seq<Write>)
    ensures Commit(db, a + b) == Commit(Commit(db, a), b)
  {
    if b == [] {
      assert a + b == a;
    } else {
      CommitAppend(db, a, b[..|b| - 1]);
      assert (a + b)[..|a + b| - 1] == a + b[..|b| - 1];
    }
  }
}

/** How a sequence of entries is cut into Apply and Recover calls is invisible
    to every permitted read, although it shows in the stored rows. */
module Batching {
  import Lex
  import opened Entries
  import opened Mvcc
  import opened StoreState
  import opened StoreProofs
  import opened StoreReads
  import opened StoreLists

  lemma BatchingInvisible(calls1: seq<Call>, calls2: seq<Call>)
    requires Flatten(calls1) == Flatten(calls2) && ValidLog(Flatten(calls1))
    ensures var s1, s2 := RunCalls(calls1), RunCalls(calls2);
            s1.currentRev == s2.currentRev && s1.compactRev == s2.compactRev && s1.lastSeq == s2.lastSeq
    ensures RunCalls(calls1).db.idx == RunCalls(calls2).db.idx
  {
    RunRepresents(calls1);
    RunRepresents(calls2);
  }

  /** Point reads at HEAD follow the index, so listings and counts agree with them. */
  lemma BatchingInvisibleAtHead(calls1: seq<Call>, calls2: seq<Call>, key: Key)
    requires Flatten(calls1) == Flatten(calls2) && ValidLog(Flatten(calls1))
    requires key in RunCalls(calls1).db.idx
    ensures var s1, s2 := RunCalls(calls1), RunCalls(calls2);
            && key in s2.db.idx
            && LogEntry(s1.db.log, key, s1.db.idx[key]) == LogEntry(s2.db.log, key, s2.db.idx[key])
            && LogEntry(s1.db.log, key, s1.db.idx[key]).Some?
  {
    RunRepresents(calls1);
    RunRepresents(calls2);
    LogEntryIsSerial(RunCalls(calls1), Flatten(calls1), key);
    LogEntryIsSerial(RunCalls(calls2), Flatten(calls2), key);
  }

  /** Historical point reads and log folds agree at every revision from the
      highest compaction target on. */
  lemma BatchingInvisibleInHistory(calls1: seq<Call>, calls2: seq<Call>, key: Key, prefix: Key, rev: int)
    requires Flatten(calls1) == Flatten(calls2) && ValidLog(Flatten(calls1))
    requires rev >= MaxCompact(Flatten(calls1))
    ensures var log1, log2 := RunCalls(calls1).db.log, RunCalls(calls2).db.log;
            && ReadAt(log1, key, rev) == ReadAt(log2, key, rev)
            && Latest(log1, Scan(log1, 1, Unsigned(rev + 1)), prefix) == Latest(log2, Scan(log2, 1, Unsigned(rev + 1)), prefix)
  {
    var es := Flatten(calls1);
    RunRepresents(calls1);
    RunRepresents(calls2);
    CompactBelowMax(es);
    ReadAtIsSerial(RunCalls(calls1), es, key, rev);
    ReadAtIsSerial(RunCalls(calls2), es, key, rev);
    LatestIsSerial(RunCalls(calls1), es, prefix, rev);
    LatestIsSerial(RunCalls(calls2), es, prefix, rev);
  }

  lemma SameScan(log: Log, hi: int, hi': int)
    requires forall k :: k in log && |k| > 0 ==> (k[0] < hi <==> k[0] < hi')
    ensures Scan(log, 0, hi) == Scan(log, 0, hi')
  {
    assert (set k | k in log && |k| > 0 && 0 <= k[0] < hi) == (set k | k in log && |k| > 0 && 0 <= k[0] < hi');
  }

  /** Nothing is stored above the current revision, so reading there is reading at
      the current one. */
  lemma ReadAboveCurrent(s: State, es: seq<Entry>, key: Key, rev: int)
    requires ValidLog(es) && LogHolds(s.db.log, FullLog(es), MaxCompact(es)) && rev >= s.currentRev == CurrentRev(es) >= 0
    ensures ReadAt(s.db.log, key, rev) == ReadAt(s.db.log, key, s.currentRev)
  {
    forall k | k in s.db.log && |k| > 0 ensures k[0] <= s.currentRev {
      RowBelowCurrent(s.db.log, es, k);
    }
    ReadAboveRows(s.db.log, key, rev, s.currentRev);
  }

  lemma RowBelowCurrent(log: Log, es: seq<Entry>, k: Lex.Key)
    requires ValidLog(es) && LogHolds(log, FullLog(es), MaxCompact(es)) && k in log
    ensures |k| > 0 && k[0] <= CurrentRev(es)
  {
    FullLogBounds(es, k);
  }

  lemma ReadAboveRows(log: Log, key: Key, rev: int, top: int)
    requires rev >= top >= 0 && forall k :: k in log && |k| > 0 ==> k[0] <= top
    ensures ReadAt(log, key, rev) == ReadAt(log, key, top)
  {
    SameScan(log, Unsigned(rev + 1), Unsigned(top + 1));
  }

  /** In every represented state the stored value at the current revision is the
      current value, wherever compaction targets lie. */
  lemma GetIsGetAtCurrent(s: State, es: seq<Entry>, key: Key)
    requires Represents(s, es)
    ensures ReadAt(s.db.log, key, s.currentRev) == Lookup(ViewOf(es), key)
    ensures key in s.db.idx <==> ReadAt(s.db.log, key, s.currentRev).Some?
    ensures key in s.db.idx ==> LogEntry(s.db.log, key, s.db.idx[key]) == ReadAt(s.db.log, key, s.currentRev)
  {
    CountersNonNegative(es);
    var top := Max(s.currentRev, MaxCompact(es));
    ReadAboveCurrent(s, es, key, top);
    ReadAtIsSerial(s, es, key, top);
    ViewAtCurrent(es, top);
    if key in s.db.idx { LogEntryIsSerial(s, es, key); }
  }

  /** Asking for the current revision by number answers as asking for the current
      value if and only if no compaction has set the watermark above it. */
  lemma CurrentReadableIff(s: State, es: seq<Entry>, key: Key)
    requires Represents(s, es) && s.currentRev > 0
    ensures AnswerAt(s, key, s.currentRev) == CurrentAnswer(s, key) <==> s.compactRev <= s.currentRev
  {
    CurrentIsSerial(s, es, key);
    GetIsGetAtCurrent(s, es, key);
  }

  /** Writing more and compacting more never changes a read at a revision that
      is already written and still at or above every compaction target. */
  lemma CompactionPreservesReads(s: State, s': State, hist: seq<Entry>, es: seq<Entry>, key: Key, rev: int)
    requires Represents(s, hist) && Represents(s', hist + es)
    requires MaxCompact(hist + es) <= rev <= s.currentRev
    ensures ReadAt(s'.db.log, key, rev) == ReadAt(s.db.log, key, rev)
  {
    CompactBelowMax(hist);
    MaxCompactMonotone(hist, es);
    ReadAtIsSerial(s, hist, key, rev);
    ReadAtIsSerial(s', hist + es, key, rev);
    LaterEntriesInvisible(hist, es, rev);
  }

  lemma {:induction false} MaxCompactMonotone(hist: seq<Entry>, es: seq<Entry>)
    ensures MaxCompact(hist) <= MaxCompact(hist + es)
  {
    if es == [] {
      assert hist + es == hist;
    } else {
      SplitLast(hist, es);
      MaxCompactMonotone(hist, es[..|es| - 1]);
    }
  }

  lemma {:induction false} LaterEntriesInvisible(hist: seq<Entry>, es: seq<Entry>, rev: int)
    requires ValidLog(hist + es) && rev <= CurrentRev(hist)
    ensures ViewAt(hist + es, rev) == ViewAt(hist, rev)
  {
    if es == [] {
      assert hist + es == hist;
    } else {
      SplitLast(hist, es);
      FullLogMonotone(hist, es[..|es| - 1]);
      LaterEntriesInvisible(hist, es[..|es| - 1], rev);
    }
  }

  // ------------------------------------------------------------ two witnesses

  function Put(id: int, rev: int): (e: Entry) {
    Entry(id, rev, 1, if rev == 1 then OpCreate else OpUpdate, [7], [], 0, 1, rev - 1, rev, [])
  }

  function Compact(id: int, rev: int, target: int): (e: Entry) {
    Entry(id, rev, 1, OpCompact, [], [], 0, 0, target, 0, [])
  }

  /** Before anything is compacted a store holds every row. */
  lemma UncompactedHoldsAll(s: State, es: seq<Entry>)
    requires Represents(s, es) && MaxCompact(es) <= 0
    ensures s.db.log == FullLog(es)
  {
    forall k | k in FullLog(es) ensures k in s.db.log {
      FullLogBounds(es, k);
      assert !Superseded(FullLog(es), k, MaxCompact(es));
    }
  }

  /** Up to three puts of one key, applied before anything is compacted. */
  lemma PutsKeepAllRows(calls: seq<Call>, n: nat)
    requires 0 < n <= 3 && Flatten(calls) == [Put(1, 1), Put(2, 2), Put(3, 3)][..n]
    ensures Represents(RunCalls(calls), Flatten(calls)) && RunCalls(calls).compactRev == 0
    ensures RunCalls(calls).db.log == FullLog(Flatten(calls)) && PutRows(RunCalls(calls).db.log, n)
  {
    PutsValid(n);
    RunRepresents(calls);
    UncompactedHoldsAll(RunCalls(calls), Flatten(calls));
  }

  /** The rows are plain puts of one key, one at each revision up to n. */
  ghost predicate PutRows(log: Log, n: nat) {
    && (forall i: int :: 1 <= i <= n ==> [i] in log)
    && (forall k :: k in log ==> |k| == 1 && log[k].key == [7] && !log[k].delete)
  }

  /** es are the puts at revisions 1 to n. */
  ghost predicate PutsUpTo(es: seq<Entry>, n: nat) {
    && ValidLog(es) && CurrentRev(es) == n && MaxCompact(es) == 0 && LastCompact(es) == 0
    && PutRows(FullLog(es), n)
  }

  lemma OneRowMore(log: Log, n: nat, row: Record)
    requires PutRows(log, n) && row.key == [7] && !row.delete
    ensures PutRows(log + map[[n + 1] := row], n + 1)
  {
  }

  lemma PutIs(id: int, rev: int)
    requires rev > 0
    ensures var e := Put(id, rev);
            && ValidEntry(e) && IsData(e) && RowsOf(e).Keys == {[rev]} && RowsOf(e) == map[[rev] := RowsOf(e)[[rev]]]
            && RowsOf(e)[[rev]].key == [7] && !RowsOf(e)[[rev]].delete
  {
  }

  lemma OnePutMore(es: seq<Entry>, n: nat)
    requires PutsUpTo(es, n)
    ensures PutsUpTo(es + [Put(n + 1, n + 1)], n + 1)
  {
    var e := Put(n + 1, n + 1);
    PutIs(n + 1, n + 1);
    Extend(es, e);
    OneRowMore(FullLog(es), n, RowsOf(e)[[n + 1]]);
  }

  lemma {:induction false} PutsValid(n: nat)
    requires n <= 3
    ensures PutsUpTo([Put(1, 1), Put(2, 2), Put(3, 3)][..n], n)
  {
    if n > 0 {
      PutsValid(n - 1);
      var es := [Put(1, 1), Put(2, 2), Put(3, 3)];
      assert es[..n] == es[..n - 1] + [Put(n, n)];
      OnePutMore(es[..n - 1], n - 1);
    }
  }

  lemma RunAppend(calls: seq<Call>, es: seq<Entry>)
    ensures Flatten(calls + [Call(es, false)]) == Flatten(calls) + es
    ensures RunCalls(calls + [Call(es, false)]) == ApplyBatch(RunCalls(calls), es, false)
  {
    assert (calls + [Call(es, false)])[..|calls|] == calls;
  }

  /** In one call with the writes it covers, a compaction sees none of them. */
  lemma CompactTogether(es: seq<Entry>, c: Entry)
    requires es != [] && !IsData(c)
    ensures ApplyBatch(EMPTY, es + [c], false).db.log == ApplyBatch(EMPTY, es, false).db.log
  {
    assert (es + [c])[..|es|] == es;
    var b := BatchOf(EMPTY, es, false);
    CommitAppend(EMPTY.db, b.writes, CompactWrites(EMPTY.db, b.compactRev, c.prevRev));
    CompactWritesCommit(Commit(EMPTY.db, b.writes), EMPTY.db, b.compactRev, c.prevRev);
  }

  /** A compaction in its own call deletes a row that the same compaction, batched
      with the writes it covers, leaves in place. */
  lemma StoredRowsDependOnBatching(puts: seq<Entry>, c: Entry)
    requires puts == [Put(1, 1), Put(2, 2)] && c == Compact(3, 2, 2)
    ensures var apart, together := [Call(puts, false)] + [Call([c], false)], [] + [Call(puts + [c], false)];
            && Flatten(apart) == Flatten(together)
            && [1] in RunCalls(together).db.log && [1] !in RunCalls(apart).db.log
  {
    var first := [] + [Call(puts, false)];
    assert first == [Call(puts, false)] && puts == [Put(1, 1), Put(2, 2), Put(3, 3)][..2];
    RunAppend([], puts);
    RunAppend(first, [c]);
    RunAppend([], puts + [c]);
    PutsKeepAllRows(first, 2);
    var log := RunCalls(first).db.log;
    assert HasLater(log, [7], 1, 2) by { assert [2] in log; }
    CompactCall(RunCalls(first), c);
    CompactTogether(puts, c);
  }

  /** A compaction above the current revision: the value is still there, but can no
      longer be asked for by its revision. */
  lemma CompactedAhead(calls: seq<Call>)
    requires Flatten(calls) == [Put(1, 1)] + [Compact(2, 1, 5)]
    ensures var s := RunCalls(calls);
            && s.currentRev == 1 && s.compactRev == 5
            && CurrentAnswer(s, [7]).Ok? && AnswerAt(s, [7], s.currentRev) == ErrCompacted
  {
    var puts, c := [Put(1, 1), Put(2, 2), Put(3, 3)][..1], Compact(2, 1, 5);
    assert puts == [Put(1, 1)];
    PutsValid(1);
    Extend(puts, c);
    RunRepresents(calls);
    CurrentIsSerial(RunCalls(calls), puts + [c], [7]);
  }

  // ------------------------------------------------------- lowering the watermark

  /** A row is stored unless a row of the same key at or below upTo supersedes it. */
  ghost predicate Spared(log: Log, full: Log, k: Lex.Key, upTo: int) {
    && (k in log <==> k in full && !Superseded(full, k, upTo))
    && (k in log ==> log[k] == full[k])
  }

  ghost predicate Compacted(log: Log, full: Log, upTo: int) {
    forall k :: Spared(log, full, k, upTo)
  }

  lemma LaterIff(full: Log, k: Lex.Key, upTo: int)
    requires k in full && |k| > 0 && k[0] > 0 && upTo > 0
    ensures HasLater(full, full[k].key, k[0], upTo) <==> Superseded(full, k, upTo)
    ensures Superseded(full, k, upTo) ==> k[0] < upTo
  {
  }

  /** Compacting to target a store that holds every row, and then to a lower one,
      deletes what the first compaction deletes. */
  lemma TwoCompactions(s: State, es: seq<Entry>, c: Entry, c': Entry)
    requires ValidLog(es) && s.db.log == FullLog(es) && s.compactRev == 0 && !IsData(c) && !IsData(c')
    requires 0 <= c'.prevRev < c.prevRev
    ensures var s' := ApplyBatch(ApplyBatch(s, [c], false), [c'], false);
            Compacted(s'.db.log, FullLog(es), c.prevRev) && s'.compactRev == c'.prevRev
  {
    var full, s1 := s.db.log, ApplyBatch(s, [c], false);
    CompactCall(s, c);
    CompactCall(s1, c');
    forall k ensures Spared(ApplyBatch(s1, [c'], false).db.log, full, k, c.prevRev) {
      if k in full {
        FullLogBounds(es, k);
        LaterIff(full, k, c.prevRev);
      }
    }
  }

  /** The newest row of key at rev is a put that compaction to upTo deletes. */
  ghost predicate LostPut(full: Log, key: Key, rev: int, upTo: int) {
    exists k :: Newest(full, key, rev, k) && !full[k].delete && Superseded(full, k, upTo)
  }

  /** With the newest row go all older ones. */
  lemma OlderGone(log: Log, full: Log, key: Key, rev: int, upTo: int, k: Lex.Key)
    requires Compacted(log, full, upTo) && Newest(full, key, rev, k) && Superseded(full, k, upTo)
    ensures forall k' :: !HasRow(log, key, rev, k')
  {
    var later :| later in full && |later| > 0 && full[later].key == full[k].key && k[0] < later[0] <= upTo;
    forall k' ensures !HasRow(log, key, rev, k') {
      assert Spared(log, full, k', upTo);
      assert HasRow(full, key, rev, k') ==> full[later].key == full[k'].key && k'[0] < later[0] <= upTo;
    }
  }

  lemma RowsKept(log: Log, full: Log, key: Key, rev: int, upTo: int)
    requires Compacted(log, full, upTo)
    ensures forall k :: HasRow(log, key, rev, k) ==> HasRow(full, key, rev, k)
    ensures forall k :: k in log ==> k in full && log[k] == full[k]
  {
    forall k ensures k in log ==> k in full && log[k] == full[k] {
      assert Spared(log, full, k, upTo);
    }
  }

  /** A read of the right value. */
  ghost predicate RightAt(log: Log, es: seq<Entry>, key: Key, rev: int) {
    ReadAt(log, key, rev) == Lookup(ViewAt(es, rev), key)
  }

  lemma NoRowReadsNone(log: Log, key: Key, rev: int)
    requires PositiveRows(log) && rev >= 0 && forall k :: !HasRow(log, key, rev, k)
    ensures ReadAt(log, key, rev) == None
  {
    ReadAtNewest(log, key, rev);
  }

  lemma NewestReads(log: Log, es: seq<Entry>, key: Key, rev: int, k: Lex.Key)
    requires ValidLog(es) && PositiveRows(log) && rev >= 0 && (forall x :: x in log ==> x in FullLog(es) && log[x] == FullLog(es)[x])
    requires Newest(log, key, rev, k)
    ensures ReadAt(log, key, rev) == RowValue(log, k)
  {
    ReadAtNewest(log, key, rev);
    var r := LastRow(log, Scan(log, 0, Unsigned(rev + 1)), key);
    assert HasRow(log, key, rev, k);
    RowsAtOneRevision(es, r.value, k);
  }

  lemma OneNewest(es: seq<Entry>, key: Key, rev: int, k: Lex.Key, k': Lex.Key)
    requires ValidLog(es) && Newest(FullLog(es), key, rev, k) && Newest(FullLog(es), key, rev, k')
    ensures k' == k
  {
    RowsAtOneRevision(es, k', k);
  }

  lemma RightWithNewest(log: Log, es: seq<Entry>, key: Key, rev: int, upTo: int, k: Lex.Key)
    requires ValidLog(es) && Compacted(log, FullLog(es), upTo) && PositiveRows(log) && rev >= 0
    requires Newest(FullLog(es), key, rev, k)
    ensures RightAt(log, es, key, rev) <==> FullLog(es)[k].delete || !Superseded(FullLog(es), k, upTo)
  {
    FullLogAgrees(es, key, rev);
    if Superseded(FullLog(es), k, upTo) {
      OlderGone(log, FullLog(es), key, rev, upTo, k);
      NoRowReadsNone(log, key, rev);
    } else {
      RowsKept(log, FullLog(es), key, rev, upTo);
      assert Spared(log, FullLog(es), k, upTo);
      NewestReads(log, es, key, rev, k);
    }
  }

  /** On such a store a read is right if and only if the newest row it needs is not
      a deleted put. */
  lemma ReadRightIff(log: Log, es: seq<Entry>, key: Key, rev: int, upTo: int)
    requires ValidLog(es) && Compacted(log, FullLog(es), upTo) && PositiveRows(log) && rev >= 0
    ensures RightAt(log, es, key, rev) <==> !LostPut(FullLog(es), key, rev, upTo)
  {
    if k0 :| HasRow(FullLog(es), key, rev, k0) {
      SomeRowHasNewest(FullLog(es), key, rev, k0);
      var k :| Newest(FullLog(es), key, rev, k);
      RightWithNewest(log, es, key, rev, upTo, k);
      forall k' | Newest(FullLog(es), key, rev, k') ensures k' == k {
        OneNewest(es, key, rev, k, k');
      }
    } else {
      RowsKept(log, FullLog(es), key, rev, upTo);
      NoRowReadsNone(log, key, rev);
      FullLogAgrees(es, key, rev);
    }
  }

  /** k2 is the next row of the key of k. */
  ghost predicate NextRow(log: Log, k: Lex.Key, k2: Lex.Key) {
    && k in log && |k| > 0 && k2 in log && |k2| > 0 && log[k2].key == log[k].key && k[0] < k2[0]
    && forall k' :: k' in log && |k'| > 0 && log[k'].key == log[k].key ==> !(k[0] < k'[0] < k2[0])
  }

  /** A put is replaced at a revision in (low, high]. */
  ghost predicate ReplacedWithin(log: Log, low: int, high: int) {
    exists k, k2 :: NextRow(log, k, k2) && !log[k].delete && low < k2[0] <= high
  }

  lemma {:induction false} LowestRow(rows: set<Lex.Key>) returns (best: Lex.Key)
    requires rows != {} && forall k :: k in rows ==> |k| > 0
    ensures best in rows && forall k :: k in rows ==> best[0] <= k[0]
    decreases |rows|
  {
    var k :| k in rows;
    best := k;
    if rows != {k} {
      var other := LowestRow(rows - {k});
      if other[0] < k[0] { best := other; }
      assert forall x :: x in rows ==> x == k || x in rows - {k};
    }
  }

  lemma NextExists(log: Log, k: Lex.Key, upTo: int) returns (k2: Lex.Key)
    requires k in log && Superseded(log, k, upTo)
    ensures NextRow(log, k, k2) && k2[0] <= upTo
  {
    var rows := set x | x in log && |x| > 0 && log[x].key == log[k].key && k[0] < x[0];
    var later :| later in log && |later| > 0 && log[later].key == log[k].key && k[0] < later[0] <= upTo;
    assert later in rows;
    k2 := LowestRow(rows);
  }

  /** Some read at or above low needs a deleted put exactly when a put is replaced
      above low and at or below high. */
  lemma LostPutIff(full: Log, low: int, high: int, top: int)
    requires forall k :: k in full ==> |k| > 0 && k[0] <= top
    ensures (exists key, rev :: low <= rev <= top && LostPut(full, key, rev, high)) <==> ReplacedWithin(full, low, high)
  {
    if key, rev :| low <= rev <= top && LostPut(full, key, rev, high) {
      var k :| Newest(full, key, rev, k) && !full[k].delete && Superseded(full, k, high);
      var k2 := NextExists(full, k, high);
      assert !HasRow(full, key, rev, k2);
    }
    if k, k2 :| NextRow(full, k, k2) && !full[k].delete && low < k2[0] <= high {
      assert HasRow(full, full[k].key, k2[0] - 1, k);
      assert Newest(full, full[k].key, k2[0] - 1, k);
      assert Superseded(full, k, high);
      assert LostPut(full, full[k].key, k2[0] - 1, high);
    }
  }

  lemma CompactionsInvisible(es: seq<Entry>, c: Entry, rev: int)
    requires !IsData(c)
    ensures ViewAt(es + [c], rev) == ViewAt(es, rev)
  {
    assert (es + [c])[..|es|] == es;
  }

  /** Every read from low to top is right. */
  ghost predicate AllRight(log: Log, es: seq<Entry>, low: int, top: int) {
    forall key, rev :: low <= rev <= top ==> RightAt(log, es, key, rev)
  }

  lemma RightWithCompactions(log: Log, es: seq<Entry>, c: Entry, c': Entry, key: Key, rev: int)
    requires !IsData(c) && !IsData(c')
    ensures RightAt(log, es + [c] + [c'], key, rev) <==> RightAt(log, es, key, rev)
  {
    CompactionsInvisible(es, c, rev);
    CompactionsInvisible(es + [c], c', rev);
  }

  lemma PositiveKept(log: Log, es: seq<Entry>, upTo: int)
    requires ValidLog(es) && Compacted(log, FullLog(es), upTo)
    ensures PositiveRows(log)
  {
    forall k | k in log ensures |k| > 0 && k[0] > 0 {
      assert Spared(log, FullLog(es), k, upTo);
      FullLogBounds(es, k);
    }
  }

  lemma AllRightIff(log: Log, es: seq<Entry>, low: int, high: int)
    requires ValidLog(es) && Compacted(log, FullLog(es), high) && low >= 0
    ensures AllRight(log, es, low, CurrentRev(es)) <==> !ReplacedWithin(FullLog(es), low, high)
  {
    forall k | k in FullLog(es) ensures |k| > 0 && 0 < k[0] <= CurrentRev(es) {
      FullLogBounds(es, k);
    }
    forall key, rev | low <= rev <= CurrentRev(es)
      ensures RightAt(log, es, key, rev) <==> !LostPut(FullLog(es), key, rev, high)
    {
      PositiveKept(log, es, high);
      ReadRightIff(log, es, key, rev, high);
    }
    LostPutIff(FullLog(es), low, high, CurrentRev(es));
  }

  /** Compacting a store that holds every row to a target and then to a lower one
      re-admits the revisions in between. Every read that is then permitted returns
      the serial state if and only if no put is replaced at a revision above the
      lower target and at or below the higher one. */
  lemma LoweredWatermarkExact(s: State, es: seq<Entry>, c: Entry, c': Entry)
    requires Represents(s, es) && s.db.log == FullLog(es) && s.compactRev == 0 && !IsData(c) && !IsData(c')
    requires 0 <= c'.prevRev < c.prevRev
    ensures var s' := ApplyBatch(ApplyBatch(s, [c], false), [c'], false);
            && s'.compactRev == c'.prevRev
            && (AllRight(s'.db.log, es + [c] + [c'], s'.compactRev, s.currentRev) <==>
                !ReplacedWithin(FullLog(es), c'.prevRev, c.prevRev))
  {
    TwoCompactions(s, es, c, c');
    var log := ApplyBatch(ApplyBatch(s, [c], false), [c'], false).db.log;
    AllRightIff(log, es, c'.prevRev, c.prevRev);
    forall key, rev ensures RightAt(log, es + [c] + [c'], key, rev) <==> RightAt(log, es, key, rev) {
      RightWithCompactions(log, es, c, c', key, rev);
    }
  }

  /** Such a run: three puts of one key, compacted to 3 and then to 1. */
  lemma LoweredWatermarkMisreads(calls: seq<Call>, c: Entry, c': Entry)
    requires Flatten(calls) == [Put(1, 1), Put(2, 2), Put(3, 3)] && c == Compact(4, 3, 3) && c' == Compact(5, 3, 1)
    ensures !AllRight(ApplyBatch(ApplyBatch(RunCalls(calls), [c], false), [c'], false).db.log,
                      Flatten(calls) + [c] + [c'], 1, 3)
  {
    assert Flatten(calls) == [Put(1, 1), Put(2, 2), Put(3, 3)][..3];
    PutsKeepAllRows(calls, 3);
    PutsReplaced(Flatten(calls));
    LoweredWatermarkExact(RunCalls(calls), Flatten(calls), c, c');
  }

  lemma PutsReplaced(puts: seq<Entry>)
    requires puts == [Put(1, 1), Put(2, 2), Put(3, 3)]
    ensures ReplacedWithin(FullLog(puts), 1, 3) && CurrentRev(puts) == 3
  {
    PutsValid(3);
    assert puts[..3] == puts;
    assert NextRow(FullLog(puts), [1], [2]);
  }

  /** With targets that never go down, the watermark is the highest target. */
  ghost predicate TargetsAscend(es: seq<Entry>) {
    es == [] || (var init, e := es[..|es| - 1], es[|es| - 1];
                 TargetsAscend(init) && (!IsData(e) ==> MaxCompact(init) <= e.prevRev))
  }

  lemma {:induction false} AscendingWatermark(es: seq<Entry>)
    requires TargetsAscend(es)
    ensures LastCompact(es) == MaxCompact(es)
  {
    if es != [] { AscendingWatermark(es[..|es| - 1]); }
  }

  /** With targets that never go down, every read GetAt permits is right. */
  lemma AscendingTargetsSuffice(s: State, es: seq<Entry>, key: Key, rev: int)
    requires Represents(s, es) && TargetsAscend(es) && 0 < rev <= s.currentRev
    ensures AnswerAt(s, key, rev) ==
            if rev < s.compactRev then ErrCompacted else Ok(Lookup(ViewAt(es, rev), key))
  {
    AscendingWatermark(es);
    if rev >= s.compactRev {
      ReadAtIsSerial(s, es, key, rev);
    }
  }

  // ------------------------------------------------------------ what a compaction removes

  /** Another row of the same key lies after k and at or below upTo. */
  ghost predicate Followed(log: Log, k: Lex.Key, upTo: int)
    requires k in log && |k| > 0
  {
    exists k' :: k' in log && |k'| > 0 && log[k'].key == log[k].key && k[0] < k'[0] <= upTo
  }

  lemma FollowedIff(log: Log, k: Lex.Key, upTo: int)
    requires PositiveRows(log) && k in log && k[0] < upTo
    ensures HasLater(log, log[k].key, k[0], upTo) <==> Followed(log, k, upTo)
  {
    if HasLater(log, log[k].key, k[0], upTo) {
      var k' :| k' in log && |k'| > 0 && Unsigned(k[0] + 1) <= k'[0] < Unsigned(upTo + 1) && log[k'].key == log[k].key;
      assert Followed(log, k, upTo);
    }
  }

  lemma CompactionAlone(s: State, c: Entry, recover: bool)
    requires c.op == OpCompact
    ensures var s', db := ApplyBatch(s, [c], recover), Commit(s.db, CompactWrites(s.db, s.compactRev, c.prevRev));
            && s'.db.log == db.log && s'.db.idx == db.idx && s'.compactRev == c.prevRev
            && s'.currentRev == Max(s.currentRev, 0)
  {
    CompactionWrites(s, c, recover, CompactWrites(s.db, s.compactRev, c.prevRev));
  }

  lemma CompactionWrites(s: State, c: Entry, recover: bool, ws: seq<Write>)
    requires c.op == OpCompact && ws == CompactWrites(s.db, s.compactRev, c.prevRev)
    ensures BatchOf(s, [c], recover) == Batch(ws, c.prevRev, 0, Max(0, c.Sequence()))
  {
    assert [c][..0] == [];
    assert BatchOf(s, [], recover) == Batch([], s.compactRev, 0, 0);
    assert [] + ws == ws;
  }

  /** A compaction on its own removes a row exactly when it lies from the watermark on
      and below the target, and the same key has another row after it, at or below the
      target; it changes no other row, no index entry and no revision. */
  lemma CompactionRemovesExactly(s: State, es: seq<Entry>, c: Entry, recover: bool, k: Lex.Key)
    requires Represents(s, es) && c.op == OpCompact
    ensures var s' := ApplyBatch(s, [c], recover);
            && (k in s.db.log ==> |k| > 0)
            && (k in s'.db.log <==>
                  k in s.db.log && !(Unsigned(s.compactRev) <= k[0] < c.prevRev && Followed(s.db.log, k, c.prevRev)))
            && (k in s'.db.log ==> s'.db.log[k] == s.db.log[k])
            && s'.db.idx == s.db.idx && s'.compactRev == c.prevRev && s'.currentRev == s.currentRev
  {
    RepresentedRowsPositive(s, es);
    CountersNonNegative(es);
    CompactionAlone(s, c, recover);
    CompactWritesCommit(s.db, s.db, s.compactRev, c.prevRev);
    if k in s.db.log && k[0] < c.prevRev { FollowedIff(s.db.log, k, c.prevRev); }
  }
}

/** However entries are batched into Apply or Recover calls, the store represents
    their sequence: nothing a permitted read needs is ever missing. */
module StoreProofs {
  import Lex
  import opened Entries
  import opened Mvcc
  import opened StoreState

  lemma IndexWriteCommit(db: DB, v: View, rev: int, o: SubOp, at: Lex.Key)
    requires IndexMatches(db.idx, v)
    ensures var db' := CommitOne(CommitOne(db, SetLog(at, RecordOf(o))), IndexWrite(rev, o));
            db'.log == db.log[at := RecordOf(o)] && IndexMatches(db'.idx, ApplySub(v, rev, o))
  {
  }

  /** One more sub-operation, committed after the earlier ones. */
  lemma SubWritesExtend(db: DB, rev: int, ops: seq<SubOp>)
    requires 0 < |ops| <= 0x10000
    ensures var n := |ops| - 1;
            Commit(db, SubWrites(rev, ops)) ==
            CommitOne(CommitOne(Commit(db, SubWrites(rev, ops[..n])), SetLog([rev, n], RecordOf(ops[n]))), IndexWrite(rev, ops[n]))
  {
    var n := |ops| - 1;
    var a, w, w' := SubWrites(rev, ops[..n]), SetLog([rev, n], RecordOf(ops[n])), IndexWrite(rev, ops[n]);
    assert SubWrites(rev, ops) == a + [w, w'];
    CommitAppend(db, a, [w, w']);
    CommitTwo(Commit(db, a), w, w');
  }

  lemma {:induction false} SubWritesIndex(db: DB, rev: int, ops: seq<SubOp>, v: View)
    requires |ops| <= 0x10000 && IndexMatches(db.idx, v)
    ensures IndexMatches(Commit(db, SubWrites(rev, ops)).idx, ApplySubs(v, rev, ops))
  {
    if ops != [] {
      var n := |ops| - 1;
      SubWritesIndex(db, rev, ops[..n], v);
      SubWritesExtend(db, rev, ops);
      IndexWriteCommit(Commit(db, SubWrites(rev, ops[..n])), ApplySubs(v, rev, ops[..n]), rev, ops[n], [rev, n]);
    }
  }

  lemma {:induction false} SubWritesLog(db: DB, rev: int, ops: seq<SubOp>)
    requires |ops| <= 0x10000
    ensures Commit(db, SubWrites(rev, ops)).log == db.log + SubRows(rev, ops)
  {
    if ops != [] {
      var n := |ops| - 1;
      SubWritesLog(db, rev, ops[..n]);
      SubWritesExtend(db, rev, ops);
      MapUpdateLast(db.log, SubRows(rev, ops[..n]), [rev, n], RecordOf(ops[n]));
    }
  }

  lemma MapUpdateLast<K, V>(a: map<K, V>, b: map<K, V>, k: K, v: V)
    ensures (a + b)[k := v] == a + b[k := v]
  {
  }

  lemma CommitTwo(db: DB, w: Write, w': Write)
    ensures Commit(db, [w, w']) == CommitOne(CommitOne(db, w), w')
  {
    assert [w, w'][..1] == [w];
    assert [w][..0] == [];
    assert Commit(db, [w]) == CommitOne(db, w);
  }

  lemma EntryWritesCommit(db: DB, e: Entry, v: View)
    requires ValidEntry(e) && IsData(e) && IndexMatches(db.idx, v)
    ensures var db' := Commit(db, EntryWrites(e));
            db'.log == db.log + RowsOf(e) && IndexMatches(db'.idx, ApplyEntry(v, e))
  {
    if e.op == OpTxn {
      SubWritesLog(db, e.revision, e.ops);
      SubWritesIndex(db, e.revision, e.ops, v);
    } else {
      var o := SubOps(e)[0];
      CommitTwo(db, SetLog([e.revision], RecordOf(o)), IndexWrite(e.revision, o));
      IndexWriteCommit(db, v, e.revision, o, [e.revision]);
      assert SubOps(e) == [o];
      ApplySingle(v, e.revision, o);
    }
  }

  lemma ApplySingle(v: View, rev: int, o: SubOp)
    ensures ApplySubs(v, rev, [o]) == ApplySub(v, rev, o)
  {
    assert [o][..0] == [];
  }

  lemma Extend(es: seq<Entry>, e: Entry)
    ensures (es + [e])[..|es + [e]| - 1] == es && (es + [e])[|es + [e]| - 1] == e
  {
  }

  /** New rows at fresh revisions never hide a missing row's successor. */
  lemma LogGrow(log: map<Lex.Key, Record>, full: map<Lex.Key, Record>, rows: map<Lex.Key, Record>, upTo: int)
    requires LogHolds(log, full, upTo) && full.Keys !! rows.Keys
    ensures LogHolds(log + rows, full + rows, upTo)
  {
    var full' := full + rows;
    forall k | k in full' && k !in log + rows ensures Superseded(full', k, upTo) {
      assert Superseded(full, k, upTo);
      var k' :| k' in full && |k'| > 0 && full[k'].key == full[k].key && k[0] < k'[0] <= upTo;
      assert k' in full' && full'[k'] == full[k'] && full'[k] == full[k];
    }
  }

  lemma LogShrink(log: map<Lex.Key, Record>, full: map<Lex.Key, Record>, upTo: int,
                  log': map<Lex.Key, Record>, target: int)
    requires LogHolds(log, full, upTo)
    requires forall k :: k in log' ==> k in log && log'[k] == log[k]
    requires forall k :: k in log && k !in log' ==> Superseded(full, k, target)
    ensures LogHolds(log', full, Max(upTo, target))
  {
    forall k | k in full && k !in log' ensures Superseded(full, k, Max(upTo, target)) {
      if k in log {
        SupersededLater(full, k, target, Max(upTo, target));
      } else {
        SupersededLater(full, k, upTo, Max(upTo, target));
      }
    }
  }

  lemma SupersededLater(log: map<Lex.Key, Record>, k: Lex.Key, upTo: int, upTo': int)
    requires k in log && Superseded(log, k, upTo) && upTo <= upTo'
    ensures Superseded(log, k, upTo')
  {
  }

  lemma OldRowKept(es: seq<Entry>, e: Entry, k: Lex.Key)
    requires ValidLog(es + [e]) && k in FullLog(es)
    ensures k in FullLog(es + [e]) && FullLog(es + [e])[k] == FullLog(es)[k] && k !in RowsOf(e)
  {
    Extend(es, e);
    FullLogBounds(es, k);
    if k in RowsOf(e) { RowsAt(e, k); }
  }

  /** Applying a data entry keeps the representation. */
  lemma DataStep(db: DB, es: seq<Entry>, e: Entry)
    requires Holds(db, es) && ValidLog(es + [e]) && IsData(e)
    ensures Holds(Commit(db, EntryWrites(e)), es + [e])
  {
    Extend(es, e);
    EntryWritesCommit(db, e, ViewOf(es));
    forall k | k in FullLog(es) ensures k !in RowsOf(e) {
      OldRowKept(es, e, k);
    }
    LogGrow(db.log, FullLog(es), RowsOf(e), MaxCompact(es));
  }

  /** Compaction only deletes rows that have a later row at or below the target. */
  lemma {:induction false} CompactDeletesCommit(db: DB, log: map<Lex.Key, Record>, keys: seq<Lex.Key>, target: int)
    requires forall k :: k in keys ==> k in log && |k| > 0
    ensures var db' := Commit(db, CompactDeletes(log, keys, target));
            && db'.idx == db.idx
            && (forall k :: k in db'.log ==> k in db.log && db'.log[k] == db.log[k])
            && (forall k :: k in db.log ==> (k !in db'.log <==> k in keys && HasLater(log, log[k].key, k[0], target)))
  {
    if keys != [] {
      var init, k := keys[..|keys| - 1], keys[|keys| - 1];
      CompactDeletesCommit(db, log, init, target);
      var a := CompactDeletes(log, init, target);
      if HasLater(log, log[k].key, k[0], target) {
        CommitAppend(db, a, [DelLog(k)]);
        CommitSingle(Commit(db, a), DelLog(k));
      } else {
        assert CompactDeletes(log, keys, target) == a + [] == a;
      }
    }
  }

  lemma CommitSingle(db: DB, w: Write)
    ensures Commit(db, [w]) == CommitOne(db, w)
  {
    assert [w][..0] == [];
  }

  /** A compaction deletes exactly the rows of its scan that have a later row. */
  lemma CompactWritesCommit(db: DB, base: DB, compactRev: int, target: int)
    ensures var db' := Commit(db, CompactWrites(base, compactRev, target));
            && db'.idx == db.idx
            && (forall k :: k in db'.log ==> k in db.log && db'.log[k] == db.log[k])
            && (forall k :: k in db.log ==>
                  (k !in db'.log <==> k in base.log && |k| > 0 && Unsigned(compactRev) <= k[0] < Unsigned(target) &&
                                      HasLater(base.log, base.log[k].key, k[0], target)))
  {
    var keys := Scan(base.log, Unsigned(compactRev), Unsigned(target));
    var a, b := [SetCompact(target)], CompactDeletes(base.log, keys, target);
    CommitAppend(db, a, b);
    CommitSingle(db, SetCompact(target));
    CompactDeletesCommit(Commit(db, a), base.log, keys, target);
  }

  /** The batch of the first i entries. */
  function BatchUpTo(s: State, es: seq<Entry>, i: nat, recover: bool): (b: Batch)
    requires i <= |es|
  {
    BatchOf(s, es[..i], recover)
  }

  lemma BatchUpToEnds(s: State, es: seq<Entry>, recover: bool)
    ensures BatchUpTo(s, es, 0, recover) == Batch([], s.compactRev, 0, 0)
    ensures BatchUpTo(s, es, |es|, recover) == BatchOf(s, es, recover)
  {
    assert es[..0] == [] && es[..|es|] == es;
  }

  lemma BatchUpToNext(s: State, es: seq<Entry>, i: nat, recover: bool, b: Batch, b': Batch)
    requires i < |es| && b == BatchUpTo(s, es, i, recover) && b' == AddEntry(s.db, b, es[i], recover)
    ensures b' == BatchUpTo(s, es, i + 1, recover)
  {
    assert es[..i + 1][..i] == es[..i];
  }

  function CleanupUpTo(log: map<Lex.Key, Record>, keys: seq<Lex.Key>, i: nat): (ws: seq<Write>)
    requires i <= |keys| && forall k :: k in keys ==> k in log
  {
    CleanupTxn(log, keys[..i])
  }

  lemma CleanupUpToEnds(log: map<Lex.Key, Record>, keys: seq<Lex.Key>)
    requires forall k :: k in keys ==> k in log
    ensures CleanupUpTo(log, keys, 0) == [] && CleanupUpTo(log, keys, |keys|) == CleanupTxn(log, keys)
  {
    assert keys[..0] == [] && keys[..|keys|] == keys;
  }

  lemma CleanupUpToMore(log: map<Lex.Key, Record>, keys: seq<Lex.Key>, i: nat)
    requires i < |keys| && forall k :: k in keys ==> k in log
    ensures var k := keys[i];
            CleanupUpTo(log, keys, i + 1) ==
            CleanupUpTo(log, keys, i) + (if log[k].delete then [] else [DelIdx(log[k].key)]) + [DelLog(k)]
  {
    assert keys[..i + 1][..i] == keys[..i];
  }

  /** What a call holding one compaction does to the rows. */
  lemma CompactCall(s: State, c: Entry)
    requires !IsData(c)
    ensures var log, s' := s.db.log, ApplyBatch(s, [c], false);
            && s'.compactRev == c.prevRev
            && (forall k :: k in s'.db.log ==> k in log && s'.db.log[k] == log[k])
            && (forall k :: k in log ==>
                  (k !in s'.db.log <==> |k| > 0 && Unsigned(s.compactRev) <= k[0] < Unsigned(c.prevRev) &&
                                        HasLater(log, log[k].key, k[0], c.prevRev)))
  {
    assert [c][..0] == [];
    var ws := CompactWrites(s.db, s.compactRev, c.prevRev);
    assert BatchOf(s, [c], false).writes == [] + ws == ws;
    CompactWritesCommit(s.db, s.db, s.compactRev, c.prevRev);
  }

  lemma LaterMeansSuperseded(base: DB, es: seq<Entry>, k: Lex.Key, target: int)
    requires ValidLog(es) && k in base.log && |k| > 0 && HasLater(base.log, base.log[k].key, k[0], target)
    requires forall x :: x in base.log ==> x in FullLog(es) && base.log[x] == FullLog(es)[x]
    ensures Superseded(FullLog(es), k, target)
  {
    FullLogBounds(es, k);
    var k' :| k' in base.log && |k'| > 0 && Unsigned(k[0] + 1) <= k'[0] < Unsigned(target + 1) && base.log[k'].key == base.log[k].key;
  }

  /** A compaction entry keeps the representation, whatever its target and
      whatever part of the log was already committed when it was scanned. */
  lemma CompactStep(db: DB, es: seq<Entry>, e: Entry, base: DB, compactRev: int)
    requires Holds(db, es) && ValidLog(es + [e]) && !IsData(e)
    requires forall k :: k in base.log ==> k in FullLog(es) && base.log[k] == FullLog(es)[k]
    ensures Holds(Commit(db, CompactWrites(base, compactRev, e.prevRev)), es + [e])
  {
    CompactExtends(es, e);
    CompactWritesCommit(db, base, compactRev, e.prevRev);
    var db' := Commit(db, CompactWrites(base, compactRev, e.prevRev));
    forall k | k in db.log && k !in db'.log ensures Superseded(FullLog(es), k, e.prevRev) {
      LaterMeansSuperseded(base, es, k, e.prevRev);
    }
    LogShrink(db.log, FullLog(es), MaxCompact(es), db'.log, e.prevRev);
  }

  lemma CompactExtends(es: seq<Entry>, e: Entry)
    requires !IsData(e)
    ensures FullLog(es + [e]) == FullLog(es) && ViewOf(es + [e]) == ViewOf(es)
    ensures MaxCompact(es + [e]) == Max(MaxCompact(es), e.prevRev)
  {
    Extend(es, e);
    assert FullLog(es + [e]) == FullLog(es) + map[];
  }

  // --------------------------------------------------------- a whole batch

  lemma SplitLast(hist: seq<Entry>, es: seq<Entry>)
    requires es != []
    ensures var init, e := es[..|es| - 1], es[|es| - 1];
            && hist + es == (hist + init) + [e]
            && (hist + es)[..|hist + es| - 1] == hist + init && (hist + es)[|hist + es| - 1] == e
  {
  }

  lemma {:induction false} LastSeqBounds(es: seq<Entry>, i: nat)
    requires i < |es|
    ensures es[i].Sequence() <= LastSeq(es)
  {
    if i < |es| - 1 { LastSeqBounds(es[..|es| - 1], i); }
  }

  lemma {:induction false} CountersNonNegative(es: seq<Entry>)
    ensures CurrentRev(es) >= 0 && LastSeq(es) >= 0
  {
    if es != [] { CountersNonNegative(es[..|es| - 1]); }
  }

  /** Rows once in the full log stay there, and earlier revisions stay below later ones. */
  lemma {:induction false} FullLogMonotone(hist: seq<Entry>, es: seq<Entry>)
    requires ValidLog(hist + es)
    ensures ValidLog(hist) && CurrentRev(hist) <= CurrentRev(hist + es)
    ensures forall k :: k in FullLog(hist) ==> k in FullLog(hist + es) && FullLog(hist + es)[k] == FullLog(hist)[k]
  {
    if es == [] {
      assert hist + es == hist;
    } else {
      var init, e := es[..|es| - 1], es[|es| - 1];
      SplitLast(hist, es);
      FullLogMonotone(hist, init);
      forall k | k in FullLog(hist) ensures k !in RowsOf(e) {
        OldRowKept(hist + init, e, k);
      }
    }
  }

  /** At a fresh revision Recover finds nothing to clean up. */
  lemma CleanupNothing(db: DB, hist: seq<Entry>, e: Entry)
    requires ValidLog(hist) && e.revision > CurrentRev(hist)
    requires forall k :: k in db.log ==> k in FullLog(hist)
    ensures Cleanup(db, e) == []
  {
    forall k | k in db.log ensures |k| > 0 && k[0] < e.revision {
      FullLogBounds(hist, k);
    }
  }

  lemma AddCounters(db: DB, b: Batch, e: Entry, recover: bool)
    ensures AddEntry(db, b, e, recover).compactRev == if IsData(e) then b.compactRev else e.prevRev
    ensures AddEntry(db, b, e, recover).maxRev == if IsData(e) then Max(b.maxRev, e.revision) else b.maxRev
    ensures AddEntry(db, b, e, recover).maxSeq == Max(b.maxSeq, e.Sequence())
  {
  }

  lemma LogCounters(es: seq<Entry>, e: Entry)
    ensures LastCompact(es + [e]) == if IsData(e) then LastCompact(es) else e.prevRev
    ensures CurrentRev(es + [e]) == if IsData(e) then Max(CurrentRev(es), e.revision) else CurrentRev(es)
    ensures LastSeq(es + [e]) == Max(LastSeq(es), e.Sequence())
  {
    Extend(es, e);
  }

  /** The counters of a batch continue those of the history. */
  ghost predicate Counts(s: State, b: Batch, es: seq<Entry>) {
    && b.compactRev == LastCompact(es)
    && Max(s.currentRev, b.maxRev) == CurrentRev(es) && Max(s.lastSeq, b.maxSeq) == LastSeq(es)
  }

  lemma CountsMore(s: State, b: Batch, es: seq<Entry>, e: Entry, recover: bool)
    requires Counts(s, b, es)
    ensures Counts(s, AddEntry(s.db, b, e, recover), es + [e])
  {
    AddCounters(s.db, b, e, recover);
    LogCounters(es, e);
  }

  lemma {:induction false} BatchCounters(s: State, hist: seq<Entry>, es: seq<Entry>, recover: bool)
    requires s.currentRev == CurrentRev(hist) && s.lastSeq == LastSeq(hist) && s.compactRev == LastCompact(hist)
    ensures Counts(s, BatchOf(s, es, recover), hist + es)
  {
    if es == [] {
      assert hist + es == hist;
      CountersNonNegative(hist);
    } else {
      var init, e := es[..|es| - 1], es[|es| - 1];
      BatchCounters(s, hist, init, recover);
      CountsMore(s, BatchOf(s, init, recover), hist + init, e, recover);
      SplitEnd(hist, es);
    }
  }

  lemma AddFresh(base: DB, b: Batch, e: Entry, recover: bool)
    requires IsData(e) && Cleanup(base, e) == []
    ensures AddEntry(base, b, e, recover).writes == b.writes + EntryWrites(e)
  {
    assert b.writes + [] == b.writes;
  }

  /** base is the committed log the batch is built against; es is what the
      batch makes of it so far. */
  lemma AddEntryHolds(base: DB, b: Batch, es: seq<Entry>, e: Entry, recover: bool)
    requires Holds(Commit(base, b.writes), es) && ValidLog(es + [e])
    requires forall k :: k in base.log ==> k in FullLog(es) && base.log[k] == FullLog(es)[k]
    ensures Holds(Commit(base, AddEntry(base, b, e, recover).writes), es + [e])
  {
    Extend(es, e);
    if IsData(e) {
      CleanupNothing(base, es, e);
      AddFresh(base, b, e, recover);
      CommitAppend(base, b.writes, EntryWrites(e));
      DataStep(Commit(base, b.writes), es, e);
    } else {
      CommitAppend(base, b.writes, CompactWrites(base, b.compactRev, e.prevRev));
      CompactStep(Commit(base, b.writes), es, e, base, b.compactRev);
    }
  }

  lemma {:induction false} BatchHolds(s: State, hist: seq<Entry>, es: seq<Entry>, recover: bool)
    requires Holds(s.db, hist) && ValidLog(hist + es)
    ensures Holds(Commit(s.db, BatchOf(s, es, recover).writes), hist + es)
  {
    if es == [] {
      assert hist + es == hist;
    } else {
      var init, e := es[..|es| - 1], es[|es| - 1];
      SplitLast(hist, es);
      BatchHolds(s, hist, init, recover);
      FullLogMonotone(hist, init);
      AddEntryHolds(s.db, BatchOf(s, init, recover), hist + init, e, recover);
    }
  }

  /** Apply and Recover extend the represented sequence by their entries. */
  lemma ApplyRepresents(s: State, hist: seq<Entry>, es: seq<Entry>, recover: bool)
    requires Represents(s, hist) && ValidLog(hist + es)
    ensures Represents(ApplyBatch(s, es, recover), hist + es)
  {
    if es == [] {
      assert hist + es == hist;
    } else {
      BatchHolds(s, hist, es, recover);
      BatchCounters(s, hist, es, recover);
    }
  }

  // ------------------------------------------------------------ any batching

  /** One call of Apply or Recover. */
  datatype Call = Call(entries: seq<Entry>, recover: bool)

  function Flatten(calls: seq<Call>): (es: seq<Entry>) {
    if calls == [] then [] else Flatten(calls[..|calls| - 1]) + calls[|calls| - 1].entries
  }

  function RunCalls(calls: seq<Call>): (s: State) {
    if calls == [] then EMPTY
    else ApplyBatch(RunCalls(calls[..|calls| - 1]), calls[|calls| - 1].entries, calls[|calls| - 1].recover)
  }

  lemma {:induction false} RunRepresents(calls: seq<Call>)
    requires ValidLog(Flatten(calls))
    ensures Represents(RunCalls(calls), Flatten(calls))
  {
    if calls != [] {
      var init, last := calls[..|calls| - 1], calls[|calls| - 1];
      FullLogMonotone(Flatten(init), last.entries);
      RunRepresents(init);
      ApplyRepresents(RunCalls(init), Flatten(init), last.entries, last.recover);
    }
  }
}

/** Opening a store on the files an earlier one left: what the meta keys tell. */
module Reopen {
  import Lex
  import opened Entries
  import opened Mvcc
  import opened StoreState
  import opened StoreProofs

  /** The revision of the last log row, as stores without the meta key fall back to. */
  function LastLogRev(log: map<Lex.Key, Record>): (rev: int) {
    var keys := Lex.SortedKeys(log.Keys);
    if keys == [] || keys[|keys| - 1] == [] then 0 else keys[|keys| - 1][0]
  }

  function LoadMeta(db: DB): (s: State) {
    var rev := if db.metaRev.Some? then db.metaRev.value else LastLogRev(db.log);
    var seqNo := if db.metaSeq.Some? then db.metaSeq.value else 0;
    State(db, rev, if db.metaCompact.Some? then db.metaCompact.value else 0, Max(seqNo, rev))
  }

  method FindLastLogRev(log: map<Lex.Key, Record>) returns (rev: int)
    ensures rev == LastLogRev(log)
  {
    var keys := Lex.SortedKeys(log.Keys);
    if keys != [] && keys[|keys| - 1] != [] {
      return keys[|keys| - 1][0];
    }
    return 0;
  }

  // ----------------------------------------------------------- what a call writes

  ghost predicate NoMark(ws: seq<Write>) {
    forall i :: 0 <= i < |ws| ==> !ws[i].SetCompact?
  }

  lemma {:induction false} CommitMarks(db: DB, ws: seq<Write>)
    ensures Commit(db, ws).metaRev == db.metaRev && Commit(db, ws).metaSeq == db.metaSeq
    ensures NoMark(ws) ==> Commit(db, ws).metaCompact == db.metaCompact
  {
    if ws != [] {
      CommitMarks(db, ws[..|ws| - 1]);
    }
  }

  lemma {:induction false} SubWritesNoMark(rev: int, ops: seq<SubOp>)
    ensures NoMark(SubWrites(rev, ops))
  {
    if ops != [] { SubWritesNoMark(rev, ops[..|ops| - 1]); }
  }

  lemma {:induction false} CleanupNoMark(log: map<Lex.Key, Record>, keys: seq<Lex.Key>)
    requires forall k :: k in keys ==> k in log
    ensures NoMark(CleanupTxn(log, keys))
  {
    if keys != [] { CleanupNoMark(log, keys[..|keys| - 1]); }
  }

  lemma {:induction false} DeletesNoMark(log: map<Lex.Key, Record>, keys: seq<Lex.Key>, target: int)
    requires forall k :: k in keys ==> k in log && |k| > 0
    ensures NoMark(CompactDeletes(log, keys, target))
  {
    if keys != [] { DeletesNoMark(log, keys[..|keys| - 1], target); }
  }

  lemma DataNoMark(db: DB, e: Entry, recover: bool)
    ensures NoMark((if recover then Cleanup(db, e) else []) + EntryWrites(e))
  {
    EntryNoMark(e);
    StaleNoMark(db, e);
    NoMarkBoth(if recover then Cleanup(db, e) else [], EntryWrites(e));
  }

  lemma EntryNoMark(e: Entry)
    ensures NoMark(EntryWrites(e))
  {
    SubWritesNoMark(e.revision, e.ops);
  }

  lemma StaleNoMark(db: DB, e: Entry)
    ensures NoMark(Cleanup(db, e))
  {
    StaleRowsNoMark(db.log, e.revision);
  }

  lemma StaleRowsNoMark(log: map<Lex.Key, Record>, rev: int)
    ensures NoMark(StaleRows(log, rev))
  {
    CleanupNoMark(log, Scan(log, rev, rev + 1));
  }

  lemma NoMarkBoth(a: seq<Write>, b: seq<Write>)
    requires NoMark(a) && NoMark(b)
    ensures NoMark(a + b)
  {
  }

  lemma CompactMark(at: DB, db: DB, compactRev: int, target: int)
    ensures Commit(at, CompactWrites(db, compactRev, target)).metaCompact == Some(target)
  {
    var keys := Scan(db.log, Unsigned(compactRev), Unsigned(target));
    CommitAppend(at, [SetCompact(target)], CompactDeletes(db.log, keys, target));
    DeletesNoMark(db.log, keys, target);
    CommitMarks(Commit(at, [SetCompact(target)]), CompactDeletes(db.log, keys, target));
    assert [SetCompact(target)][..0] == [];
    assert Commit(at, [SetCompact(target)]) == CommitOne(Commit(at, []), SetCompact(target));
  }

  ghost predicate Marked(db: DB, compactRev: int) {
    compactRev == if db.metaCompact.Some? then db.metaCompact.value else 0
  }

  lemma MarkMore(s: State, b: Batch, e: Entry, recover: bool)
    requires Marked(Commit(s.db, b.writes), b.compactRev)
    ensures var b' := AddEntry(s.db, b, e, recover); Marked(Commit(s.db, b'.writes), b'.compactRev)
  {
    if e.op == OpCompact {
      CommitAppend(s.db, b.writes, CompactWrites(s.db, b.compactRev, e.prevRev));
      CompactMark(Commit(s.db, b.writes), s.db, b.compactRev, e.prevRev);
    } else {
      var ws := (if recover then Cleanup(s.db, e) else []) + EntryWrites(e);
      Associative(b.writes, if recover then Cleanup(s.db, e) else [], EntryWrites(e));
      CommitAppend(s.db, b.writes, ws);
      DataNoMark(s.db, e, recover);
      CommitMarks(Commit(s.db, b.writes), ws);
    }
  }

  lemma {:induction false} BatchMarks(s: State, es: seq<Entry>, recover: bool)
    requires Marked(s.db, s.compactRev)
    ensures var b := BatchOf(s, es, recover); Marked(Commit(s.db, b.writes), b.compactRev)
  {
    if es != [] {
      BatchMarks(s, es[..|es| - 1], recover);
      MarkMore(s, BatchOf(s, es[..|es| - 1], recover), es[|es| - 1], recover);
    }
  }

  lemma {:induction false} BatchNumbers(s: State, es: seq<Entry>, recover: bool)
    ensures BatchOf(s, es, recover).maxRev == CurrentRev(es) && BatchOf(s, es, recover).maxSeq == LastSeq(es)
  {
    if es != [] { BatchNumbers(s, es[..|es| - 1], recover); }
  }

  /** The meta keys after one call: those of the call, where it has any. */
  lemma CallMeta(s: State, es: seq<Entry>, recover: bool)
    ensures var s' := ApplyBatch(s, es, recover);
            && s'.db.metaRev == (if CurrentRev(es) > 0 then Some(CurrentRev(es)) else s.db.metaRev)
            && s'.db.metaSeq == (if LastSeq(es) > 0 then Some(LastSeq(es)) else s.db.metaSeq)
            && (Marked(s.db, s.compactRev) ==> Marked(s'.db, s'.compactRev))
  {
    BatchNumbers(s, es, recover);
    CommitMarks(s.db, BatchOf(s, es, recover).writes);
    if Marked(s.db, s.compactRev) { BatchMarks(s, es, recover); }
  }

  // -------------------------------------------------------------------- over runs

  /** The highest sequence of the last call that has one. */
  function SeqOfLast(calls: seq<Call>): (n: int) {
    if calls == [] then 0
    else
      var m := LastSeq(calls[|calls| - 1].entries);
      if m > 0 then m else SeqOfLast(calls[..|calls| - 1])
  }

  /** The meta keys are the counters, except that the sequence is the last call's. */
  ghost predicate MetaTells(s: State, calls: seq<Call>) {
    && Marked(s.db, s.compactRev)
    && s.db.metaRev == (if s.currentRev > 0 then Some(s.currentRev) else None)
    && s.db.metaSeq == (if SeqOfLast(calls) > 0 then Some(SeqOfLast(calls)) else None)
  }

  /** The revisions of a batch are above what the store has, if it has any. */
  lemma {:induction false} BatchRevisions(hist: seq<Entry>, es: seq<Entry>)
    requires ValidLog(hist + es)
    ensures CurrentRev(hist + es) == if CurrentRev(es) > 0 then CurrentRev(es) else CurrentRev(hist)
    ensures CurrentRev(es) >= 0 && (CurrentRev(es) > 0 ==> CurrentRev(es) > CurrentRev(hist)) && CurrentRev(hist) >= 0
  {
    if es == [] {
      assert hist + es == hist;
      CountersNonNegative(hist);
    } else {
      SplitLast(hist, es);
      BatchRevisions(hist, es[..|es| - 1]);
    }
  }

  lemma {:induction false} RunMeta(calls: seq<Call>)
    requires ValidLog(Flatten(calls))
    ensures MetaTells(RunCalls(calls), calls)
  {
    if calls != [] {
      var init, last := calls[..|calls| - 1], calls[|calls| - 1];
      FullLogMonotone(Flatten(init), last.entries);
      RunMeta(init);
      RunRepresents(init);
      RunRepresents(calls);
      CallMeta(RunCalls(init), last.entries, last.recover);
      BatchRevisions(Flatten(init), last.entries);
    }
  }

  lemma NoRows(s: State, es: seq<Entry>)
    requires Represents(s, es) && CurrentRev(es) == 0
    ensures LastLogRev(s.db.log) == 0
  {
    forall k ensures k !in s.db.log {
      if k in s.db.log { FullLogBounds(es, k); }
    }
    assert s.db.log == map[];
  }

  /** After any run of calls, opening the files gives the store as it was, if and only
      if its last sequence is that of the last call or the current revision. */
  lemma ReopenIff(calls: seq<Call>)
    requires ValidLog(Flatten(calls))
    ensures LoadMeta(RunCalls(calls).db) == RunCalls(calls) <==>
            LastSeq(Flatten(calls)) == Max(SeqOfLast(calls), CurrentRev(Flatten(calls)))
    ensures var s, s' := RunCalls(calls), LoadMeta(RunCalls(calls).db);
            s'.db == s.db && s'.currentRev == s.currentRev && s'.compactRev == s.compactRev
  {
    RunMeta(calls);
    RunRepresents(calls);
    CountersNonNegative(Flatten(calls));
    if CurrentRev(Flatten(calls)) == 0 { NoRows(RunCalls(calls), Flatten(calls)); }
    SeqNonNegative(calls);
  }

  lemma {:induction false} SeqNonNegative(calls: seq<Call>)
    ensures SeqOfLast(calls) >= 0
  {
    if calls != [] { SeqNonNegative(calls[..|calls| - 1]); }
  }

  // ------------------------------------------------------------- as leaders number

  /** Sequences never go down. */
  ghost predicate Ascending(es: seq<Entry>) {
    forall i, j :: 0 <= i < j < |es| ==> es[i].Sequence() <= es[j].Sequence()
  }

  lemma {:induction false} LastSeqIsLast(es: seq<Entry>)
    requires Ascending(es)
    ensures LastSeq(es) == if es == [] then 0 else Max(0, es[|es| - 1].Sequence())
  {
    if es != [] { LastSeqIsLast(es[..|es| - 1]); }
  }

  lemma AscendingParts(a: seq<Entry>, b: seq<Entry>)
    requires Ascending(a + b)
    ensures Ascending(a) && Ascending(b) && (a != [] && b != [] ==> a[|a| - 1].Sequence() <= b[|b| - 1].Sequence())
  {
    forall i, j | 0 <= i < j < |b| ensures b[i].Sequence() <= b[j].Sequence() {
      assert (a + b)[|a| + i] == b[i] && (a + b)[|a| + j] == b[j];
    }
    forall i, j | 0 <= i < j < |a| ensures a[i].Sequence() <= a[j].Sequence() {
      assert (a + b)[i] == a[i] && (a + b)[j] == a[j];
    }
    if a != [] && b != [] { assert (a + b)[|a| - 1] == a[|a| - 1] && (a + b)[|a + b| - 1] == b[|b| - 1]; }
  }

  lemma {:induction false} AscendingLast(calls: seq<Call>)
    requires Ascending(Flatten(calls))
    ensures SeqOfLast(calls) == LastSeq(Flatten(calls))
  {
    if calls != [] {
      var init, last := calls[..|calls| - 1], calls[|calls| - 1];
      var a, b := Flatten(init), last.entries;
      AscendingParts(a, b);
      AscendingLast(init);
      LastSeqIsLast(a);
      LastSeqIsLast(b);
      LastSeqIsLast(a + b);
      if b == [] { assert a + b == a; } else { assert (a + b)[|a + b| - 1] == b[|b| - 1]; }
    }
  }

  /** With sequences that never go down, opening gives the store as it was exactly when
      no revision is above the last sequence. */
  lemma ReopenAscendingIff(calls: seq<Call>)
    requires ValidLog(Flatten(calls)) && Ascending(Flatten(calls))
    ensures LoadMeta(RunCalls(calls).db) == RunCalls(calls) <==> CurrentRev(Flatten(calls)) <= LastSeq(Flatten(calls))
  {
    ReopenIff(calls);
    AscendingLast(calls);
  }
}

/** Scanning the change log for the events of a prefix, and what a compaction
    takes away from a scan. */
module Watch {
  import Lex
  import opened Entries
  import opened Mvcc
  import Batching
  import opened StoreState
  import opened StoreProofs
  import opened StoreReads
  import opened Ranges

  datatype Event = PutEvent(kv: KeyValue) | DeleteEvent(kv: KeyValue)

  // --------------------------------------------------------------- scanning

  function RowEvents(log: Log, k: Lex.Key, prefix: Key): (evs: seq<Event>)
    requires k in log && |k| > 0
  {
    var r := log[k];
    if !HasPrefix(r.key, prefix) then []
    else if r.delete then [DeleteEvent(RecordToKV(r.key, k[0], r))]
    else [PutEvent(RecordToKV(r.key, k[0], r))]
  }

  predicate Listed(log: Log, keys: seq<Lex.Key>) {
    forall i :: 0 <= i < |keys| ==> keys[i] in log && |keys[i]| > 0
  }

  function KeyEvents(log: Log, keys: seq<Lex.Key>, prefix: Key): (evs: seq<Event>)
    requires Listed(log, keys)
  {
    if keys == [] then []
    else KeyEvents(log, keys[..|keys| - 1], prefix) + RowEvents(log, keys[|keys| - 1], prefix)
  }

  /** scanLog over the revisions fromRev..toRev. */
  function ScanEvents(log: Log, prefix: Key, fromRev: int, toRev: int): (evs: seq<Event>) {
    KeyEvents(log, Scan(log, Unsigned(fromRev), Unsigned(toRev + 1)), prefix)
  }

  method ScanLog(log: Log, prefix: Key, fromRev: int, toRev: int) returns (events: seq<Event>, scanned: nat)
    ensures events == ScanEvents(log, prefix, fromRev, toRev)
    ensures scanned == |Scan(log, Unsigned(fromRev), Unsigned(toRev + 1))|
  {
    events, scanned := ReadRows(log, Scan(log, Unsigned(fromRev), Unsigned(toRev + 1)), prefix);
  }

  method ReadRows(log: Log, keys: seq<Lex.Key>, prefix: Key) returns (events: seq<Event>, scanned: nat)
    requires Listed(log, keys)
    ensures events == KeyEvents(log, keys, prefix) && scanned == |keys|
  {
    events, scanned := [], 0;
    for i := 0 to |keys|
      invariant events == KeyEvents(log, keys[..i], prefix) && scanned == i
    {
      assert keys[..i + 1][..i] == keys[..i];
      scanned := scanned + 1;
      var k := keys[i];
      var r := log[k];
      if !HasPrefix(r.key, prefix) {
        continue;
      }
      var kv := RecordToKV(r.key, k[0], r);
      events := events + [if r.delete then DeleteEvent(kv) else PutEvent(kv)];
    }
    assert keys[..|keys|] == keys;
  }

  // ------------------------------------------------- the events of a history

  function OpEvents(rev: int, ops: seq<SubOp>, prefix: Key): (evs: seq<Event>) {
    if ops == [] then []
    else
      var o := ops[|ops| - 1];
      var kv := RecordToKV(o.key, rev, RecordOf(o));
      OpEvents(rev, ops[..|ops| - 1], prefix) +
      (if !HasPrefix(o.key, prefix) then [] else [if o.op == OpDelete then DeleteEvent(kv) else PutEvent(kv)])
  }

  function EntryEvents(e: Entry, prefix: Key, fromRev: int, toRev: int): (evs: seq<Event>) {
    if IsData(e) && fromRev <= e.revision <= toRev then OpEvents(e.revision, SubOps(e), prefix) else []
  }

  /** The writes to keys with prefix, in log order, at revisions fromRev..toRev. */
  function History(es: seq<Entry>, prefix: Key, fromRev: int, toRev: int): (evs: seq<Event>) {
    if es == [] then []
    else History(es[..|es| - 1], prefix, fromRev, toRev) + EntryEvents(es[|es| - 1], prefix, fromRev, toRev)
  }

  // --------------------------------------- a scan finds exactly the history

  function RowKeys(e: Entry, n: nat): (keys: seq<Lex.Key>)
    ensures |keys| == n
  {
    seq(n, i => RowKey(e, i))
  }

  lemma RowKeysSorted(e: Entry)
    requires ValidEntry(e) && IsData(e)
    ensures Lex.Sorted(RowKeys(e, |SubOps(e)|))
    ensures forall k :: k in RowKeys(e, |SubOps(e)|) <==> k in RowsOf(e)
  {
    var keys := RowKeys(e, |SubOps(e)|);
    forall i, j | 0 <= i < j < |keys| ensures Lex.Less(keys[i], keys[j]) {
      Lex.LessPair(keys[i], keys[j]);
    }
    forall k | k in RowsOf(e) ensures k in keys {
      var i := OpOfRow(e, k);
      assert keys[i] == k;
    }
    forall k | k in keys ensures k in RowsOf(e) {
      var i :| 0 <= i < |keys| && keys[i] == k;
      RowOfOp(e, i);
    }
  }

  lemma {:induction false} RowKeyEvents(log: Log, e: Entry, n: nat, prefix: Key)
    requires ValidEntry(e) && IsData(e) && n <= |SubOps(e)|
    requires forall k :: k in RowsOf(e) ==> k in log && log[k] == RowsOf(e)[k]
    ensures Listed(log, RowKeys(e, n)) && KeyEvents(log, RowKeys(e, n), prefix) == OpEvents(e.revision, SubOps(e)[..n], prefix)
  {
    forall i | 0 <= i < n ensures RowKeys(e, n)[i] in log && |RowKeys(e, n)[i]| > 0 {
      RowOfOp(e, i);
    }
    if n > 0 {
      RowKeyEvents(log, e, n - 1, prefix);
      assert RowKeys(e, n)[..n - 1] == RowKeys(e, n - 1);
      assert SubOps(e)[..n][..n - 1] == SubOps(e)[..n - 1];
      RowOfOp(e, n - 1);
    }
  }

  lemma KeyEventsLast(log: Log, keys: seq<Lex.Key>, k: Lex.Key, prefix: Key)
    requires Listed(log, keys) && k in log && |k| > 0
    ensures Listed(log, keys + [k]) && KeyEvents(log, keys + [k], prefix) == KeyEvents(log, keys, prefix) + RowEvents(log, k, prefix)
  {
    assert (keys + [k])[..|keys + [k]| - 1] == keys;
  }

  lemma {:induction false} KeyEventsAppend(log: Log, a: seq<Lex.Key>, b: seq<Lex.Key>, prefix: Key)
    requires Listed(log, a) && Listed(log, b)
    ensures Listed(log, a + b)
    ensures KeyEvents(log, a + b, prefix) == KeyEvents(log, a, prefix) + KeyEvents(log, b, prefix)
  {
    if b == [] {
      assert a + b == a;
    } else {
      var b0, k := b[..|b| - 1], b[|b| - 1];
      KeyEventsAppend(log, a, b0, prefix);
      SplitEnd(a, b);
      KeyEventsLast(log, b0, k, prefix);
      KeyEventsLast(log, a + b0, k, prefix);
      Associative(KeyEvents(log, a, prefix), KeyEvents(log, b0, prefix), RowEvents(log, k, prefix));
    }
  }

  lemma {:induction false} KeyEventsSame(log: Log, log': Log, keys: seq<Lex.Key>, prefix: Key)
    requires Listed(log, keys) && Listed(log', keys)
    requires forall i :: 0 <= i < |keys| ==> log[keys[i]] == log'[keys[i]]
    ensures KeyEvents(log, keys, prefix) == KeyEvents(log', keys, prefix)
  {
    if keys != [] { KeyEventsSame(log, log', keys[..|keys| - 1], prefix); }
  }

  /** The rows of the last entry come after all earlier rows. */
  lemma ScanExtends(init: seq<Entry>, e: Entry, fromRev: int, toRev: int)
    requires ValidLog(init + [e]) && IsData(e) && fromRev <= e.revision <= toRev
    ensures Scan(FullLog(init + [e]), fromRev, toRev + 1) ==
            Scan(FullLog(init), fromRev, toRev + 1) + RowKeys(e, |SubOps(e)|)
  {
    Extend(init, e);
    RowKeysSorted(e);
    var a, b := Scan(FullLog(init), fromRev, toRev + 1), RowKeys(e, |SubOps(e)|);
    forall i, j | 0 <= i < |a| && 0 <= j < |b| ensures Lex.Less(a[i], b[j]) {
      assert a[i] in a && b[j] in b;
      FullLogBounds(init, a[i]);
      RowsAt(e, b[j]);
    }
    assert Lex.Sorted(a + b);
    forall k ensures k in a + b <==> k in Scan(FullLog(init + [e]), fromRev, toRev + 1) {
      if k in RowsOf(e) { RowsAt(e, k); }
    }
    Lex.SortedUnique(a + b, Scan(FullLog(init + [e]), fromRev, toRev + 1));
  }

  /** The last entry's rows lie outside the scan. */
  lemma ScanUnchanged(init: seq<Entry>, e: Entry, fromRev: int, toRev: int)
    requires ValidLog(init + [e]) && !(IsData(e) && fromRev <= e.revision <= toRev)
    ensures Scan(FullLog(init + [e]), fromRev, toRev + 1) == Scan(FullLog(init), fromRev, toRev + 1)
  {
    Extend(init, e);
    var a, b := Scan(FullLog(init), fromRev, toRev + 1), Scan(FullLog(init + [e]), fromRev, toRev + 1);
    forall k ensures k in a <==> k in b {
      if k in RowsOf(e) { RowsAt(e, k); }
    }
    Lex.SortedUnique(b, a);
  }

  /** Rows of earlier entries read the same after the last entry. */
  lemma EarlierEvents(init: seq<Entry>, e: Entry, keys: seq<Lex.Key>, prefix: Key)
    requires ValidLog(init + [e]) && Listed(FullLog(init), keys)
    ensures Listed(FullLog(init + [e]), keys)
    ensures KeyEvents(FullLog(init + [e]), keys, prefix) == KeyEvents(FullLog(init), keys, prefix)
  {
    var full, full' := FullLog(init), FullLog(init + [e]);
    forall i | 0 <= i < |keys| ensures keys[i] in full' && full'[keys[i]] == full[keys[i]] {
      OldRowKept(init, e, keys[i]);
    }
    KeyEventsSame(full, full', keys, prefix);
  }

  lemma NewEvents(init: seq<Entry>, e: Entry, prefix: Key)
    requires ValidLog(init + [e]) && IsData(e)
    ensures Listed(FullLog(init + [e]), RowKeys(e, |SubOps(e)|))
    ensures KeyEvents(FullLog(init + [e]), RowKeys(e, |SubOps(e)|), prefix) == OpEvents(e.revision, SubOps(e), prefix)
  {
    Extend(init, e);
    RowKeyEvents(FullLog(init + [e]), e, |SubOps(e)|, prefix);
    assert SubOps(e)[..|SubOps(e)|] == SubOps(e);
  }

  lemma EventsGrow(init: seq<Entry>, e: Entry, a: seq<Lex.Key>, prefix: Key)
    requires ValidLog(init + [e]) && IsData(e) && Listed(FullLog(init), a)
    ensures var full', b := FullLog(init + [e]), RowKeys(e, |SubOps(e)|);
            Listed(full', a + b) &&
            KeyEvents(full', a + b, prefix) == KeyEvents(FullLog(init), a, prefix) + OpEvents(e.revision, SubOps(e), prefix)
  {
    EarlierEvents(init, e, a, prefix);
    NewEvents(init, e, prefix);
    KeyEventsAppend(FullLog(init + [e]), a, RowKeys(e, |SubOps(e)|), prefix);
  }

  /** From revision 0 on the bounds need no unsigned reading. */
  lemma ScanEventsAre(log: Log, prefix: Key, fromRev: int, toRev: int)
    requires 0 <= fromRev && -1 <= toRev
    ensures Listed(log, Scan(log, fromRev, toRev + 1))
    ensures ScanEvents(log, prefix, fromRev, toRev) == KeyEvents(log, Scan(log, fromRev, toRev + 1), prefix)
  {
  }

  lemma FullScanGrows(init: seq<Entry>, e: Entry, prefix: Key, fromRev: int, toRev: int)
    requires 0 <= fromRev && -1 <= toRev
    requires ValidLog(init + [e]) && IsData(e) && fromRev <= e.revision <= toRev
    ensures ScanEvents(FullLog(init + [e]), prefix, fromRev, toRev) ==
            ScanEvents(FullLog(init), prefix, fromRev, toRev) + OpEvents(e.revision, SubOps(e), prefix)
  {
    ScanEventsAre(FullLog(init), prefix, fromRev, toRev);
    ScanEventsAre(FullLog(init + [e]), prefix, fromRev, toRev);
    ScanExtends(init, e, fromRev, toRev);
    EventsGrow(init, e, Scan(FullLog(init), fromRev, toRev + 1), prefix);
  }

  lemma FullScanStays(init: seq<Entry>, e: Entry, prefix: Key, fromRev: int, toRev: int)
    requires 0 <= fromRev && -1 <= toRev
    requires ValidLog(init + [e]) && !(IsData(e) && fromRev <= e.revision <= toRev)
    ensures ScanEvents(FullLog(init + [e]), prefix, fromRev, toRev) == ScanEvents(FullLog(init), prefix, fromRev, toRev)
  {
    ScanEventsAre(FullLog(init), prefix, fromRev, toRev);
    ScanEventsAre(FullLog(init + [e]), prefix, fromRev, toRev);
    EarlierEvents(init, e, Scan(FullLog(init), fromRev, toRev + 1), prefix);
    ScanUnchanged(init, e, fromRev, toRev);
  }

  lemma FullScanStep(init: seq<Entry>, e: Entry, prefix: Key, fromRev: int, toRev: int)
    requires 0 <= fromRev && -1 <= toRev && ValidLog(init + [e])
    ensures ScanEvents(FullLog(init + [e]), prefix, fromRev, toRev) ==
            ScanEvents(FullLog(init), prefix, fromRev, toRev) + EntryEvents(e, prefix, fromRev, toRev)
  {
    if IsData(e) && fromRev <= e.revision <= toRev {
      FullScanGrows(init, e, prefix, fromRev, toRev);
    } else {
      FullScanStays(init, e, prefix, fromRev, toRev);
    }
  }

  lemma HistoryMore(init: seq<Entry>, e: Entry, prefix: Key, fromRev: int, toRev: int)
    ensures History(init + [e], prefix, fromRev, toRev) ==
            History(init, prefix, fromRev, toRev) + EntryEvents(e, prefix, fromRev, toRev)
  {
    Extend(init, e);
  }

  /** Scanning the uncompacted log of es finds the history of es. */
  ghost predicate ScanTells(es: seq<Entry>, prefix: Key, fromRev: int, toRev: int) {
    ScanEvents(FullLog(es), prefix, fromRev, toRev) == History(es, prefix, fromRev, toRev)
  }

  lemma ScanTellsMore(init: seq<Entry>, e: Entry, prefix: Key, fromRev: int, toRev: int)
    requires 0 <= fromRev && -1 <= toRev && ValidLog(init + [e]) && ScanTells(init, prefix, fromRev, toRev)
    ensures ScanTells(init + [e], prefix, fromRev, toRev)
  {
    FullScanStep(init, e, prefix, fromRev, toRev);
    HistoryMore(init, e, prefix, fromRev, toRev);
  }

  lemma {:induction false} FullScanIsHistory(es: seq<Entry>, prefix: Key, fromRev: int, toRev: int)
    requires 0 <= fromRev && -1 <= toRev
    requires ValidLog(es)
    ensures ScanTells(es, prefix, fromRev, toRev)
  {
    if es != [] {
      var init, e := es[..|es| - 1], es[|es| - 1];
      assert es == init + [e];
      FullScanIsHistory(init, prefix, fromRev, toRev);
      ScanTellsMore(init, e, prefix, fromRev, toRev);
    }
  }

  /** No row at or above every compaction target is missing. */
  lemma NothingMissing(s: State, es: seq<Entry>, fromRev: int, k: Lex.Key)
    requires Represents(s, es) && MaxCompact(es) <= fromRev && |k| > 0 && fromRev <= k[0]
    ensures k in s.db.log <==> k in FullLog(es)
    ensures k in s.db.log ==> s.db.log[k] == FullLog(es)[k]
  {
    assert k in FullLog(es) && k !in s.db.log ==> Superseded(FullLog(es), k, MaxCompact(es));
  }

  /** Two logs with the same rows in a range give the same events. */
  lemma SameEvents(log: Log, log': Log, prefix: Key, fromRev: int, toRev: int)
    requires forall k :: |k| > 0 && Unsigned(fromRev) <= k[0] < Unsigned(toRev + 1) ==>
               (k in log <==> k in log') && (k in log ==> log[k] == log'[k])
    ensures ScanEvents(log, prefix, fromRev, toRev) == ScanEvents(log', prefix, fromRev, toRev)
  {
    var lo, hi := Unsigned(fromRev), Unsigned(toRev + 1);
    var a, b := Scan(log, lo, hi), Scan(log', lo, hi);
    assert forall k :: k in a <==> k in b;
    Lex.SortedUnique(a, b);
    assert forall i :: 0 <= i < |a| ==> a[i] in a;
    KeyEventsSame(log, log', a, prefix);
  }

  /** A scan that starts at or above every compaction target finds exactly the
      events of the history, in order, each once. */
  lemma ScanIsHistory(s: State, es: seq<Entry>, prefix: Key, fromRev: int, toRev: int)
    requires Represents(s, es) && MaxCompact(es) <= fromRev && -1 <= toRev
    ensures ScanEvents(s.db.log, prefix, fromRev, toRev) == History(es, prefix, fromRev, toRev)
  {
    CompactBelowMax(es);
    forall k: Lex.Key | |k| > 0 && Unsigned(fromRev) <= k[0] < Unsigned(toRev + 1)
      ensures (k in s.db.log <==> k in FullLog(es)) && (k in s.db.log ==> s.db.log[k] == FullLog(es)[k])
    {
      NothingMissing(s, es, fromRev, k);
    }
    SameEvents(s.db.log, FullLog(es), prefix, fromRev, toRev);
    FullScanIsHistory(es, prefix, fromRev, toRev);
  }

  // ------------------------------------------- a compaction under a watcher

  lemma LastOfBoth(a: seq<Lex.Key>, b: seq<Lex.Key>)
    requires b != [] && Lex.Sorted(a) && Lex.Sorted(b)
    requires forall i :: 0 <= i < |a| ==> a[i] in b
    ensures forall i :: 0 <= i < |a| && a[i] == b[|b| - 1] ==> i == |a| - 1
    ensures forall i :: 0 <= i < |a| && a[i] != b[|b| - 1] ==> a[i] in b[..|b| - 1]
  {
    var last := b[|b| - 1];
    forall i | 0 <= i < |a| && a[i] == last ensures i == |a| - 1 {
      if i < |a| - 1 {
        Lex.LessIrreflexive(last);
        var j :| 0 <= j < |b| && b[j] == a[|a| - 1];
        if j < |b| - 1 { Lex.LessAsymmetric(b[j], last); }
      }
    }
  }

  /** a is part of the scan b, read from rows that agree. */
  ghost predicate PartOf(log: Log, full: Log, a: seq<Lex.Key>, b: seq<Lex.Key>) {
    && Listed(log, a) && Listed(full, b) && Lex.Sorted(a) && Lex.Sorted(b)
    && forall i :: 0 <= i < |a| ==> a[i] in b && full[a[i]] == log[a[i]]
  }

  ghost predicate NoneLost(full: Log, a: seq<Lex.Key>, b: seq<Lex.Key>, prefix: Key)
    requires Listed(full, b)
  {
    forall j :: 0 <= j < |b| && HasPrefix(full[b[j]].key, prefix) ==> b[j] in a
  }

  lemma SomeMember(a: seq<Lex.Key>)
    ensures a == [] || exists i :: 0 <= i < |a| && a[i] in a
  {
    if a != [] { assert a[0] in a; }
  }

  lemma PartOfFront(log: Log, full: Log, a: seq<Lex.Key>, b: seq<Lex.Key>, prefix: Key)
    requires PartOf(log, full, a, b) && b != []
    ensures var a0, b0, k := a[..|a| - if b[|b| - 1] in a then 1 else 0], b[..|b| - 1], b[|b| - 1];
            && PartOf(log, full, a0, b0)
            && (k in a ==> a[|a| - 1] == k && full[k] == log[k])
            && (NoneLost(full, a, b, prefix) <==> NoneLost(full, a0, b0, prefix) && (HasPrefix(full[k].key, prefix) ==> k in a))
  {
    LastOfBoth(a, b);
    var k := b[|b| - 1];
    var a0, b0 := a[..|a| - if k in a then 1 else 0], b[..|b| - 1];
    forall j | 0 <= j < |b0| ensures b0[j] in a0 <==> b[j] in a {
      Lex.LessIrreflexive(k);
    }
  }

  /** Losing rows never adds events, and losing a matching row loses its event. */
  lemma {:induction false} FewerEvents(log: Log, full: Log, a: seq<Lex.Key>, b: seq<Lex.Key>, prefix: Key)
    requires PartOf(log, full, a, b)
    ensures |KeyEvents(log, a, prefix)| <= |KeyEvents(full, b, prefix)|
    ensures !NoneLost(full, a, b, prefix) ==> |KeyEvents(log, a, prefix)| < |KeyEvents(full, b, prefix)|
    ensures NoneLost(full, a, b, prefix) ==> KeyEvents(log, a, prefix) == KeyEvents(full, b, prefix)
    decreases |b|
  {
    if b != [] {
      PartOfFront(log, full, a, b, prefix);
      if b[|b| - 1] in a {
        FewerEvents(log, full, a[..|a| - 1], b[..|b| - 1], prefix);
      } else {
        assert a[..|a|] == a;
        FewerEvents(log, full, a, b[..|b| - 1], prefix);
      }
    } else {
      SomeMember(a);
    }
  }

  lemma EventsLost(log: Log, full: Log, prefix: Key, fromRev: int, toRev: int)
    requires forall k :: k in log ==> k in full && full[k] == log[k]
    ensures var lo, hi := Unsigned(fromRev), Unsigned(toRev + 1);
            ScanEvents(log, prefix, fromRev, toRev) == ScanEvents(full, prefix, fromRev, toRev)
            <==> forall k :: k in Scan(full, lo, hi) && HasPrefix(full[k].key, prefix) ==> k in log
  {
    var a, b := Scan(log, Unsigned(fromRev), Unsigned(toRev + 1)), Scan(full, Unsigned(fromRev), Unsigned(toRev + 1));
    assert forall i :: 0 <= i < |a| ==> a[i] in a;
    assert forall j :: 0 <= j < |b| ==> b[j] in b;
    FewerEvents(log, full, a, b, prefix);
  }

  /** A write that a watcher of prefix still has to see and that a compaction
      to target may drop: its key was written again at or below target. */
  ghost predicate AtRisk(full: Log, k: Lex.Key, prefix: Key, fromRev: int, toRev: int, target: int) {
    k in full && |k| > 0 && fromRev <= k[0] <= toRev && HasPrefix(full[k].key, prefix) && Superseded(full, k, target)
  }

  lemma AtRiskIsRemoved(s: State, es: seq<Entry>, e: Entry, fromRev: int, k: Lex.Key)
    requires Represents(s, es) && !IsData(e) && MaxCompact(es) <= fromRev && 0 <= s.compactRev
    requires k in FullLog(es) && |k| > 0 && fromRev <= k[0]
    ensures k !in ApplyBatch(s, [e], false).db.log <==> Superseded(FullLog(es), k, e.prevRev)
  {
    var log, full := s.db.log, FullLog(es);
    CompactBelowMax(es);
    CompactCall(s, e);
    NothingMissing(s, es, fromRev, k);
    FullLogBounds(es, k);
    if Superseded(full, k, e.prevRev) {
      var k' :| k' in full && |k'| > 0 && full[k'].key == full[k].key && k[0] < k'[0] <= e.prevRev;
      NothingMissing(s, es, fromRev, k');
    } else if HasLater(log, log[k].key, k[0], e.prevRev) {
      LaterMeansSuperseded(s.db, es, k, e.prevRev);
    }
  }

  /** After a compaction a watcher still sees every event it has not read yet if
      and only if none of them is at risk. */
  lemma CompactionHidesExactly(s: State, es: seq<Entry>, e: Entry, prefix: Key, fromRev: int, toRev: int)
    requires Represents(s, es) && ValidLog(es + [e]) && !IsData(e)
    requires MaxCompact(es) <= fromRev && -1 <= toRev && 0 <= s.compactRev
    ensures ScanEvents(ApplyBatch(s, [e], false).db.log, prefix, fromRev, toRev) == History(es + [e], prefix, fromRev, toRev)
            <==> !exists k :: AtRisk(FullLog(es), k, prefix, fromRev, toRev, e.prevRev)
  {
    var log', full := ApplyBatch(s, [e], false).db.log, FullLog(es);
    CompactBelowMax(es);
    CompactCall(s, e);
    CompactExtends(es, e);
    FullScanIsHistory(es + [e], prefix, fromRev, toRev);
    EventsLost(log', full, prefix, fromRev, toRev);
    forall k | k in full && |k| > 0 && fromRev <= k[0] <= toRev
      ensures k in log' <==> !Superseded(full, k, e.prevRev)
    {
      AtRiskIsRemoved(s, es, e, fromRev, k);
    }
    RiskIsLoss(log', full, prefix, fromRev, toRev, e.prevRev);
  }

  /** A scan overtaken by a compaction: of two puts of one key, the first is gone. */
  lemma OvertakenByCompaction(calls: seq<Call>, c: Entry)
    requires Flatten(calls) == [Batching.Put(1, 1), Batching.Put(2, 2)] && c == Batching.Compact(3, 2, 2)
    ensures ScanEvents(ApplyBatch(RunCalls(calls), [c], false).db.log, [], 1, 2) != History(Flatten(calls) + [c], [], 1, 2)
  {
    var es := Flatten(calls);
    assert es == [Batching.Put(1, 1), Batching.Put(2, 2), Batching.Put(3, 3)][..2];
    Batching.PutsKeepAllRows(calls, 2);
    Batching.PutsValid(2);
    CompactValid(es, c);
    FirstPutAtRisk(FullLog(es));
    CompactionHidesExactly(RunCalls(calls), es, c, [], 1, 2);
  }

  lemma CompactValid(es: seq<Entry>, c: Entry)
    requires ValidLog(es) && ValidEntry(c) && !IsData(c)
    ensures ValidLog(es + [c])
  {
    Extend(es, c);
  }

  lemma FirstPutAtRisk(full: Log)
    requires Batching.PutRows(full, 2)
    ensures AtRisk(full, [1], [], 1, 2, 2)
  {
    assert [1] in full && [2] in full;
    assert Superseded(full, [1], 2);
  }

  lemma RiskIsLoss(log: Log, full: Log, prefix: Key, fromRev: int, toRev: int, target: int)
    requires forall k :: k in full && |k| > 0 && fromRev <= k[0] <= toRev ==> (k in log <==> !Superseded(full, k, target))
    ensures (forall k :: k in Scan(full, fromRev, toRev + 1) && HasPrefix(full[k].key, prefix) ==> k in log)
            <==> !exists k :: AtRisk(full, k, prefix, fromRev, toRev, target)
  {
    assert forall k :: k in Scan(full, fromRev, toRev + 1) && HasPrefix(full[k].key, prefix) ==>
      (k in log <==> !AtRisk(full, k, prefix, fromRev, toRev, target));
  }
}

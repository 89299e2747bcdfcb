/** The write pipeline when a batch it has taken is given up by its callers. */
module AbortedBatches {
  import opened Entries
  import opened Mvcc
  import opened Serial
  import opened Pipeline
  import opened Aborts
  import StoreProofs

  /** The batch is dropped, its writes are taken off the overlay, and the commit loop
      goes on. */
  function Aborted(p: Pipe): (p': Pipe)
    requires p.stage.Taken?
  {
    p.(pending := ClearBatch(p.pending, p.stage.batch), stage := Idle)
  }

  // ------------------------------------------------------------- whose record it is

  ghost predicate LastWrite(es: seq<Entry>, key: Key, i: int) {
    0 <= i < |es| && Writes(es[i], key) && forall j :: i < j < |es| ==> !Writes(es[j], key)
  }

  ghost predicate TaggedAt(es: seq<Entry>, key: Key, rev: int) {
    exists i :: LastWrite(es, key, i) && es[i].revision == rev
  }

  /** Every overlay record is that of the last write of its key. */
  ghost predicate Tagged(es: seq<Entry>, pending: Pendings) {
    forall key :: key in pending ==> TaggedAt(es, key, pending[key].rev)
  }

  /** A plain delete of the empty key is never queued. */
  ghost predicate NoEmptyDelete(es: seq<Entry>) {
    forall i :: 0 <= i < |es| ==> !(es[i].op == OpDelete && es[i].key == [])
  }

  ghost predicate Ready(p: Pipe) {
    Inv(p) && Tagged(Hist(p), p.pending) && NoEmptyDelete(Unapplied(p))
  }

  lemma TaggedMore(es: seq<Entry>, pending: Pendings, e: Entry)
    requires Tagged(es, pending) && ValidEntry(e)
    ensures Tagged(es + [e], PendOps(pending, e.revision, SubOps(e)))
  {
    var es', pending' := es + [e], PendOps(pending, e.revision, SubOps(e));
    forall key | key in pending' ensures TaggedAt(es', key, pending'[key].rev) {
      PendOpsAt(pending, e.revision, SubOps(e), key);
      if Writes(e, key) {
        assert LastWrite(es', key, |es|);
      } else {
        var i :| LastWrite(es, key, i) && es[i].revision == pending[key].rev;
        assert forall j :: 0 <= j < |es| ==> es'[j] == es[j];
        assert LastWrite(es', key, i);
      }
    }
  }

  ghost predicate Part(pending': Pendings, pending: Pendings) {
    forall key :: key in pending' ==> key in pending && pending'[key] == pending[key]
  }

  lemma {:induction false} ClearOpsPart(pending: Pendings, rev: int, ops: seq<SubOp>)
    ensures Part(ClearOps(pending, rev, ops), pending)
  {
    if ops != [] { ClearOpsPart(pending, rev, ops[..|ops| - 1]); }
  }

  lemma ClearEntryPart(pending: Pendings, e: Entry)
    ensures Part(ClearEntry(pending, e), pending)
  {
    if e.op == OpTxn { ClearOpsPart(pending, e.revision, e.ops); }
  }

  lemma {:induction false} ClearBatchPart(pending: Pendings, batch: seq<Entry>)
    ensures Part(ClearBatch(pending, batch), pending)
  {
    if batch != [] {
      ClearBatchPart(pending, batch[..|batch| - 1]);
      ClearEntryPart(ClearBatch(pending, batch[..|batch| - 1]), batch[|batch| - 1]);
    }
  }

  lemma SubmitReady(p: Pipe, req: Request)
    requires Ready(p) && !Leaks(NodeDecision(p, req))
    ensures Ready(Submitted(p, req))
  {
    SubmitKeeps(p, req);
    SubmitIsEnqueue(p, req);
    StoreProofs.CountersNonNegative(Hist(p));
    DecidedAssignable(p, req);
    if NodeDecision(p, req).entry.Some? {
      EnqueueReady(p, NodeDecision(p, req).entry.value);
    }
  }

  lemma EnqueueReady(p: Pipe, e: Entry)
    requires Tagged(Hist(p), p.pending) && NoEmptyDelete(Unapplied(p)) && ValidEntry(e) && !(e.op == OpDelete && e.key == [])
    ensures Tagged(Hist(Enqueued(p, e)), Enqueued(p, e).pending) && NoEmptyDelete(Unapplied(Enqueued(p, e)))
  {
    EnqueueHist(p, e);
    TaggedMore(Hist(p), p.pending, e);
  }

  lemma OtherReady(p: Pipe, step: Step)
    requires Ready(p) && !step.Submit?
    ensures Ready(Next(p, step))
  {
    StepKeeps(p, step);
    match step
    case Take(n) => TakeSame(p, n);
    case Apply => SuffixReady(p);
    case Clear => if p.stage.Applied? { ClearBatchPart(p.pending, p.stage.batch); }
    case Settle(i) => if i < |p.applied| { ClearEntryPart(p.pending, p.applied[i]); }
    case _ =>
  }

  lemma SuffixReady(p: Pipe)
    requires NoEmptyDelete(Unapplied(p))
    ensures NoEmptyDelete(Unapplied(Next(p, Apply)))
  {
    if p.stage.Taken? {
      assert forall i :: 0 <= i < |p.queue| ==> Unapplied(p)[|p.stage.batch| + i] == p.queue[i];
    }
  }

  // ---------------------------------------------------------------- what is cleared

  ghost predicate ClearsOne(e: Entry, key: Key, rev: int) {
    e.revision == rev &&
    if e.op == OpTxn then exists i :: 0 <= i < |e.ops| && e.ops[i].key == key else key != [] && e.key == key
  }

  ghost predicate Clears(batch: seq<Entry>, key: Key, rev: int) {
    exists i :: 0 <= i < |batch| && ClearsOne(batch[i], key, rev)
  }

  lemma {:induction false} ClearOpsAt(pending: Pendings, rev: int, ops: seq<SubOp>, key: Key)
    ensures key in ClearOps(pending, rev, ops) <==>
            key in pending && !(pending[key].rev == rev && exists i :: 0 <= i < |ops| && ops[i].key == key)
  {
    if ops != [] {
      ClearOpsAt(pending, rev, ops[..|ops| - 1], key);
      ClearOpsPart(pending, rev, ops[..|ops| - 1]);
    }
  }

  lemma ClearEntryAt(pending: Pendings, e: Entry, key: Key)
    ensures key in ClearEntry(pending, e) <==> key in pending && !ClearsOne(e, key, pending[key].rev)
  {
    if e.op == OpTxn { ClearOpsAt(pending, e.revision, e.ops, key); }
  }

  lemma {:induction false} ClearBatchAt(pending: Pendings, batch: seq<Entry>, key: Key)
    ensures key in ClearBatch(pending, batch) <==> key in pending && !Clears(batch, key, pending[key].rev)
  {
    if batch != [] {
      var init, e := batch[..|batch| - 1], batch[|batch| - 1];
      ClearBatchAt(pending, init, key);
      ClearBatchPart(pending, init);
      ClearEntryAt(ClearBatch(pending, init), e, key);
      if key in pending { ClearsMore(init, e, batch, key, pending[key].rev); }
    }
  }

  lemma ClearsMore(init: seq<Entry>, e: Entry, batch: seq<Entry>, key: Key, rev: int)
    requires batch != [] && init == batch[..|batch| - 1] && e == batch[|batch| - 1]
    ensures Clears(batch, key, rev) <==> Clears(init, key, rev) || ClearsOne(e, key, rev)
  {
    assert forall i :: 0 <= i < |init| ==> batch[i] == init[i];
    if Clears(init, key, rev) {
      var i :| 0 <= i < |init| && ClearsOne(init[i], key, rev);
      assert ClearsOne(batch[i], key, rev);
    }
  }

  // ------------------------------------------------------------- aborting a batch

  /** The overlay record of the empty key is that of a single write in the batch: it
      is not taken off. */
  ghost predicate Stuck(p: Pipe)
    requires p.stage.Taken?
  {
    [] in p.pending && exists i :: StuckAt(p, i)
  }

  ghost predicate StuckAt(p: Pipe, i: int)
    requires p.stage.Taken? && [] in p.pending
  {
    0 <= i < |p.stage.batch| && IsData(p.stage.batch[i]) && p.stage.batch[i].op != OpTxn &&
    p.stage.batch[i].key == [] && p.stage.batch[i].revision == p.pending[[]].rev
  }

  lemma WriterClears(e: Entry, key: Key)
    requires Writes(e, key) && !(e.op != OpTxn && key == [])
    ensures ClearsOne(e, key, e.revision)
  {
    var i :| 0 <= i < |SubOps(e)| && SubOps(e)[i].key == key;
  }

  lemma EmptyWriter(e: Entry)
    requires Writes(e, []) && e.op != OpTxn
    ensures IsData(e) && e.key == []
  {
    var i :| 0 <= i < |SubOps(e)| && SubOps(e)[i].key == [];
  }

  lemma InsideCleared(p: Pipe, key: Key, m: nat)
    requires p.stage.Taken? && key in p.pending && m < |p.stage.batch|
    requires Writes(p.stage.batch[m], key) && p.stage.batch[m].revision == p.pending[key].rev
    ensures Stuck(p) || Clears(p.stage.batch, key, p.pending[key].rev)
  {
    var e := p.stage.batch[m];
    if e.op != OpTxn && key == [] {
      EmptyWriter(e);
      assert StuckAt(p, m);
    } else {
      WriterClears(e, key);
      assert ClearsOne(p.stage.batch[m], key, p.pending[key].rev);
    }
  }

  /** A record that stays is that of a write before or after the batch. */
  lemma StaysOutside(p: Pipe, key: Key, i: int)
    requires p.stage.Taken? && !Stuck(p) && key in ClearBatch(p.pending, p.stage.batch) && key in p.pending
    requires LastWrite(Hist(p), key, i) && Hist(p)[i].revision == p.pending[key].rev
    ensures i < |p.applied| || |p.applied| + |p.stage.batch| <= i
  {
    ClearBatchAt(p.pending, p.stage.batch, key);
    if |p.applied| <= i < |p.applied| + |p.stage.batch| {
      InsideCleared(p, key, i - |p.applied|);
    }
  }

  lemma HistParts(p: Pipe)
    requires p.stage.Taken?
    ensures Hist(p) == p.applied + p.stage.batch + p.queue && Hist(Aborted(p)) == p.applied + p.queue
    ensures Unapplied(p) == p.stage.batch + p.queue && Unapplied(Aborted(p)) == p.queue
  {
  }

  lemma PartsAt(a: seq<Entry>, b: seq<Entry>, c: seq<Entry>)
    ensures forall j :: 0 <= j < |a| ==> (a + b + c)[j] == a[j] && (a + c)[j] == a[j]
    ensures forall j :: 0 <= j < |b| ==> (a + b + c)[|a| + j] == b[j]
    ensures forall j :: 0 <= j < |c| ==> (a + b + c)[|a| + |b| + j] == c[j] && (a + c)[|a| + j] == c[j]
  {
  }

  lemma NothingAfter(a: seq<Entry>, b: seq<Entry>, c: seq<Entry>, key: Key, i: int)
    requires LastWrite(a + b + c, key, i) && i < |a|
    ensures !Touched(b, key) && !Touched(c, key) && Writes(a[i], key) && forall j :: i < j < |a| ==> !Writes(a[j], key)
  {
    PartsAt(a, b, c);
    forall j | 0 <= j < |b| ensures !Writes(b[j], key) { assert !Writes((a + b + c)[|a| + j], key); }
    forall j | 0 <= j < |c| ensures !Writes(c[j], key) { assert !Writes((a + b + c)[|a| + |b| + j], key); }
    forall j | i < j < |a| ensures !Writes(a[j], key) { assert !Writes((a + b + c)[j], key); }
  }

  lemma BeforeSame(a: seq<Entry>, b: seq<Entry>, c: seq<Entry>, key: Key, i: int)
    requires LastWrite(a + b + c, key, i) && i < |a|
    ensures LastWrite(a + c, key, i) && (a + c)[i] == (a + b + c)[i]
  {
    PartsAt(a, b, c);
    NothingAfter(a, b, c, key, i);
    forall j | i < j < |a + c| ensures !Writes((a + c)[j], key) {
      if j >= |a| { assert (a + c)[j] == c[j - |a|]; }
    }
  }

  lemma AfterSame(a: seq<Entry>, b: seq<Entry>, c: seq<Entry>, key: Key, i: int)
    requires LastWrite(a + b + c, key, i) && |a| + |b| <= i
    ensures LastWrite(a + c, key, i - |b|) && (a + c)[i - |b|] == (a + b + c)[i] && Touched(c, key)
  {
    PartsAt(a, b, c);
    assert c[i - |a| - |b|] == (a + b + c)[i];
    forall j | i - |b| < j < |a + c| ensures !Writes((a + c)[j], key) {
      assert (a + c)[j] == c[j - |a|] == (a + b + c)[j + |b|];
    }
  }

  /** For such a key the state without the batch is the state with it. */
  lemma OutsideSame(a: seq<Entry>, b: seq<Entry>, c: seq<Entry>, key: Key, i: int)
    requires ValidLog(a + b) && ValidLog(a + b + c) && LastWrite(a + b + c, key, i) && (i < |a| || |a| + |b| <= i)
    ensures Lookup(ViewOf(a + b + c), key) == Lookup(ViewOf(a + c), key)
    ensures TaggedAt(a + c, key, (a + b + c)[i].revision)
  {
    if i < |a| {
      NothingAfter(a, b, c, key, i);
      BeforeSame(a, b, c, key, i);
    } else {
      AfterSame(a, b, c, key, i);
    }
    WithoutPart(a, b, c, key);
  }

  lemma QueueCovered(p: Pipe)
    requires Covered(Unapplied(p), p.pending) && p.stage.Taken?
    ensures Covered(p.queue, p.pending)
  {
    CoveredSuffix(p.stage.batch, p.queue, p.pending);
  }

  lemma CoveredKept(es: seq<Entry>, pending: Pendings, pending': Pendings)
    requires Covered(es, pending)
    requires forall i, key :: 0 <= i < |es| && Writes(es[i], key) && key in pending && es[i].revision <= pending[key].rev ==>
               key in pending' && pending'[key] == pending[key]
    ensures Covered(es, pending')
  {
  }

  lemma CoveredAfter(p: Pipe)
    requires Inv(p) && p.stage.Taken?
    ensures Covered(p.queue, ClearBatch(p.pending, p.stage.batch))
  {
    var pending' := ClearBatch(p.pending, p.stage.batch);
    QueueCovered(p);
    forall i, key | 0 <= i < |p.queue| && Writes(p.queue[i], key) && key in p.pending && p.queue[i].revision <= p.pending[key].rev
      ensures key in pending' && pending'[key] == p.pending[key]
    {
      NotCleared(p, i, p.pending[key].rev, key);
      KeptRecord(p.pending, p.stage.batch, key);
    }
    CoveredKept(p.queue, p.pending, pending');
  }

  lemma KeptRecord(pending: Pendings, batch: seq<Entry>, key: Key)
    requires key in pending && !Clears(batch, key, pending[key].rev)
    ensures key in ClearBatch(pending, batch) && ClearBatch(pending, batch)[key] == pending[key]
  {
    ClearBatchAt(pending, batch, key);
    ClearBatchPart(pending, batch);
  }

  lemma NotCleared(p: Pipe, i: nat, rev: int, key: Key)
    requires Inv(p) && p.stage.Taken? && i < |p.queue| && Writes(p.queue[i], key) && p.queue[i].revision <= rev
    ensures !Clears(p.stage.batch, key, rev)
  {
    HistParts(p);
    assert IsData(p.queue[i]);
    RevisionsBelow(p.applied + p.stage.batch, p.queue, i);
    RevisionsGrow(p.applied + p.stage.batch, p.queue);
    forall j | 0 <= j < |p.stage.batch| ensures !ClearsOne(p.stage.batch[j], key, rev) {
      if IsData(p.stage.batch[j]) {
        RevisionsBelow(p.applied, p.stage.batch, j);
      } else {
        assert Hist(p)[|p.applied| + j] == p.stage.batch[j];
      }
    }
  }

  lemma KeylessWithout(p: Pipe)
    requires Keyless(Hist(p)) && p.stage.Taken?
    ensures Keyless(p.applied + p.queue)
  {
    HistParts(p);
    var es := p.applied + p.queue;
    forall i | 0 <= i < |es| && !IsData(es[i]) ensures es[i].key == [] {
      assert es[i] == Hist(p)[if i < |p.applied| then i else i + |p.stage.batch|];
    }
  }

  lemma BatchValid(p: Pipe)
    requires Inv(p) && p.stage.Taken?
    ensures ValidLog(p.applied + p.stage.batch) && ValidLog(p.applied + p.stage.batch + p.queue)
  {
    HistParts(p);
    RevisionsGrow(p.applied + p.stage.batch, p.queue);
  }

  lemma AbortTruthful(p: Pipe)
    requires Ready(p) && p.stage.Taken? && !Stuck(p)
    ensures Truthful(ViewOf(p.applied + p.queue), ClearBatch(p.pending, p.stage.batch))
    ensures Tagged(p.applied + p.queue, ClearBatch(p.pending, p.stage.batch))
  {
    AllTruthful(p, ClearBatch(p.pending, p.stage.batch), p.applied + p.queue, ViewOf(p.applied + p.queue));
  }

  lemma AllTruthful(p: Pipe, pending': Pendings, es: seq<Entry>, v: View)
    requires Ready(p) && p.stage.Taken? && !Stuck(p) && pending' == ClearBatch(p.pending, p.stage.batch)
    requires es == p.applied + p.queue && v == ViewOf(es)
    ensures Truthful(v, pending') && Tagged(es, pending')
  {
    forall key | key in pending'
      ensures pending'[key].kv == Lookup(v, key) && TaggedAt(es, key, pending'[key].rev)
    {
      AbortTruthfulAt(p, pending', key);
    }
  }

  lemma AbortTruthfulAt(p: Pipe, pending': Pendings, key: Key)
    requires Ready(p) && p.stage.Taken? && !Stuck(p)
    requires pending' == ClearBatch(p.pending, p.stage.batch) && key in pending'
    ensures pending'[key].kv == Lookup(ViewOf(p.applied + p.queue), key)
    ensures TaggedAt(p.applied + p.queue, key, pending'[key].rev)
  {
    BatchValid(p);
    HistParts(p);
    ClearBatchPart(p.pending, p.stage.batch);
    assert TaggedAt(Hist(p), key, p.pending[key].rev);
    var i :| LastWrite(Hist(p), key, i) && Hist(p)[i].revision == p.pending[key].rev;
    StaysOutside(p, key, i);
    OutsideSame(p.applied, p.stage.batch, p.queue, key, i);
  }

  lemma InvParts(p: Pipe, p': Pipe)
    requires p.stage.Taken? && p' == Aborted(p) && ValidLog(p.applied + p.queue) && CurrentRev(p.applied + p.queue) <= p.nextRev
    requires Covered(p.queue, p'.pending) && Truthful(ViewOf(p.applied + p.queue), p'.pending) && Keyless(p.applied + p.queue)
    ensures Inv(p')
  {
    HistParts(p);
  }

  lemma AbortLog(p: Pipe)
    requires Inv(p) && p.stage.Taken?
    ensures ValidLog(p.applied + p.queue) && CurrentRev(p.applied + p.queue) <= p.nextRev && Keyless(p.applied + p.queue)
  {
    HistParts(p);
    BatchValid(p);
    ValidWithout(p.applied, p.stage.batch, p.queue);
    KeylessWithout(p);
  }

  lemma QueueHasNoEmptyDelete(p: Pipe)
    requires NoEmptyDelete(Unapplied(p)) && p.stage.Taken?
    ensures NoEmptyDelete(p.queue)
  {
    assert forall i :: 0 <= i < |p.queue| ==> Unapplied(p)[|p.stage.batch| + i] == p.queue[i];
  }

  lemma AbortReady(p: Pipe)
    requires Ready(p) && p.stage.Taken? && !Stuck(p)
    ensures Ready(Aborted(p))
  {
    AbortLog(p);
    AbortTruthful(p);
    CoveredAfter(p);
    InvParts(p, Aborted(p));
    QueueHasNoEmptyDelete(p);
    HistParts(p);
  }

  // ------------------------------------------------------------------ the stuck record

  /** Data revisions ascend, so the entry with a revision is the only one. */
  lemma OneAtRevision(es: seq<Entry>, i: nat, j: nat)
    requires ValidLog(es) && i < j < |es| && IsData(es[i]) && IsData(es[j])
    ensures es[i].revision < es[j].revision
  {
    RevisionsAscend(es, j, j);
    RevisionsPrefix(es, j);
    assert es[..j][i] == es[i];
    RevisionsAscend(es[..j], 0, i);
  }

  lemma StuckIsLast(p: Pipe, m: nat)
    requires Ready(p) && p.stage.Taken? && [] in p.pending && StuckAt(p, m)
    ensures LastWrite(Hist(p), [], |p.applied| + m)
  {
    HistParts(p);
    assert Tagged(Hist(p), p.pending);
    BatchAt(Hist(p), p.applied, p.stage.batch, p.queue, m);
    LastAtRevision(Hist(p), [], p.pending[[]].rev, |p.applied| + m);
  }

  lemma BatchAt(es: seq<Entry>, a: seq<Entry>, b: seq<Entry>, c: seq<Entry>, m: nat)
    requires es == a + b + c && m < |b|
    ensures |a| + m < |es| && es[|a| + m] == b[m]
  {
  }

  lemma LastAtRevision(es: seq<Entry>, key: Key, rev: int, j: nat)
    requires ValidLog(es) && TaggedAt(es, key, rev) && j < |es| && IsData(es[j]) && es[j].revision == rev
    ensures LastWrite(es, key, j)
  {
    var i :| LastWrite(es, key, i) && es[i].revision == rev;
    assert IsData(es[i]);
    if i < j { OneAtRevision(es, i, j); }
    if j < i { OneAtRevision(es, j, i); }
  }

  lemma PutLeaves(v: View, e: Entry)
    requires IsData(e) && e.op != OpTxn && e.op != OpDelete
    ensures e.key in ApplyEntry(v, e) && ApplyEntry(v, e)[e.key].revision == e.revision
  {
    var o := SubOps(e)[0];
    assert SubOps(e) == [o];
    StoreProofs.ApplySingle(v, e.revision, o);
  }

  lemma {:induction false} LastWriteShows(es: seq<Entry>, i: int, key: Key)
    requires ValidLog(es) && LastWrite(es, key, i) && IsData(es[i]) && es[i].op != OpTxn && es[i].op != OpDelete && es[i].key == key
    ensures key in ViewOf(es) && ViewOf(es)[key].revision == es[i].revision
  {
    var init, e := es[..|es| - 1], es[|es| - 1];
    if i == |es| - 1 {
      PutLeaves(ViewOf(init), e);
    } else {
      assert LastWrite(init, key, i);
      LastWriteShows(init, i, key);
      NotWritten(ViewOf(init), e, key);
    }
  }

  /** Without the batch the empty key is not what its record says. */
  lemma StuckLies(p: Pipe, m: nat)
    requires Ready(p) && p.stage.Taken? && [] in p.pending && StuckAt(p, m)
    ensures !Truthful(ViewOf(p.applied + p.queue), ClearBatch(p.pending, p.stage.batch))
  {
    HistParts(p);
    BatchValid(p);
    StuckIsLast(p, m);
    var i := |p.applied| + m;
    assert Hist(p)[i] == p.stage.batch[m] == Unapplied(p)[m];
    LastWriteShows(Hist(p), i, []);
    StuckStays(p, m);
    EmptyBefore(p.applied, p.stage.batch, p.queue, m, p.applied + p.queue);
  }

  lemma StuckStays(p: Pipe, m: nat)
    requires Inv(p) && p.stage.Taken? && [] in p.pending && StuckAt(p, m)
    ensures [] in ClearBatch(p.pending, p.stage.batch) && ClearBatch(p.pending, p.stage.batch)[[]] == p.pending[[]]
  {
    BatchValid(p);
    forall j | 0 <= j < |p.stage.batch| ensures !ClearsOne(p.stage.batch[j], [], p.pending[[]].rev) {
      NotAgain(p.applied, p.stage.batch, m, j);
    }
    KeptRecord(p.pending, p.stage.batch, []);
  }

  lemma NotAgain(a: seq<Entry>, b: seq<Entry>, m: nat, j: nat)
    requires ValidLog(a + b) && m < |b| && j < |b| && IsData(b[m])
    ensures b[j].op == OpTxn && b[m].op != OpTxn ==> b[j].revision != b[m].revision
  {
    assert (a + b)[|a| + j] == b[j] && (a + b)[|a| + m] == b[m];
    NotTwice(a + b, |a| + m, |a| + j);
  }

  lemma NotTwice(es: seq<Entry>, i: nat, j: nat)
    requires ValidLog(es) && i < |es| && j < |es| && IsData(es[i])
    ensures es[j].op == OpTxn && es[i].op != OpTxn ==> es[j].revision != es[i].revision
  {
    if es[j].op == OpTxn && es[i].op != OpTxn {
      if j < i { OneAtRevision(es, j, i); } else { OneAtRevision(es, i, j); }
    }
  }

  lemma EmptyBefore(a: seq<Entry>, b: seq<Entry>, c: seq<Entry>, m: nat, rest: seq<Entry>)
    requires ValidLog(a + b) && ValidLog(a + b + c) && m < |b| && IsData(b[m]) && LastWrite(a + b + c, [], |a| + m)
    requires rest == a + c
    ensures [] in ViewOf(rest) ==> ViewOf(rest)[[]].revision < b[m].revision
  {
    RevisionsGrow(a, b);
    RevisionsBelow(a, b, m);
    OnlyBefore(a, b, c, m);
    EarlierRevision(a, ViewOf(rest), b[m].revision);
  }

  lemma OnlyBefore(a: seq<Entry>, b: seq<Entry>, c: seq<Entry>, m: nat)
    requires ValidLog(a + b) && ValidLog(a + b + c) && m < |b| && LastWrite(a + b + c, [], |a| + m)
    ensures Lookup(ViewOf(a + c), []) == Lookup(ViewOf(a), [])
  {
    ValidWithout(a, b, c);
    NoneAfter(a + b + c, a, b, c, m);
    Untouched(a, c, []);
  }

  lemma NoneAfter(all: seq<Entry>, a: seq<Entry>, b: seq<Entry>, c: seq<Entry>, m: nat)
    requires all == a + b + c && m < |b| && LastWrite(all, [], |a| + m)
    ensures forall j :: 0 <= j < |c| ==> !Writes(c[j], [])
  {
    forall j | 0 <= j < |c| ensures !Writes(c[j], []) { assert all[|a| + |b| + j] == c[j]; }
  }

  lemma EarlierRevision(es: seq<Entry>, v: View, rev: int)
    requires ValidLog(es) && CurrentRev(es) < rev && Lookup(v, []) == Lookup(ViewOf(es), [])
    ensures [] in v ==> v[[]].revision < rev
  {
    if [] in ViewOf(es) { RevisionBound(es, []); }
  }

  /** After an abort the overlay and the log are in order again, if and only if the
      overlay record of the empty key was not that of a single write of the batch. */
  lemma AbortKeepsIff(p: Pipe)
    requires Ready(p) && p.stage.Taken?
    ensures Ready(Aborted(p)) <==> !Stuck(p)
    ensures Inv(Aborted(p)) <==> !Stuck(p)
  {
    if Stuck(p) {
      var m :| StuckAt(p, m);
      StuckLies(p, m);
      HistParts(p);
    } else {
      AbortReady(p);
    }
  }

  // ------------------------------------------------------------------- runs with aborts

  datatype Turn = Go(step: Step) | Abort

  function NextTurn(p: Pipe, t: Turn): (p': Pipe) {
    match t
    case Go(step) => Next(p, step)
    case Abort => if p.stage.Taken? then Aborted(p) else p
  }

  function AfterTurns(p: Pipe, turns: seq<Turn>): (p': Pipe) {
    if turns == [] then p else NextTurn(AfterTurns(p, turns[..|turns| - 1]), turns[|turns| - 1])
  }

  /** No plain delete of a live empty key, and no abort that leaves its record stuck. */
  ghost predicate SoundTurn(p: Pipe, t: Turn) {
    match t
    case Go(step) => step.Submit? ==> !Leaks(NodeDecision(p, step.req))
    case Abort => p.stage.Taken? ==> !Stuck(p)
  }

  ghost predicate SoundTurns(p: Pipe, turns: seq<Turn>) {
    turns == [] ||
    (SoundTurns(p, turns[..|turns| - 1]) && SoundTurn(AfterTurns(p, turns[..|turns| - 1]), turns[|turns| - 1]))
  }

  lemma TurnKeeps(p: Pipe, t: Turn)
    requires Ready(p) && SoundTurn(p, t)
    ensures Ready(NextTurn(p, t))
  {
    match t
    case Go(step) => if step.Submit? { SubmitReady(p, step.req); } else { OtherReady(p, step); }
    case Abort => if p.stage.Taken? { AbortReady(p); }
  }

  /** However many batches are given up, every request is decided on the state of the
      log that is left. */
  lemma {:induction false} DecidedOnWhatIsLeft(p: Pipe, turns: seq<Turn>, req: Request)
    requires Ready(p) && SoundTurns(p, turns)
    ensures var p' := AfterTurns(p, turns);
            && Ready(p') && Overlay(ViewOf(p'.applied), p'.pending) == ViewOf(Hist(p'))
            && NodeDecision(p', req) == Decided(p'.term, LogOf(p'), req)
  {
    if turns != [] {
      DecidedOnWhatIsLeft(p, turns[..|turns| - 1], req);
      TurnKeeps(AfterTurns(p, turns[..|turns| - 1]), turns[|turns| - 1]);
    }
    OverlayIsHistory(AfterTurns(p, turns));
    SameDecision(AfterTurns(p, turns), req);
  }

  /** From every ready and idle state with nothing queued: putting the empty key and
      giving that batch up leaves an overlay that does not tell the truth. */
  lemma StuckRun(p: Pipe, value: Value, lease: int)
    requires Ready(p) && p.stage.Idle? && p.queue == []
    ensures var p' := Next(Submitted(p, Put([], value, lease)), Take(1));
            p'.stage.Taken? && !Inv(Aborted(p'))
  {
    var req := Put([], value, lease);
    LeakIs(p, req);
    SubmitReady(p, req);
    var p1 := Submitted(p, req);
    OtherReady(p1, Take(1));
    PutRecorded(p, value, lease);
    assert StuckAt(Next(p1, Take(1)), 0);
    AbortKeepsIff(Next(p1, Take(1)));
  }

  lemma PutRecorded(p: Pipe, value: Value, lease: int)
    requires p.queue == []
    ensures var p' := Submitted(p, Put([], value, lease));
            && |p'.queue| == 1 && IsData(p'.queue[0]) && p'.queue[0].op != OpTxn && p'.queue[0].key == [] && p'.stage == p.stage
            && [] in p'.pending && p'.pending[[]].rev == p'.queue[0].revision
  {
    var e := NodeDecision(p, Put([], value, lease)).entry.value;
    assert SubOps(e) == [SubOps(e)[0]];
    PendOpsAt(p.pending, e.revision, SubOps(e), []);
  }

  // ----------------------------------------------------- what the rest amounts to

  /** In any run, when the batch under way is given up and no request decided after it
      read a key it wrote, the log that is left and the replies to those requests are
      those of executing them one at a time after what was applied, with the counters
      where the batch had left them. */
  lemma AbortLeavesSerial(p: Pipe, steps: seq<Step>, done: seq<Request>, lost: seq<Request>, rest: seq<Request>)
    requires Inv(p) && NoLeaks(p, steps) && Requests(steps) == done + lost + rest && After(p, steps).stage.Taken?
    requires var p' := After(p, steps);
             && Execute(p.term, LogOf(p), done).entries == p'.applied
             && Execute(p.term, LogOf(p), done + lost).entries == p'.applied + p'.stage.batch
             && AllApart(p'.stage.batch, rest)
    ensures var p', l := After(p, steps), Execute(p.term, LogOf(p), done + lost);
            && LogOf(Aborted(p')) == Execute(p.term, l.(entries := p'.applied), rest)
            && Replies(p, steps) == Outcomes(p.term, LogOf(p), done + lost) + Outcomes(p.term, l.(entries := p'.applied), rest)
  {
    var p', l := After(p, steps), Execute(p.term, LogOf(p), done + lost);
    PipelineIsSerial(p, steps);
    ExecuteSplit(p.term, LogOf(p), done + lost, rest);
    ExecutedValid(p.term, LogOf(p), done + lost);
    var b := RestIsSerial(p.term, p'.applied, p'.stage.batch, l, l.(entries := p'.applied), rest);
    HistParts(p');
    SameRest(p'.applied + p'.stage.batch, b, p'.queue);
  }

  lemma UnnoticedIs(term: nat, p: Pipe, l: Log, rest: seq<Request>)
    requires p.stage.Taken? && LogOf(p) == Execute(term, l, rest)
    ensures Unnoticed(term, p.applied, p.stage.batch, l, rest) <==> LogOf(Aborted(p)) == Execute(term, l.(entries := p.applied), rest)
  {
    var h, a, m, m' := p.applied, p.stage.batch, Execute(term, l, rest), Execute(term, l.(entries := p.applied), rest);
    HistParts(p);
    if b :| Beside(h, a, b, m, m') {
      SameRest(h + a, b, p.queue);
    }
    if LogOf(Aborted(p)) == m' {
      assert Beside(h, a, p.queue, m, m');
    }
  }

  /** Among puts the log that is left is that of a serial run if and only if no key of
      the batch was put again after it. */
  lemma AbortOfPutsIff(p: Pipe, steps: seq<Step>, done: seq<Request>, lost: seq<Request>, rest: seq<Request>)
    requires Inv(p) && NoLeaks(p, steps) && Requests(steps) == done + lost + rest && After(p, steps).stage.Taken?
    requires AllPuts(lost) && AllPuts(rest)
    requires var p' := After(p, steps);
             && Execute(p.term, LogOf(p), done).entries == p'.applied
             && Execute(p.term, LogOf(p), done + lost).entries == p'.applied + p'.stage.batch
    ensures var p', l := After(p, steps), Execute(p.term, LogOf(p), done + lost);
            LogOf(Aborted(p')) == Execute(p.term, l.(entries := p'.applied), rest) <==> Disjoint(lost, rest)
  {
    var p', l0, l := After(p, steps), Execute(p.term, LogOf(p), done), Execute(p.term, LogOf(p), done + lost);
    PipelineIsSerial(p, steps);
    StoreProofs.CountersNonNegative(Hist(p));
    ExecuteSplit(p.term, LogOf(p), done + lost, rest);
    ExecuteSplit(p.term, LogOf(p), done, lost);
    ExecutedValid(p.term, LogOf(p), done);
    ExecutePrefix(p.term, LogOf(p), done, []);
    UnnoticedIs(p.term, p', l, rest);
    PutsUnnoticedIff(p.term, l0, lost, rest, p'.stage.batch, l);
  }
}

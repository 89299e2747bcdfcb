/** The leader's write pipeline: requests are decided against the store plus an
    overlay of writes in flight, queued, committed in batches and only then
    taken off the overlay. */
module Pipeline {
  import opened Entries
  import opened Mvcc
  import opened Serial
  import opened StoreProofs

  /** A write that was assigned rev; no kv means a delete. */
  datatype Pending = Pending(rev: int, kv: Option<KeyValue>)

  type Pendings = map<Key, Pending>

  /** The commit loop waits, holds a batch it has taken, or has applied it. */
  datatype Stage = Idle | Taken(batch: seq<Entry>) | Applied(batch: seq<Entry>)

  datatype Pipe = Pipe(term: nat, nextRev: int, nextSeq: int, pending: Pendings,
                       applied: seq<Entry>, stage: Stage, queue: seq<Entry>)

  /** Entries that were assigned but not yet applied to the store. */
  function Unapplied(p: Pipe): (es: seq<Entry>) {
    (if p.stage.Taken? then p.stage.batch else []) + p.queue
  }

  /** Everything ever enqueued, in order. */
  function Hist(p: Pipe): (es: seq<Entry>) {
    p.applied + Unapplied(p)
  }

  function LogOf(p: Pipe): (log: Serial.Log) {
    Serial.Log(Hist(p), p.nextRev, p.nextSeq)
  }

  // --------------------------------------------------------------- the overlay

  /** What readKey sees: the overlay first, then the store. */
  function Overlay(v: View, pending: Pendings): (v': View) {
    map k | k in v.Keys + pending.Keys && (k in pending ==> pending[k].kv.Some?) ::
      if k in pending then pending[k].kv.value else v[k]
  }

  function PendOps(pending: Pendings, rev: int, ops: seq<SubOp>): (pending': Pendings) {
    if ops == [] then pending
    else
      var o := ops[|ops| - 1];
      PendOps(pending, rev, ops[..|ops| - 1])[o.key := Pending(rev, Lookup(ApplySub(map[], rev, o), o.key))]
  }

  function ClearKey(pending: Pendings, key: Key, rev: int): (pending': Pendings) {
    if key in pending && pending[key].rev == rev then pending - {key} else pending
  }

  function ClearOps(pending: Pendings, rev: int, ops: seq<SubOp>): (pending': Pendings) {
    if ops == [] then pending
    else ClearKey(ClearOps(pending, rev, ops[..|ops| - 1]), ops[|ops| - 1].key, rev)
  }

  /** A single write to the empty key is never taken off the overlay. */
  function ClearEntry(pending: Pendings, e: Entry): (pending': Pendings) {
    if e.op == OpTxn then ClearOps(pending, e.revision, e.ops)
    else if e.key == [] then pending
    else ClearKey(pending, e.key, e.revision)
  }

  function ClearBatch(pending: Pendings, batch: seq<Entry>): (pending': Pendings) {
    if batch == [] then pending
    else ClearEntry(ClearBatch(pending, batch[..|batch| - 1]), batch[|batch| - 1])
  }

  // ---------------------------------------------------------------- the steps

  datatype Step =
    | Submit(req: Request)
    | Take(n: nat)
    | Apply
    | Clear
    /** A waiting caller cleans up after the i-th applied entry. */
    | Settle(i: nat)

  function NodeDecision(p: Pipe, req: Request): (d: Decision) {
    Decide(p.term, Overlay(ViewOf(p.applied), p.pending), p.nextRev + 1, p.nextSeq + 1, req)
  }

  /** prepareDelete signals "no such key" by an entry with an empty key, so a
      delete of the empty key that does exist is assigned but never enqueued. */
  predicate Leaks(d: Decision) {
    d.entry.Some? && d.entry.value.op == OpDelete && d.entry.value.key == []
  }

  function Submitted(p: Pipe, req: Request): (p': Pipe) {
    var d := NodeDecision(p, req);
    if d.entry.None? then p
    else
      var e := d.entry.value;
      p.(nextRev := if IsData(e) then p.nextRev + 1 else p.nextRev,
         nextSeq := p.nextSeq + 1,
         pending := PendOps(p.pending, e.revision, SubOps(e)),
         queue := if Leaks(d) then p.queue else p.queue + [e])
  }

  function Reply(p: Pipe, req: Request): (o: Outcome) {
    var d := NodeDecision(p, req);
    if !Leaks(d) then d.outcome
    else if req.Delete? then NotFound
    else Unchanged(None, false)
  }

  /** A step that is not possible now changes nothing. */
  function Next(p: Pipe, step: Step): (p': Pipe) {
    match step
    case Submit(req) => Submitted(p, req)
    case Take(n) =>
      if p.stage.Idle? && 0 < n <= |p.queue| then p.(stage := Taken(p.queue[..n]), queue := p.queue[n..]) else p
    case Apply => if p.stage.Taken? then p.(applied := p.applied + p.stage.batch, stage := Applied(p.stage.batch)) else p
    case Clear => if p.stage.Applied? then p.(pending := ClearBatch(p.pending, p.stage.batch), stage := Idle) else p
    case Settle(i) =>
      if i < |p.applied| && p.applied[i].op != OpTxn then p.(pending := ClearEntry(p.pending, p.applied[i])) else p
  }

  function After(p: Pipe, steps: seq<Step>): (p': Pipe) {
    if steps == [] then p else Next(After(p, steps[..|steps| - 1]), steps[|steps| - 1])
  }

  function Asked(step: Step): (reqs: seq<Request>) {
    if step.Submit? then [step.req] else []
  }

  function Answered(p: Pipe, step: Step): (os: seq<Outcome>) {
    if step.Submit? then [Reply(p, step.req)] else []
  }

  function Requests(steps: seq<Step>): (reqs: seq<Request>) {
    if steps == [] then []
    else Requests(steps[..|steps| - 1]) + Asked(steps[|steps| - 1])
  }

  function Replies(p: Pipe, steps: seq<Step>): (os: seq<Outcome>) {
    if steps == [] then []
    else Replies(p, steps[..|steps| - 1]) + Answered(After(p, steps[..|steps| - 1]), steps[|steps| - 1])
  }

  /** No step deletes the empty key by a plain delete while it is live. */
  predicate NoLeaks(p: Pipe, steps: seq<Step>) {
    steps == [] ||
    (var init, s := steps[..|steps| - 1], steps[|steps| - 1];
     NoLeaks(p, init) && (s.Submit? ==> !Leaks(NodeDecision(After(p, init), s.req))))
  }

  // ------------------------------------------------------------ the invariant

  ghost predicate Writes(e: Entry, key: Key) {
    exists i :: 0 <= i < |SubOps(e)| && SubOps(e)[i].key == key
  }

  /** Every unapplied write of a key is at or below the key's overlay revision. */
  ghost predicate Covered(es: seq<Entry>, pending: Pendings) {
    forall i, key :: 0 <= i < |es| && Writes(es[i], key) ==> key in pending && es[i].revision <= pending[key].rev
  }

  /** The overlay tells the truth about the keys it holds. */
  ghost predicate Truthful(v: View, pending: Pendings) {
    forall key :: key in pending ==> pending[key].kv == Lookup(v, key)
  }

  /** Compactions carry no key. */
  ghost predicate Keyless(es: seq<Entry>) {
    forall i :: 0 <= i < |es| && !IsData(es[i]) ==> es[i].key == []
  }

  ghost predicate Contains(es: seq<Entry>, batch: seq<Entry>) {
    forall i :: 0 <= i < |batch| ==> batch[i] in es
  }

  ghost predicate Inv(p: Pipe) {
    && ValidLog(Hist(p)) && CurrentRev(Hist(p)) <= p.nextRev
    && Covered(Unapplied(p), p.pending)
    && Truthful(ViewOf(Hist(p)), p.pending)
    && Keyless(Hist(p))
    && (p.stage.Applied? ==> Contains(p.applied, p.stage.batch))
  }

  // ----------------------------------------------------- reading the overlay

  lemma NotWritten(v: View, e: Entry, key: Key)
    requires ValidEntry(e) && !Writes(e, key)
    ensures Lookup(ApplyEntry(v, e), key) == Lookup(v, key)
  {
    ApplySubsLookup(v, e.revision, SubOps(e), key);
  }

  lemma {:induction false} Untouched(hist: seq<Entry>, es: seq<Entry>, key: Key)
    requires ValidLog(hist + es) && forall i :: 0 <= i < |es| ==> !Writes(es[i], key)
    ensures Lookup(ViewOf(hist + es), key) == Lookup(ViewOf(hist), key)
  {
    if es == [] {
      assert hist + es == hist;
    } else {
      SplitLast(hist, es);
      Untouched(hist, es[..|es| - 1], key);
      NotWritten(ViewOf(hist + es[..|es| - 1]), es[|es| - 1], key);
    }
  }

  lemma OverlayLookup(v: View, pending: Pendings, key: Key)
    ensures Lookup(Overlay(v, pending), key) == if key in pending then pending[key].kv else Lookup(v, key)
  {
  }

  lemma UncoveredUntouched(es: seq<Entry>, pending: Pendings, key: Key)
    requires Covered(es, pending) && key !in pending
    ensures forall i :: 0 <= i < |es| ==> !Writes(es[i], key)
  {
  }

  lemma OverlayAt(p: Pipe, key: Key)
    requires ValidLog(Hist(p)) && Covered(Unapplied(p), p.pending) && Truthful(ViewOf(Hist(p)), p.pending)
    ensures Lookup(Overlay(ViewOf(p.applied), p.pending), key) == Lookup(ViewOf(Hist(p)), key)
  {
    OverlayLookup(ViewOf(p.applied), p.pending, key);
    if key !in p.pending {
      UncoveredUntouched(Unapplied(p), p.pending, key);
      Untouched(p.applied, Unapplied(p), key);
    }
  }

  /** Reading the overlay over the store is reading the whole history. */
  lemma OverlayIsHistory(p: Pipe)
    requires Inv(p)
    ensures Overlay(ViewOf(p.applied), p.pending) == ViewOf(Hist(p))
  {
    forall key ensures Lookup(Overlay(ViewOf(p.applied), p.pending), key) == Lookup(ViewOf(Hist(p)), key) {
      OverlayAt(p, key);
    }
    SameLookups(Overlay(ViewOf(p.applied), p.pending), ViewOf(Hist(p)));
  }

  // -------------------------------------------------------------- submitting

  lemma {:induction false} PendOpsAt(pending: Pendings, rev: int, ops: seq<SubOp>, key: Key)
    requires DistinctKeys(ops)
    ensures var p' := PendOps(pending, rev, ops);
            && (forall i :: 0 <= i < |ops| && ops[i].key == key ==>
                  key in p' && p'[key] == Pending(rev, Lookup(ApplySub(map[], rev, ops[i]), key)))
            && ((forall i :: 0 <= i < |ops| ==> ops[i].key != key) ==>
                  (key in p' <==> key in pending) && (key in pending ==> p'[key] == pending[key]))
  {
    if ops != [] { PendOpsAt(pending, rev, ops[..|ops| - 1], key); }
  }

  /** Adding an entry's writes to the overlay of a state gives the overlay of the
      state after the entry. */
  lemma PendTruthful(v: View, pending: Pendings, e: Entry)
    requires ValidEntry(e) && Truthful(v, pending)
    ensures Truthful(ApplyEntry(v, e), PendOps(pending, e.revision, SubOps(e)))
  {
    var pending' := PendOps(pending, e.revision, SubOps(e));
    forall key | key in pending' ensures pending'[key].kv == Lookup(ApplyEntry(v, e), key) {
      PendOpsAt(pending, e.revision, SubOps(e), key);
      ApplySubsLookup(v, e.revision, SubOps(e), key);
    }
  }

  lemma PendCovers(es: seq<Entry>, pending: Pendings, e: Entry)
    requires ValidEntry(e) && Covered(es, pending)
    requires forall i :: 0 <= i < |es| && IsData(es[i]) ==> es[i].revision <= e.revision
    ensures Covered(es + [e], PendOps(pending, e.revision, SubOps(e)))
  {
    var es', pending' := es + [e], PendOps(pending, e.revision, SubOps(e));
    forall i, key | 0 <= i < |es'| && Writes(es'[i], key)
      ensures key in pending' && es'[i].revision <= pending'[key].rev
    {
      PendOpsAt(pending, e.revision, SubOps(e), key);
      assert i < |es| ==> es'[i] == es[i];
    }
  }

  /** The entries from position n on have revisions above those of the first n. */
  lemma {:induction false} RevisionsAscend(es: seq<Entry>, n: nat, i: nat)
    requires ValidLog(es) && n <= i < |es| && IsData(es[i])
    ensures CurrentRev(es[..n]) < es[i].revision <= CurrentRev(es)
  {
    var init := es[..|es| - 1];
    assert init[..n] == es[..n];
    if i < |init| {
      RevisionsAscend(init, n, i);
    } else {
      RevisionsPrefix(init, n);
    }
  }

  lemma {:induction false} RevisionsPrefix(es: seq<Entry>, n: nat)
    requires ValidLog(es) && n <= |es|
    ensures ValidLog(es[..n]) && CurrentRev(es[..n]) <= CurrentRev(es)
  {
    if n == |es| {
      assert es[..n] == es;
    } else {
      var init := es[..|es| - 1];
      assert init[..n] == es[..n];
      RevisionsPrefix(init, n);
    }
  }

  lemma RevisionsBelow(hist: seq<Entry>, es: seq<Entry>, i: int)
    requires ValidLog(hist + es) && 0 <= i < |es| && IsData(es[i])
    ensures CurrentRev(hist) < es[i].revision <= CurrentRev(hist + es)
  {
    RevisionsBelowIn(hist + es, hist, es, i);
  }

  lemma RevisionsBelowIn(all: seq<Entry>, hist: seq<Entry>, es: seq<Entry>, i: int)
    requires ValidLog(all) && 0 <= i < |es| && IsData(es[i]) && all == hist + es
    ensures CurrentRev(hist) < es[i].revision <= CurrentRev(all)
  {
    assert all[..|hist|] == hist && all[|hist| + i] == es[i];
    RevisionsAscend(all, |hist|, |hist| + i);
  }

  lemma {:induction false} RevisionsGrow(hist: seq<Entry>, es: seq<Entry>)
    requires ValidLog(hist + es)
    ensures ValidLog(hist) && CurrentRev(hist) <= CurrentRev(hist + es)
  {
    if es == [] {
      assert hist + es == hist;
    } else {
      SplitLast(hist, es);
      RevisionsGrow(hist, es[..|es| - 1]);
    }
  }

  lemma CompactCovers(es: seq<Entry>, pending: Pendings, e: Entry)
    requires Covered(es, pending) && !IsData(e)
    ensures Covered(es + [e], pending)
  {
    forall i, key | 0 <= i < |es + [e]| && Writes((es + [e])[i], key)
      ensures key in pending && (es + [e])[i].revision <= pending[key].rev
    {
      assert i < |es|;
      assert (es + [e])[i] == es[i];
    }
  }

  /** p with entry e assigned and enqueued. */
  function Enqueued(p: Pipe, e: Entry): (p': Pipe) {
    p.(nextRev := if IsData(e) then p.nextRev + 1 else p.nextRev, nextSeq := p.nextSeq + 1,
       pending := PendOps(p.pending, e.revision, SubOps(e)), queue := p.queue + [e])
  }

  /** An entry as the node assigns it next. */
  ghost predicate Assignable(p: Pipe, e: Entry) {
    ValidEntry(e) && if IsData(e) then e.revision == p.nextRev + 1 else e.key == []
  }

  lemma EnqueueCovers(p: Pipe, e: Entry)
    requires Inv(p) && Assignable(p, e)
    ensures Covered(Unapplied(p) + [e], PendOps(p.pending, e.revision, SubOps(e)))
  {
    if IsData(e) {
      forall i | 0 <= i < |Unapplied(p)| && IsData(Unapplied(p)[i]) ensures Unapplied(p)[i].revision <= e.revision {
        RevisionsBelow(p.applied, Unapplied(p), i);
      }
      PendCovers(Unapplied(p), p.pending, e);
    } else {
      CompactCovers(Unapplied(p), p.pending, e);
    }
  }

  lemma EnqueueHist(p: Pipe, e: Entry)
    ensures Unapplied(Enqueued(p, e)) == Unapplied(p) + [e] && Hist(Enqueued(p, e)) == Hist(p) + [e]
  {
  }

  lemma ValidMore(es: seq<Entry>, e: Entry)
    requires ValidLog(es) && ValidEntry(e) && (IsData(e) ==> e.revision > CurrentRev(es))
    ensures ValidLog(es + [e]) && ViewOf(es + [e]) == ApplyEntry(ViewOf(es), e)
    ensures CurrentRev(es + [e]) == if IsData(e) then e.revision else CurrentRev(es)
  {
    Extend(es, e);
  }

  lemma KeylessMore(es: seq<Entry>, e: Entry)
    requires Keyless(es) && (!IsData(e) ==> e.key == [])
    ensures Keyless(es + [e])
  {
  }

  lemma EnqueueKeeps(p: Pipe, e: Entry)
    requires Inv(p) && Assignable(p, e)
    ensures Inv(Enqueued(p, e)) && Hist(Enqueued(p, e)) == Hist(p) + [e]
  {
    EnqueueCovers(p, e);
    PendTruthful(ViewOf(Hist(p)), p.pending, e);
    KeylessMore(Hist(p), e);
    ValidMore(Hist(p), e);
    EnqueueHist(p, e);
  }

  ghost predicate MayEnqueue(p: Pipe, entry: Option<Entry>) {
    entry.Some? ==> Assignable(p, entry.value)
  }

  lemma DecidedAssignable(p: Pipe, req: Request)
    requires p.nextRev >= 0
    ensures MayEnqueue(p, NodeDecision(p, req).entry)
  {
    var v := Overlay(ViewOf(p.applied), p.pending);
    NodeDecides(p, v, req);
    DecidedEntryValid(p.term, v, p.nextRev + 1, p.nextSeq + 1, req);
    DecidedNumbers(p.term, v, p.nextRev + 1, p.nextSeq + 1, req);
  }

  lemma NodeDecides(p: Pipe, v: View, req: Request)
    requires v == Overlay(ViewOf(p.applied), p.pending)
    ensures NodeDecision(p, req) == Decide(p.term, v, p.nextRev + 1, p.nextSeq + 1, req)
  {
  }

  lemma SubmitIsEnqueue(p: Pipe, req: Request)
    requires !Leaks(NodeDecision(p, req))
    ensures Submitted(p, req) == WithEntry(p, NodeDecision(p, req).entry)
  {
  }

  function WithEntry(p: Pipe, entry: Option<Entry>): (p': Pipe) {
    if entry.None? then p else Enqueued(p, entry.value)
  }

  lemma WithEntryKeeps(p: Pipe, entry: Option<Entry>)
    requires Inv(p) && MayEnqueue(p, entry)
    ensures Inv(WithEntry(p, entry)) && Hist(WithEntry(p, entry)) == Append(LogOf(p), entry).entries
  {
    if entry.Some? { EnqueueKeeps(p, entry.value); }
  }

  lemma SubmitKeeps(p: Pipe, req: Request)
    requires Inv(p) && !Leaks(NodeDecision(p, req))
    ensures Inv(Submitted(p, req))
    ensures Hist(Submitted(p, req)) == Append(LogOf(p), NodeDecision(p, req).entry).entries
  {
    CountersNonNegative(Hist(p));
    DecidedAssignable(p, req);
    WithEntryKeeps(p, NodeDecision(p, req).entry);
    SubmitIsEnqueue(p, req);
  }

  // ---------------------------------------------------------------- clearing

  /** All of es lies above rev. */
  ghost predicate Above(es: seq<Entry>, rev: int) {
    forall i :: 0 <= i < |es| && IsData(es[i]) ==> rev < es[i].revision
  }

  ghost predicate Clearable(es: seq<Entry>, e: Entry) {
    if IsData(e) then Above(es, e.revision) else e.key == []
  }

  /** Dropping the overlay entry of a write below es loses nothing about es. */
  lemma ClearKeyKeeps(v: View, es: seq<Entry>, pending: Pendings, key: Key, rev: int)
    requires Covered(es, pending) && Truthful(v, pending)
    requires Above(es, rev)
    ensures Covered(es, ClearKey(pending, key, rev)) && Truthful(v, ClearKey(pending, key, rev))
  {
    var pending' := ClearKey(pending, key, rev);
    forall i, k | 0 <= i < |es| && Writes(es[i], k) ensures k in pending' && es[i].revision <= pending'[k].rev {
      assert es[i].revision <= pending[k].rev;
    }
  }

  lemma {:induction false} ClearOpsKeeps(v: View, es: seq<Entry>, pending: Pendings, rev: int, ops: seq<SubOp>)
    requires Covered(es, pending) && Truthful(v, pending)
    requires Above(es, rev)
    ensures Covered(es, ClearOps(pending, rev, ops)) && Truthful(v, ClearOps(pending, rev, ops))
  {
    if ops != [] {
      ClearOpsKeeps(v, es, pending, rev, ops[..|ops| - 1]);
      ClearKeyKeeps(v, es, ClearOps(pending, rev, ops[..|ops| - 1]), ops[|ops| - 1].key, rev);
    }
  }

  lemma ClearEntryKeeps(v: View, es: seq<Entry>, pending: Pendings, e: Entry)
    requires Covered(es, pending) && Truthful(v, pending)
    requires Clearable(es, e)
    ensures Covered(es, ClearEntry(pending, e)) && Truthful(v, ClearEntry(pending, e))
  {
    if e.op == OpTxn {
      ClearOpsKeeps(v, es, pending, e.revision, e.ops);
    } else if e.key != [] {
      ClearKeyKeeps(v, es, pending, e.key, e.revision);
    }
  }

  lemma {:induction false} ClearBatchKeeps(v: View, es: seq<Entry>, pending: Pendings, batch: seq<Entry>)
    requires Covered(es, pending) && Truthful(v, pending)
    requires forall i :: 0 <= i < |batch| ==> Clearable(es, batch[i])
    ensures Covered(es, ClearBatch(pending, batch)) && Truthful(v, ClearBatch(pending, batch))
  {
    if batch != [] {
      ClearBatchKeeps(v, es, pending, batch[..|batch| - 1]);
      ClearEntryKeeps(v, es, ClearBatch(pending, batch[..|batch| - 1]), batch[|batch| - 1]);
    }
  }

  /** Every applied entry may be taken off the overlay. */
  lemma AppliedBelow(p: Pipe, e: Entry)
    requires Inv(p) && e in p.applied
    ensures Clearable(Unapplied(p), e)
  {
    var i :| 0 <= i < |p.applied| && p.applied[i] == e;
    assert Hist(p)[i] == e;
    if IsData(e) {
      RevisionsGrow(p.applied, Unapplied(p));
      assert [] + p.applied == p.applied;
      RevisionsBelow([], p.applied, i);
      forall j | 0 <= j < |Unapplied(p)| && IsData(Unapplied(p)[j]) ensures e.revision < Unapplied(p)[j].revision {
        RevisionsBelow(p.applied, Unapplied(p), j);
      }
    }
  }

  // ---------------------------------------------------------------- every step

  lemma TakeKeeps(p: Pipe, n: nat)
    requires Inv(p)
    ensures Inv(Next(p, Take(n))) && Hist(Next(p, Take(n))) == Hist(p)
  {
    TakeSame(p, n);
  }

  lemma TakeSame(p: Pipe, n: nat)
    ensures var p' := Next(p, Take(n));
            && Unapplied(p') == Unapplied(p) && Hist(p') == Hist(p) && p'.pending == p.pending && p'.nextRev == p.nextRev
            && p'.applied == p.applied && (p'.stage.Applied? ==> p' == p)
  {
    if p.stage.Idle? && 0 < n <= |p.queue| {
      assert p.queue[..n] + p.queue[n..] == p.queue;
    }
  }

  lemma CoveredSuffix(a: seq<Entry>, b: seq<Entry>, pending: Pendings)
    requires Covered(a + b, pending)
    ensures Covered(b, pending)
  {
    assert forall i :: 0 <= i < |b| ==> (a + b)[|a| + i] == b[i];
    forall i, key | 0 <= i < |b| && Writes(b[i], key) ensures key in pending && b[i].revision <= pending[key].rev {
      assert Writes((a + b)[|a| + i], key);
    }
  }

  lemma ContainsSuffix(a: seq<Entry>, b: seq<Entry>)
    ensures Contains(a + b, b)
  {
    assert forall i :: 0 <= i < |b| ==> (a + b)[|a| + i] == b[i];
  }

  lemma ApplyHist(p: Pipe)
    requires p.stage.Taken?
    ensures Hist(Next(p, Apply)) == Hist(p)
  {
  }

  lemma ApplyKeeps(p: Pipe)
    requires Inv(p)
    ensures Inv(Next(p, Apply)) && Hist(Next(p, Apply)) == Hist(p)
  {
    if p.stage.Taken? {
      ApplyHist(p);
      CoveredSuffix(p.stage.batch, p.queue, p.pending);
      ContainsSuffix(p.applied, p.stage.batch);
      assert [] + p.queue == p.queue;
    }
  }

  /** Only the overlay changes, and it still covers and tells the truth. */
  lemma NewPendings(p: Pipe, pending: Pendings)
    requires Inv(p) && Covered(Unapplied(p), pending) && Truthful(ViewOf(Hist(p)), pending)
    ensures Inv(p.(pending := pending)) && Hist(p.(pending := pending)) == Hist(p)
  {
    assert Unapplied(p.(pending := pending)) == Unapplied(p);
  }

  lemma ClearKeeps(p: Pipe)
    requires Inv(p)
    ensures Inv(Next(p, Clear)) && Hist(Next(p, Clear)) == Hist(p)
  {
    if p.stage.Applied? {
      var b := p.stage.batch;
      forall i | 0 <= i < |b| ensures Clearable(Unapplied(p), b[i]) {
        AppliedBelow(p, b[i]);
      }
      ClearBatchKeeps(ViewOf(Hist(p)), Unapplied(p), p.pending, b);
      NewPendings(p, ClearBatch(p.pending, b));
      assert Unapplied(Next(p, Clear)) == Unapplied(p);
    }
  }

  lemma SettleKeeps(p: Pipe, i: nat)
    requires Inv(p)
    ensures Inv(Next(p, Settle(i))) && Hist(Next(p, Settle(i))) == Hist(p)
  {
    if i < |p.applied| && p.applied[i].op != OpTxn {
      AppliedBelow(p, p.applied[i]);
      ClearEntryKeeps(ViewOf(Hist(p)), Unapplied(p), p.pending, p.applied[i]);
      NewPendings(p, ClearEntry(p.pending, p.applied[i]));
    }
  }

  lemma StepKeeps(p: Pipe, step: Step)
    requires Inv(p) && (step.Submit? ==> !Leaks(NodeDecision(p, step.req)))
    ensures Inv(Next(p, step))
    ensures !step.Submit? ==> Hist(Next(p, step)) == Hist(p)
  {
    match step
    case Submit(req) => SubmitKeeps(p, req);
    case Take(n) => TakeKeeps(p, n);
    case Apply => ApplyKeeps(p);
    case Clear => ClearKeeps(p);
    case Settle(i) => SettleKeeps(p, i);
  }

  // --------------------------------------------------------------- every run

  lemma SameDecision(p: Pipe, req: Request)
    requires Inv(p)
    ensures NodeDecision(p, req) == Decided(p.term, LogOf(p), req)
  {
    OverlayIsHistory(p);
    DecideSame(p, req);
  }

  lemma DecideSame(p: Pipe, req: Request)
    requires Overlay(ViewOf(p.applied), p.pending) == ViewOf(Hist(p))
    ensures NodeDecision(p, req) == Decided(p.term, LogOf(p), req)
  {
    NodeDecides(p, ViewOf(Hist(p)), req);
    LogDecides(p, req);
  }

  lemma LogDecides(p: Pipe, req: Request)
    ensures Decided(p.term, LogOf(p), req) == Decide(p.term, ViewOf(Hist(p)), p.nextRev + 1, p.nextSeq + 1, req)
  {
    DecidedLog(p.term, LogOf(p), Hist(p), p.nextRev, p.nextSeq, req);
  }

  lemma SubmitAppends(p: Pipe, req: Request)
    requires Inv(p) && !Leaks(NodeDecision(p, req))
    ensures LogOf(Submitted(p, req)) == Append(LogOf(p), NodeDecision(p, req).entry)
  {
    SubmitKeeps(p, req);
  }

  /** One step, seen as a step of the one-at-a-time machine or as none. */
  lemma StepIsSerial(p: Pipe, step: Step)
    requires Inv(p) && (step.Submit? ==> !Leaks(NodeDecision(p, step.req)))
    ensures Inv(Next(p, step)) && Next(p, step).term == p.term
    ensures !step.Submit? ==> LogOf(Next(p, step)) == LogOf(p)
    ensures step.Submit? ==> LogOf(Next(p, step)) == Append(LogOf(p), Decided(p.term, LogOf(p), step.req).entry)
    ensures step.Submit? ==> Reply(p, step.req) == Decided(p.term, LogOf(p), step.req).outcome
  {
    StepKeeps(p, step);
    if step.Submit? {
      SameDecision(p, step.req);
      SubmitAppends(p, step.req);
    }
  }

  lemma ExecuteMore(term: nat, log: Serial.Log, reqs: seq<Request>, req: Request)
    ensures Execute(term, log, reqs + [req]) ==
            Append(Execute(term, log, reqs), Decided(term, Execute(term, log, reqs), req).entry)
    ensures Outcomes(term, log, reqs + [req]) ==
            Outcomes(term, log, reqs) + [Decided(term, Execute(term, log, reqs), req).outcome]
  {
    assert (reqs + [req])[..|reqs + [req]| - 1] == reqs;
  }

  lemma OneMore(log: Serial.Log, reqs: seq<Request>, p: Pipe, step: Step)
    requires Inv(p) && (step.Submit? ==> !Leaks(NodeDecision(p, step.req)))
    requires LogOf(p) == Execute(p.term, log, reqs)
    ensures LogOf(Next(p, step)) == Execute(p.term, log, reqs + Asked(step))
    ensures Outcomes(p.term, log, reqs) + Answered(p, step) == Outcomes(p.term, log, reqs + Asked(step))
  {
    StepIsSerial(p, step);
    if step.Submit? {
      ExecuteMore(p.term, log, reqs, step.req);
    } else {
      assert reqs + [] == reqs;
    }
  }

  /** However committing, applying and clearing interleave with the requests,
      the log, the counters and every reply are those of executing the requests
      one at a time in the order they were submitted. */
  lemma {:induction false} PipelineIsSerial(p: Pipe, steps: seq<Step>)
    requires Inv(p) && NoLeaks(p, steps)
    ensures Inv(After(p, steps)) && After(p, steps).term == p.term
    ensures LogOf(After(p, steps)) == Execute(p.term, LogOf(p), Requests(steps))
    ensures Replies(p, steps) == Outcomes(p.term, LogOf(p), Requests(steps))
  {
    if steps != [] {
      var init, s := steps[..|steps| - 1], steps[|steps| - 1];
      PipelineIsSerial(p, init);
      StepIsSerial(After(p, init), s);
      OneMore(LogOf(p), Requests(init), After(p, init), s);
    }
  }

  // ------------------------------------------------------- the empty-key leak

  /** A plain delete of the empty key, live at the revision it asks for. */
  ghost predicate DeletesEmptyKey(v: View, req: Request) {
    && [] in v
    && (req == Delete([]) || (req.DeleteIfRevision? && req.key == [] && req.revision in {0, v[[]].revision}))
  }

  /** After a request, reading through the overlay is still reading the history
      if and only if the request was not a plain delete of a live empty key. */
  lemma TruthfulExactlyWithoutLeak(p: Pipe, req: Request)
    requires Inv(p)
    ensures var p' := Submitted(p, req);
            Overlay(ViewOf(p'.applied), p'.pending) == ViewOf(Hist(p')) <==> !DeletesEmptyKey(ViewOf(Hist(p)), req)
  {
    OverlayIsHistory(p);
    var d := NodeDecision(p, req);
    LeakIs(p, req);
    if Leaks(d) {
      var p', o := Submitted(p, req), SubOps(d.entry.value)[0];
      assert SubOps(d.entry.value) == [o];
      PendOpsAt(p.pending, p.nextRev + 1, [o], []);
      assert [] !in Overlay(ViewOf(p'.applied), p'.pending);
    } else {
      SubmitKeeps(p, req);
      OverlayIsHistory(Submitted(p, req));
    }
  }

  /** Such a delete uses up a revision and a sequence number, logs nothing and answers
      as if the key had not been there. */
  lemma LeakedDelete(p: Pipe, req: Request)
    requires Inv(p) && DeletesEmptyKey(ViewOf(Hist(p)), req)
    ensures var p' := Submitted(p, req);
            && Hist(p') == Hist(p) && p'.nextRev == p.nextRev + 1 && p'.nextSeq == p.nextSeq + 1
            && Reply(p, req) == if req.Delete? then NotFound else Unchanged(None, false)
  {
    LeakIs(p, req);
  }

  lemma PutMakesLive(v: View, term: nat, rev: int, id: int, key: Key, value: Value, lease: int)
    ensures key in ApplyEntry(v, Decide(term, v, rev, id, Put(key, value, lease)).entry.value)
  {
    var o := PutOp(Lookup(v, key), rev, key, value, lease);
    assert SubOps(EntryOf(term, rev, id, o)) == [o];
    ApplySingle(v, rev, o);
  }

  /** From every state, putting the empty key and then deleting it leaves an overlay
      that does not tell the truth. */
  lemma LeakRun(p: Pipe, value: Value, lease: int)
    requires Inv(p)
    ensures var p' := Submitted(Submitted(p, Put([], value, lease)), Delete([]));
            Overlay(ViewOf(p'.applied), p'.pending) != ViewOf(Hist(p'))
  {
    var req := Put([], value, lease);
    LeakIs(p, req);
    SubmitKeeps(p, req);
    SameDecision(p, req);
    LogDecides(p, req);
    PutMakesLive(ViewOf(Hist(p)), p.term, p.nextRev + 1, p.nextSeq + 1, [], value, lease);
    Extend(Hist(p), NodeDecision(p, req).entry.value);
    TruthfulExactlyWithoutLeak(Submitted(p, req), Delete([]));
  }

  lemma LeakIs(p: Pipe, req: Request)
    requires Inv(p)
    ensures Leaks(NodeDecision(p, req)) <==> DeletesEmptyKey(ViewOf(Hist(p)), req)
  {
    SameDecision(p, req);
    LogDecides(p, req);
    LeakOf(p.term, ViewOf(Hist(p)), p.nextRev + 1, p.nextSeq + 1, req);
  }

  lemma LeakOf(term: nat, v: View, rev: int, id: int, req: Request)
    ensures Leaks(Decide(term, v, rev, id, req)) <==> DeletesEmptyKey(v, req)
  {
  }

  // --------------------------------------------------------- what a store holds

  /** The store always holds a prefix of the one-at-a-time log. */
  lemma StoreHoldsPrefix(p: Pipe, steps: seq<Step>)
    requires Inv(p) && NoLeaks(p, steps)
    ensures After(p, steps).applied <= Execute(p.term, LogOf(p), Requests(steps)).entries
  {
    PipelineIsSerial(p, steps);
  }

  /** Once everything is applied the store holds exactly that log, whatever the
      batches were. */
  lemma DrainedStoreIsSerial(p: Pipe, steps: seq<Step>)
    requires Inv(p) && NoLeaks(p, steps) && Unapplied(After(p, steps)) == []
    ensures After(p, steps).applied == Execute(p.term, LogOf(p), Requests(steps)).entries
  {
    PipelineIsSerial(p, steps);
    assert Hist(After(p, steps)) == After(p, steps).applied + [];
  }
}

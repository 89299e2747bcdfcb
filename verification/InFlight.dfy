/** The overlay holds only what is in flight: it empties as the pipeline drains. */
module InFlight {
  import opened Entries
  import opened Mvcc
  import opened Serial
  import opened Pipeline
  import opened AbortedBatches

  /** Entries that were assigned and not yet taken off the overlay. */
  function Flying(p: Pipe): (es: seq<Entry>) {
    (if p.stage.Idle? then [] else p.stage.batch) + p.queue
  }

  ghost predicate WrittenIn(es: seq<Entry>, key: Key, rev: int) {
    exists i :: 0 <= i < |es| && es[i].revision == rev && Writes(es[i], key)
  }

  ghost predicate OnlyFlying(pending: Pendings, es: seq<Entry>) {
    forall key :: key in pending && key != [] ==> WrittenIn(es, key, pending[key].rev)
  }

  lemma FlyingMore(pending: Pendings, es: seq<Entry>, e: Entry)
    requires OnlyFlying(pending, es)
    requires forall i, j :: 0 <= i < j < |SubOps(e)| ==> SubOps(e)[i].key != SubOps(e)[j].key
    ensures OnlyFlying(PendOps(pending, e.revision, SubOps(e)), es + [e])
  {
    var pending', es' := PendOps(pending, e.revision, SubOps(e)), es + [e];
    forall key | key in pending' && key != [] ensures WrittenIn(es', key, pending'[key].rev) {
      PendOpsAt(pending, e.revision, SubOps(e), key);
      if i :| 0 <= i < |SubOps(e)| && SubOps(e)[i].key == key {
        assert es'[|es|] == e && Writes(e, key);
      } else {
        var i :| 0 <= i < |es| && es[i].revision == pending[key].rev && Writes(es[i], key);
        assert es'[i] == es[i];
      }
    }
  }

  lemma WriterIsCleared(e: Entry, key: Key, rev: int)
    requires e.revision == rev && Writes(e, key) && key != []
    ensures ClearsOne(e, key, rev)
  {
  }

  /** Taking a batch off the overlay leaves what is queued behind it. */
  lemma BatchGone(pending: Pendings, batch: seq<Entry>, queue: seq<Entry>)
    requires OnlyFlying(pending, batch + queue)
    ensures OnlyFlying(ClearBatch(pending, batch), queue)
  {
    var pending' := ClearBatch(pending, batch);
    forall key | key in pending' && key != [] ensures WrittenIn(queue, key, pending'[key].rev) {
      ClearBatchAt(pending, batch, key);
      ClearBatchPart(pending, batch);
      var rev := pending[key].rev;
      var i :| 0 <= i < |batch + queue| && (batch + queue)[i].revision == rev && Writes((batch + queue)[i], key);
      if i < |batch| {
        WriterIsCleared(batch[i], key, rev);
        assert false;
      }
      assert queue[i - |batch|] == (batch + queue)[i];
    }
  }

  lemma FewerFlying(pending: Pendings, pending': Pendings, es: seq<Entry>)
    requires OnlyFlying(pending, es) && Part(pending', pending)
    ensures OnlyFlying(pending', es)
  {
  }

  lemma SubmitFlies(p: Pipe, req: Request)
    requires OnlyFlying(p.pending, Flying(p)) && p.nextRev >= 0
    ensures OnlyFlying(Submitted(p, req).pending, Flying(Submitted(p, req)))
  {
    NodeValid(p, req);
    SubmittedIs(p, req, NodeDecision(p, req));
    EntryFlies(p, Submitted(p, req), NodeDecision(p, req));
  }

  lemma NodeValid(p: Pipe, req: Request)
    requires p.nextRev >= 0
    ensures NodeDecision(p, req).entry.Some? ==> ValidEntry(NodeDecision(p, req).entry.value)
  {
    var v := Overlay(ViewOf(p.applied), p.pending);
    NodeDecides(p, v, req);
    ValidAs(p.term, v, p.nextRev + 1, p.nextSeq + 1, req, NodeDecision(p, req));
  }

  lemma ValidAs(term: nat, v: View, rev: int, id: int, req: Request, d: Decision)
    requires rev > 0 && d == Decide(term, v, rev, id, req)
    ensures d.entry.Some? ==> ValidEntry(d.entry.value)
  {
    DecidedEntryValid(term, v, rev, id, req);
  }

  lemma SubmittedIs(p: Pipe, req: Request, d: Decision)
    requires d == NodeDecision(p, req)
    ensures d.entry.None? ==> Submitted(p, req) == p
    ensures d.entry.Some? ==> var p', e := Submitted(p, req), d.entry.value;
              && p'.pending == PendOps(p.pending, e.revision, SubOps(e)) && p'.stage == p.stage
              && p'.queue == if Leaks(d) then p.queue else p.queue + [e]
  {
  }

  lemma EntryFlies(p: Pipe, p': Pipe, d: Decision)
    requires OnlyFlying(p.pending, Flying(p)) && (d.entry.Some? ==> ValidEntry(d.entry.value))
    requires d.entry.None? ==> p' == p
    requires d.entry.Some? ==> var e := d.entry.value;
               && p'.pending == PendOps(p.pending, e.revision, SubOps(e)) && p'.stage == p.stage
               && p'.queue == if Leaks(d) then p.queue else p.queue + [e]
    ensures OnlyFlying(p'.pending, Flying(p'))
  {
    if d.entry.Some? {
      var e := d.entry.value;
      if Leaks(d) {
        LeakFlies(p.pending, Flying(p), e);
      } else {
        FlyingMore(p.pending, Flying(p), e);
        assert Flying(p') == Flying(p) + [e];
      }
    }
  }

  lemma LeakFlies(pending: Pendings, es: seq<Entry>, e: Entry)
    requires OnlyFlying(pending, es) && e.op == OpDelete && e.key == []
    ensures OnlyFlying(PendOps(pending, e.revision, SubOps(e)), es)
  {
    forall key | key != [] ensures key in PendOps(pending, e.revision, SubOps(e)) ==>
        key in pending && PendOps(pending, e.revision, SubOps(e))[key] == pending[key]
    {
      PendOpsAt(pending, e.revision, SubOps(e), key);
    }
  }

  lemma StepFlies(p: Pipe, step: Step)
    requires OnlyFlying(p.pending, Flying(p)) && p.nextRev >= 0
    ensures OnlyFlying(Next(p, step).pending, Flying(Next(p, step))) && Next(p, step).nextRev >= 0
  {
    match step
    case Submit(req) => SubmitFlies(p, req);
    case Take(n) =>
      if p.stage.Idle? && 0 < n <= |p.queue| { assert Flying(Next(p, step)) == Flying(p); }
    case Clear =>
      if p.stage.Applied? {
        BatchGone(p.pending, p.stage.batch, p.queue);
        assert Flying(Next(p, step)) == p.queue;
      }
    case Settle(i) =>
      if i < |p.applied| {
        ClearEntryPart(p.pending, p.applied[i]);
        FewerFlying(p.pending, Next(p, step).pending, Flying(p));
      }
    case Apply =>
  }

  lemma AbortFlies(p: Pipe)
    requires OnlyFlying(p.pending, Flying(p)) && p.stage.Taken?
    ensures OnlyFlying(Aborted(p).pending, Flying(Aborted(p)))
  {
    BatchGone(p.pending, p.stage.batch, p.queue);
    assert Flying(Aborted(p)) == p.queue;
  }

  lemma {:induction false} RunFlies(p: Pipe, turns: seq<Turn>)
    requires OnlyFlying(p.pending, Flying(p)) && p.nextRev >= 0
    ensures var p' := AfterTurns(p, turns); OnlyFlying(p'.pending, Flying(p')) && p'.nextRev >= 0
  {
    if turns != [] {
      var q, turn := AfterTurns(p, turns[..|turns| - 1]), turns[|turns| - 1];
      RunFlies(p, turns[..|turns| - 1]);
      if turn.Abort? {
        if q.stage.Taken? { AbortFlies(q); }
      } else {
        StepFlies(q, turn.step);
      }
    }
  }

  /** In every run of a new leader, aborted batches included: once nothing is queued or
      under way, the overlay is empty but for the empty key. */
  lemma OverlayDrains(p: Pipe, turns: seq<Turn>)
    requires p.pending == map[] && p.nextRev >= 0
    requires AfterTurns(p, turns).stage.Idle? && AfterTurns(p, turns).queue == []
    ensures AfterTurns(p, turns).pending.Keys <= {[]}
  {
    RunFlies(p, turns);
    assert Flying(AfterTurns(p, turns)) == [];
  }

  /** A caller that returns leaves no record of its own write behind. */
  lemma SettledIsGone(p: Pipe, i: nat)
    requires i < |p.applied| && p.applied[i].op != OpTxn && p.applied[i].key != []
    ensures var p', e := Next(p, Settle(i)), p.applied[i];
            && (e.key in p'.pending ==> p'.pending[e.key].rev != e.revision)
            && (forall key :: key in p.pending && (key != e.key || p.pending[key].rev != e.revision) ==>
                  key in p'.pending && p'.pending[key] == p.pending[key])
  {
  }
}

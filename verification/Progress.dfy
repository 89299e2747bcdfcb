/** What followers reach: acknowledging what they take in, being counted for it, and
    catching up from the archive. */
module Progress {
  import opened Entries
  import opened Replication
  import opened Cluster
  import ClusterProofs
  import opened CatchUp
  import Quorum

  /** The last thing the reader of stream id acknowledged is all it has taken in since
      it asked for from0, and that is on its way or on record. */
  ghost predicate Trail(w: World, n: nat, id: nat, from0: int) {
    Reads(w, n, id) && w.links[id].from > from0 ==> Trailed(w.links[id], Fed(w, n, id), n, w.server.acks)
  }

  ghost predicate Trailed(l: Link, fed: bool, n: nat, acks: map<nat, int>) {
    || (l.ackNet != [] && l.ackNet[|l.ackNet| - 1] == l.from - 1)
    || (fed ==> (if n in acks then acks[n] else 0) >= l.from - 1)
  }

  /** Node n has opened the stream, and no other node reads it. */
  ghost predicate Opened(w: World, n: nat, id: nat) {
    id in w.links && w.links[id].node == n && forall m :: m in w.nodes && w.nodes[m].link == Some(id) ==> m == n
  }

  /** Nothing that concerns the stream changes, except that it may be cut off. */
  lemma TrailSame(w: World, w': World, n: nat, id: nat, from0: int)
    requires Trail(w, n, id, from0) && (Reads(w', n, id) ==> Reads(w, n, id)) && (Fed(w', n, id) ==> Fed(w, n, id))
    requires Reads(w', n, id) ==> w'.links[id].from == w.links[id].from && w'.links[id].ackNet == w.links[id].ackNet
    requires Fed(w', n, id) ==>
               (if n in w'.server.acks then w'.server.acks[n] else 0) >= if n in w.server.acks then w.server.acks[n] else 0
    ensures Trail(w', n, id, from0)
  {
  }

  lemma FanOutKeeps(s: Server, m: Msg, n: nat)
    ensures FanOut(s, m).acks == s.acks && FanOut(s, m).chans.Keys == s.chans.Keys
    ensures n in FanOut(s, m).followers ==> n in s.followers && FanOut(s, m).followers[n] == s.followers[n]
  {
  }

  lemma TookTrails(f: Follower, l: Link, start: int, batch: seq<Entry>, left: seq<Entry>, walOk: bool, ackOk: bool, applyOk: bool,
                   f': Follower, l': Link)
    requires batch != [] && batch[|batch| - 1].Sequence() >= l.from
    requires (f', l') == TookBatch(f, l, start, batch, left, walOk, ackOk, applyOk)
    ensures f'.link.None? || (f'.link == f.link && l'.ackNet == l.ackNet + [l'.from - 1])
  {
  }

  lemma AcceptedTop(staged: seq<Entry>, from: int, start: int, rev: int)
    requires OnCommit(staged, from, start, rev).Batch?
    ensures var b := OnCommit(staged, from, start, rev).batch; b != [] && b[|b| - 1].Sequence() == rev >= from
  {
    var first := CommitStart(start, rev);
    var rest := staged[CountBelow(staged, first)..];
    var cut := CountBelow(rest, rev + 1);
    assert rest[..cut][cut - 1] == rest[cut - 1];
  }

  /** Reading a message: the node stops, nothing is acknowledged, or all it has taken in. */
  lemma ReactTrails(f: Follower, l: Link, walOk: bool, ackOk: bool, applyOk: bool, f': Follower, l': Link)
    requires l.net != [] && (f', l') == Reacted(f, l, walOk, ackOk, applyOk)
    ensures || f'.link.None?
            || (f'.link == f.link && l'.from == l.from && l'.ackNet == l.ackNet)
            || (f'.link == f.link && l'.ackNet == l.ackNet + [l'.from - 1])
    ensures l'.node == l.node
  {
    var m := l.net[0];
    if m.CommitMsg? {
      var v := OnCommit(l.staged, l.from, m.start, m.rev);
      if v.Batch? {
        AcceptedTop(l.staged, l.from, m.start, m.rev);
        TookTrails(f, l.(net := l.net[1..]), CommitStart(m.start, m.rev), v.batch, v.rest, walOk, ackOk, applyOk, f', l');
      }
    }
  }

  lemma ReceiveTrails(w: World, m: nat, walOk: bool, ackOk: bool, applyOk: bool, n: nat, id: nat, from0: int)
    requires Trail(w, n, id, from0) && Opened(w, n, id) && Enabled(w, Receive(m, walOk, ackOk, applyOk))
    ensures var w' := Received(w, m, walOk, ackOk, applyOk); Trail(w', n, id, from0) && Opened(w', n, id)
  {
    var w' := Received(w, m, walOk, ackOk, applyOk);
    var i := w.nodes[m].link.value;
    ReactTrails(w.nodes[m], w.links[i], walOk, ackOk, applyOk, w'.nodes[m], w'.links[i]);
    if m != n {
      assert i != id;
      TrailSame(w, w', n, id, from0);
    } else if i != id {
      TrailSame(w, w', n, id, from0);
    }
  }

  lemma AckTrails(w: World, i: nat, n: nat, id: nat, from0: int)
    requires Trail(w, n, id, from0) && Opened(w, n, id) && Enabled(w, TakeAck(i))
    ensures var w' := AckTaken(w, i); Trail(w', n, id, from0) && Opened(w', n, id)
  {
    var w' := AckTaken(w, i);
    if i != id { TrailSame(w, w', n, id, from0); }
  }

  lemma StepTrails(w: World, step: Step, n: nat, id: nat, from0: int)
    requires Trail(w, n, id, from0) && Opened(w, n, id)
    ensures Trail(Moved(w, step), n, id, from0) && Opened(Moved(w, step), n, id)
  {
    var w' := Moved(w, step);
    if Enabled(w, step) {
      match step
      case Receive(m, walOk, ackOk, applyOk) => ReceiveTrails(w, m, walOk, ackOk, applyOk, n, id, from0);
      case TakeAck(i) => AckTrails(w, i, n, id, from0);
      case SendEntry(e) =>
        FanOutKeeps(w.server.(pending := w.server.pending + [e]), EntryMsg(e), n);
        TrailSame(w, w', n, id, from0);
      case Commit =>
        CommitKeeps(w.server, w.batch[0].Sequence(), w.batch[|w.batch| - 1].Sequence(), n);
        TrailSame(w, w', n, id, from0);
      case _ => OtherTrails(w, step, n, id, from0);
    }
  }

  lemma OtherTrails(w: World, step: Step, n: nat, id: nat, from0: int)
    requires Trail(w, n, id, from0) && Opened(w, n, id) && Enabled(w, step)
    requires !step.Receive? && !step.TakeAck? && !step.SendEntry? && !step.Commit?
    ensures Trail(Moved(w, step), n, id, from0) && Opened(Moved(w, step), n, id)
  {
    TrailSame(w, Moved(w, step), n, id, from0);
  }

  lemma CommitKeeps(s: Server, start: int, rev: int, n: nat)
    ensures var s' := BroadcastCommit(s, start, rev);
            && s'.acks == s.acks && s'.chans.Keys == s.chans.Keys
            && (n in s'.followers ==> n in s.followers && s'.followers[n] == s.followers[n])
  {
    var (keep, b) := Sorted(s.pending, s.buf, s.cap, start, rev);
    FanOutKeeps(s.(pending := keep, buf := b), CommitMsg(start, rev), n);
  }

  lemma {:induction false} RunTrails(w: World, n: nat, id: nat, steps: seq<Step>, from0: int)
    requires Trail(w, n, id, from0) && Opened(w, n, id)
    ensures Trail(After(w, steps), n, id, from0) && Opened(After(w, steps), n, id)
  {
    if steps != [] {
      RunTrails(w, n, id, steps[..|steps| - 1], from0);
      StepTrails(After(w, steps[..|steps| - 1]), steps[|steps| - 1], n, id, from0);
    }
  }

  lemma OpenedAtJoin(w: World, n: nat, id: nat)
    requires ClusterProofs.Inv(w) && Enabled(w, Join(n, id))
    ensures Opened(Joined(w, n, id), n, id) && Trail(Joined(w, n, id), n, id, w.nodes[n].want)
  {
    forall m | m in w.nodes && m != n ensures w.nodes[m].link != Some(id) {
      assert ClusterProofs.NodeOk(w, m);
    }
  }

  /** In every run from the opening of a stream: once its ACKs have arrived, a follower
      that is still registered is on record with everything it has taken in. */
  lemma TakenInIsOnRecord(w: World, n: nat, id: nat, steps: seq<Step>)
    requires ClusterProofs.Inv(w) && Enabled(w, Join(n, id))
    requires var w' := After(Joined(w, n, id), steps);
             Reads(w', n, id) && Fed(w', n, id) && w'.links[id].ackNet == [] && w'.links[id].from > w.nodes[n].want
    ensures var w' := After(Joined(w, n, id), steps);
            Quorum.Acked(Quorum.Seen(w'), n, w'.links[id].from - 1)
  {
    OpenedAtJoin(w, n, id);
    RunTrails(Joined(w, n, id), n, id, steps, w.nodes[n].want);
  }

  /** So in a steady run, a follower that has read all of a stream it opened between
      batches counts as having acknowledged every committed sequence. */
  lemma CaughtUpIsCounted(w: World, n: nat, id: nat, steps: seq<Step>)
    requires Steady(w) && OpensInPlace(w, n, id) && w.batch == [] && SteadyRun(Joined(w, n, id), steps)
    requires var w' := After(Joined(w, n, id), steps);
             && Reads(w', n, id) && Fed(w', n, id) && ClusterProofs.Stream(w'.links[id], w'.server.chans[id]) == []
             && w'.links[id].ackNet == [] && CommitEnd(w') >= w.nodes[n].want
    ensures var w' := After(Joined(w, n, id), steps); Quorum.Acked(Quorum.Seen(w'), n, CommitEnd(w'))
  {
    ReadersCatchUp(w, n, id, steps);
    StreamInStep(w, n, id, steps);
    TakenInIsOnRecord(w, n, id, steps);
  }

  /** When the stream a follower is registered with ends, the server forgets the
      follower and its ACK; the end of any other stream changes nothing there. */
  lemma StreamEndForgets(w: World, id: nat)
    requires Enabled(w, EndStream(id))
    ensures var n, s, s' := w.links[id].node, w.server, Moved(w, EndStream(id)).server;
            if Fed(w, n, id) then s'.followers == s.followers - {n} && s'.acks == s.acks - {n} else s' == s
  {
  }

  /** A broadcast reaches every registered follower whose channel has room, at the end of
      its channel; one whose channel is full is forgotten and its channel closed as it
      is; a channel nobody is registered with stays as it is. */
  lemma SlowFollowerIsCut(s: Server, m: Msg, n: nat)
    requires n in s.followers && s.followers[n] in s.chans
    ensures var ch, s' := s.followers[n], FanOut(s, m);
            && ch in s'.chans
            && (|s.chans[ch].queue| < 512 ==>
                  && n in s'.followers && s'.followers[n] == ch
                  && s'.chans[ch] == Chan(s.chans[ch].queue + [m], s.chans[ch].closed))
            && (|s.chans[ch].queue| >= 512 ==> n !in s'.followers && s'.chans[ch] == Chan(s.chans[ch].queue, true))
  {
    assert s.followers[n] in s.followers.Values;
  }

  /** A follower to which nothing fails stops reading only at a marker, with its log as
      it was: one that completes no staged run has it ask for what it takes in next, one
      whose run does not continue its log for the start of that run. */
  lemma StoppedAsksAgain(f: Follower, l: Link, f': Follower, l': Link)
    requires l.net != [] && (f', l') == Reacted(f, l, true, true, true) && f.link.Some? && f'.link.None?
    ensures l.net[0].CommitMsg? && f'.applied == f.applied && f'.durable == f.durable
    ensures var m := l.net[0]; var v := OnCommit(l.staged, l.from, m.start, m.rev);
            && (v.Gap? ==> f'.want == l.from)
            && (v.Batch? ==> !Consecutive(v.batch, Next(f)) && f'.want == v.batch[0].Sequence())
  {
    var m := l.net[0];
    var v := OnCommit(l.staged, l.from, m.start, m.rev);
    if v.Batch? { BatchStarts(l.staged, l.from, m.start, m.rev); }
  }

  lemma BatchStarts(staged: seq<Entry>, from: int, start: int, rev: int)
    requires OnCommit(staged, from, start, rev).Batch?
    ensures OnCommit(staged, from, start, rev).batch[0].Sequence() == CommitStart(start, rev)
  {
    var first := CommitStart(start, rev);
    var rest := staged[CountBelow(staged, first)..];
    assert Consecutive(rest[..CountBelow(rest, rev + 1)], first);
  }

  // ----------------------------------------------------------- from the archive

  lemma {:induction false} RestoredAll(log: map<int, Entry>, from: int, upTo: int)
    requires forall s :: from <= s <= upTo ==> s in log
    ensures |Restored(log, from, upTo)| == if upTo < from then 0 else upTo - from + 1
    ensures forall i :: 0 <= i < |Restored(log, from, upTo)| ==> Restored(log, from, upTo)[i] == log[from + i]
    decreases upTo - from
  {
    if from <= upTo { RestoredAll(log, from, upTo - 1); }
  }

  lemma ReachedBy(f: Follower, es: seq<Entry>, log: map<int, Entry>, upTo: int, f': Follower, s: int)
    requires |es| == if upTo < Next(f) then 0 else upTo - Next(f) + 1
    requires forall i :: 0 <= i < |es| ==> Next(f) + i in log && es[i] == log[Next(f) + i]
    requires f'.base == f.base && f'.applied == f.applied + es && f'.durable == f.durable + set e | e in es
    ensures f.applied <= f'.applied && Next(f') == if upTo < Next(f) then Next(f) else upTo + 1
    ensures Next(f) <= s <= upTo ==> s in log && f'.applied[s - f.base] == log[s] && log[s] in f'.durable
  {
    if Next(f) <= s <= upTo {
      var e := es[s - Next(f)];
      assert e in es && f'.applied[s - f.base] == e;
    }
  }

  lemma ResyncIs(w: World, n: nat, upTo: int, es: seq<Entry>)
    requires Enabled(w, Resync(n, upTo)) && es == Restored(w.log, Next(w.nodes[n]), upTo)
    ensures var f, f' := w.nodes[n], Moved(w, Resync(n, upTo)).nodes[n];
            && f'.base == f.base && f'.applied == f.applied + es && f'.durable == f.durable + (set e | e in es) && f'.want == Next(f')
  {
  }

  /** A resync brings a follower to the sequence it was asked for, with the committed
      entries in between, and has it ask for the next one. */
  lemma ResyncReaches(w: World, n: nat, upTo: int, f': Follower, s: int)
    requires Enabled(w, Resync(n, upTo)) && f' == Moved(w, Resync(n, upTo)).nodes[n]
    ensures var f := w.nodes[n];
            && f.applied <= f'.applied && f'.base == f.base && f'.want == Next(f')
            && Next(f') == (if upTo < Next(f) then Next(f) else upTo + 1)
            && (Next(f) <= s <= upTo ==> f'.applied[s - f.base] == w.log[s] && w.log[s] in f'.durable)
  {
    var f, es := w.nodes[n], Restored(w.log, Next(w.nodes[n]), upTo);
    RestoredAll(w.log, Next(f), upTo);
    ResyncIs(w, n, upTo, es);
    ReachedBy(f, es, w.log, upTo, f', s);
  }
}

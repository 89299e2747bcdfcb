/** When no batch is aborted, a stream opened between two batches never runs into
    a gap and brings its reader to the leader's commit; one opened in the middle
    of a batch is lost at that batch's marker. */
module CatchUp {
  import opened Entries
  import opened Replication
  import opened Cluster
  import opened ClusterProofs

  // -------------------------------------------------------- walking along a stream

  /** Where a reader stands: the next sequence to commit and what is staged. */
  datatype Pos = Pos(from: int, staged: seq<Entry>)

  /** Reading m without a gap. */
  function Advance(p: Option<Pos>, m: Msg): (p': Option<Pos>) {
    if p.None? then None
    else
      var (from, staged) := (p.value.from, p.value.staged);
      match m
      case EntryMsg(e) => if e.Sequence() == from + |staged| then Some(Pos(from, staged + [e])) else None
      case CommitMsg(start, rev) =>
        if staged != [] && start == from && rev == from + |staged| - 1 then Some(Pos(rev + 1, [])) else None
  }

  function Walk(p: Option<Pos>, ms: seq<Msg>): (p': Option<Pos>) {
    if ms == [] then p else Advance(Walk(p, ms[..|ms| - 1]), ms[|ms| - 1])
  }

  lemma WalkMore(p: Option<Pos>, ms: seq<Msg>, m: Msg)
    ensures Walk(p, ms + [m]) == Advance(Walk(p, ms), m)
  {
    assert (ms + [m])[..|ms + [m]| - 1] == ms;
  }

  lemma {:induction false} WalkAppend(p: Option<Pos>, a: seq<Msg>, b: seq<Msg>)
    ensures Walk(p, a + b) == Walk(Walk(p, a), b)
  {
    if b == [] {
      assert a + b == a;
    } else {
      WalkAppend(p, a, b[..|b| - 1]);
      assert a + b == (a + b[..|b| - 1]) + [b[|b| - 1]];
      WalkMore(p, a + b[..|b| - 1], b[|b| - 1]);
    }
  }

  lemma WalkFirst(p: Option<Pos>, m: Msg, rest: seq<Msg>)
    ensures Walk(p, [m] + rest) == Walk(Advance(p, m), rest)
  {
    WalkAppend(p, [m], rest);
    assert [m][..0] == [];
    assert Walk(p, [m]) == Advance(Walk(p, []), m);
  }

  lemma {:induction false} WalkNone(ms: seq<Msg>)
    ensures Walk(None, ms) == None
  {
    if ms != [] { WalkNone(ms[..|ms| - 1]); }
  }

  function EntryMsgs(es: seq<Entry>): (ms: seq<Msg>) {
    seq(|es|, i requires 0 <= i < |es| => EntryMsg(es[i]))
  }

  lemma {:induction false} WalkEntries(from: int, es: seq<Entry>)
    requires Consecutive(es, from)
    ensures Walk(Some(Pos(from, [])), EntryMsgs(es)) == Some(Pos(from, es))
  {
    if es != [] {
      var init := es[..|es| - 1];
      WalkEntries(from, init);
      assert EntryMsgs(es) == EntryMsgs(init) + [EntryMsg(es[|es| - 1])];
      WalkMore(Some(Pos(from, [])), EntryMsgs(init), EntryMsg(es[|es| - 1]));
      assert init + [es[|es| - 1]] == es;
    }
  }

  lemma WalkSnapshot(from: int, es: seq<Entry>)
    requires Consecutive(es, from)
    ensures Walk(Some(Pos(from, [])), SnapshotMsgs(es)) == Some(Pos(from + |es|, []))
  {
    if es != [] {
      WalkEntries(from, es);
      assert SnapshotMsgs(es) == EntryMsgs(es) + [CommitMsg(from, from + |es| - 1)];
      WalkMore(Some(Pos(from, [])), EntryMsgs(es), CommitMsg(from, from + |es| - 1));
    }
  }

  // --------------------------------------------------------------- the invariant

  /** The last committed sequence. */
  function CommitEnd(w: World): (s: int) {
    w.last - |w.batch|
  }

  /** No sequence is skipped, and the buffer is the end of the committed log. */
  ghost predicate CalmLeader(w: World) {
    && w.server.startRev >= 1 && w.server.cap >= 1
    && w.server.pending == w.batch && Consecutive(w.batch, CommitEnd(w) + 1)
    && Consecutive(w.server.buf, CommitEnd(w) + 1 - |w.server.buf|)
    && (w.server.buf == [] ==> CommitEnd(w) == w.server.startRev - 1)
    && CommitEnd(w) >= w.server.startRev - 1
  }

  /** Reading the stream meets no gap and, while it is fed, leads to the batch
      under way; the send loop never has to skip. */
  ghost predicate Tidy(l: Link, ch: Chan, fed: bool, end: Pos) {
    var p := Some(Pos(l.from, l.staged));
    && l.from >= 1 && Consecutive(l.staged, l.from)
    && Walk(p, Stream(l, ch)).Some?
    && (fed ==> Walk(p, Stream(l, ch)) == Some(end))
    && SentUpTo(Walk(p, l.net + l.snap), l.maxSent)
  }

  ghost predicate Reads(w: World, n: nat, id: nat) {
    n in w.nodes && w.nodes[n].link == Some(id) && id in w.links && id in w.server.chans && w.links[id].node == n
  }

  ghost predicate Fed(w: World, n: nat, id: nat) {
    n in w.server.followers && w.server.followers[n] == id
  }

  ghost predicate InStep(w: World, n: nat, id: nat) {
    Reads(w, n, id) ==>
      && Next(w.nodes[n]) == w.links[id].from
      && Tidy(w.links[id], w.server.chans[id], Fed(w, n, id), Pos(CommitEnd(w) + 1, w.batch))
  }

  ghost predicate Steady(w: World) {
    Inv(w) && CalmLeader(w)
  }

  /** The steps of a steady run: no abort and no skipped sequence. */
  ghost predicate SteadyStep(w: World, step: Step) {
    match step
    case SendEntry(e) => e.Sequence() == w.last + 1
    case Abort => false
    case _ => true
  }

  /** Node n may open the stream id, asks for its own next sequence and is not ahead
      of the leader. */
  ghost predicate OpensInPlace(w: World, n: nat, id: nat) {
    Enabled(w, Join(n, id)) && 1 <= w.nodes[n].want == Next(w.nodes[n]) <= CommitEnd(w) + 1
  }

  // ------------------------------------------------------------------ one stream

  lemma TidyOffer(l: Link, ch: Chan, m: Msg, end: Pos, end': Pos)
    requires Tidy(l, ch, true, end) && Advance(Some(end), m) == Some(end') && !Full(ch)
    ensures Tidy(l, Offer(ch, m), true, end')
  {
    assert Stream(l, Offer(ch, m)) == Stream(l, ch) + [m];
    WalkMore(Some(Pos(l.from, l.staged)), Stream(l, ch), m);
  }

  /** A walk without a gap has none at any point. */
  lemma WalkThrough(p: Option<Pos>, a: seq<Msg>, m: Msg, rest: seq<Msg>)
    requires Walk(p, a + [m] + rest).Some?
    ensures Advance(Walk(p, a), m).Some? && Walk(p, a + [m]) == Advance(Walk(p, a), m)
  {
    WalkAppend(p, a + [m], rest);
    WalkMore(p, a, m);
    if Walk(p, a + [m]).None? { WalkNone(rest); }
  }

  /** The reader at q has been sent everything up to maxSent. */
  predicate SentUpTo(q: Option<Pos>, maxSent: int) {
    q.Some? && q.value.from + |q.value.staged| - 1 == maxSent
  }

  lemma AdvanceSent(q: Option<Pos>, m: Msg, maxSent: int)
    requires SentUpTo(q, maxSent) && Advance(q, m).Some?
    ensures m.EntryMsg? ==> m.e.Sequence() == maxSent + 1
    ensures SentUpTo(Advance(q, m), if m.EntryMsg? then m.e.Sequence() else maxSent)
  {
  }

  lemma TidySentLive(l: Link, ch: Chan, fed: bool, end: Pos)
    requires Tidy(l, ch, fed, end) && l.snap == [] && ch.queue != []
    ensures Tidy(SentOne(l, ch).0, SentOne(l, ch).1, fed, end)
  {
    var p, m, ch' := Some(Pos(l.from, l.staged)), ch.queue[0], ch.(queue := ch.queue[1..]);
    assert l.net + l.snap == l.net;
    assert Stream(l, ch) == l.net + [m] + ch'.queue;
    WalkThrough(p, l.net, m, ch'.queue);
    AdvanceSent(Walk(p, l.net), m, l.maxSent);
    var l' := l.(net := l.net + [m], maxSent := if m.EntryMsg? then m.e.Sequence() else l.maxSent);
    assert SentOne(l, ch) == (l', ch');
    assert l'.net + l'.snap == l.net + [m];
    assert Stream(l', ch') == Stream(l, ch);
  }

  lemma TidySent(l: Link, ch: Chan, fed: bool, end: Pos)
    requires Tidy(l, ch, fed, end)
    ensures Tidy(SentOne(l, ch).0, SentOne(l, ch).1, fed, end) && SentOne(l, ch).0.from == l.from
  {
    if l.snap != [] {
      var (l', ch') := SentOne(l, ch);
      assert Stream(l', ch') == Stream(l, ch) && l'.net + l'.snap == l.net + l.snap;
    } else if ch.queue != [] {
      TidySentLive(l, ch, fed, end);
    }
  }

  lemma OnCommitWhole(staged: seq<Entry>, from: int)
    requires staged != [] && Consecutive(staged, from) && from >= 1
    ensures OnCommit(staged, from, from, from + |staged| - 1) == Batch(staged, [])
  {
    var rev := from + |staged| - 1;
    CountBelowIs(staged, from, 0);
    assert staged[0..] == staged;
    CountBelowIs(staged, rev + 1, |staged|);
    assert staged[..|staged|] == staged && staged[|staged|..] == [];
  }

  /** A link whose reader has moved past the first message of l. */
  lemma TidyPast(l: Link, ch: Chan, fed: bool, end: Pos, l': Link)
    requires Tidy(l, ch, fed, end) && l.net != []
    requires l'.net == l.net[1..] && l'.snap == l.snap && l'.maxSent == l.maxSent
    requires Advance(Some(Pos(l.from, l.staged)), l.net[0]) == Some(Pos(l'.from, l'.staged))
    requires l'.from >= 1 && Consecutive(l'.staged, l'.from)
    ensures Tidy(l', ch, fed, end)
  {
    var p, m := Some(Pos(l.from, l.staged)), l.net[0];
    assert Stream(l, ch) == [m] + Stream(l', ch);
    assert l.net + l.snap == [m] + (l'.net + l'.snap);
    WalkFirst(p, m, Stream(l', ch));
    WalkFirst(p, m, l'.net + l'.snap);
  }

  lemma FirstIsNext(l: Link, ch: Chan, fed: bool, end: Pos)
    requires Tidy(l, ch, fed, end) && l.net != []
    ensures Advance(Some(Pos(l.from, l.staged)), l.net[0]).Some?
  {
    var p, m, rest := Some(Pos(l.from, l.staged)), l.net[0], Stream(l.(net := l.net[1..]), ch);
    assert Stream(l, ch) == [] + [m] + rest;
    WalkThrough(p, [], m, rest);
  }

  /** Reading one message with nothing failing keeps the stream open and tidy. */
  lemma TidyRead(f: Follower, l: Link, ch: Chan, fed: bool, end: Pos)
    requires Tidy(l, ch, fed, end) && l.net != [] && Next(f) == l.from
    ensures var (f', l') := Reacted(f, l, true, true, true);
            Tidy(l', ch, fed, end) && f'.link == f.link && Next(f') == l'.from
  {
    var (f', l') := Reacted(f, l, true, true, true);
    FirstIsNext(l, ch, fed, end);
    if l.net[0].CommitMsg? { OnCommitWhole(l.staged, l.from); }
    TidyPast(l, ch, fed, end, l');
  }

  lemma TidyUnfed(l: Link, ch: Chan, fed: bool, end: Pos, ch': Chan, end': Pos)
    requires Tidy(l, ch, fed, end) && ch'.queue == ch.queue
    ensures Tidy(l, ch', false, end')
  {
    assert Stream(l, ch') == Stream(l, ch);
  }

  // ------------------------------------------------------------------- fanning out

  /** A reader's channel is offered the message exactly when it is registered. */
  lemma FanOutReaches(w: World, s: Server, m: Msg, n: nat, id: nat)
    requires FollowersOk(w) && s.followers == w.server.followers && s.chans == w.server.chans && Reads(w, n, id)
    ensures var s' := FanOut(s, m);
            && id in s'.chans && s'.chans[id] == (if Fed(w, n, id) then Offer(s.chans[id], m) else s.chans[id])
            && (n in s'.followers && s'.followers[n] == id <==> Fed(w, n, id) && !Full(s.chans[id]))
  {
    assert id in s.followers.Values ==> exists x :: x in s.followers && s.followers[x] == id;
    if Fed(w, n, id) { assert s.followers[n] in s.followers.Values; }
  }

  /** w after fanning m out, with the reader's end moved along. */
  lemma FanOutInStep(w: World, w': World, s: Server, m: Msg, n: nat, id: nat)
    requires FollowersOk(w) && s.followers == w.server.followers && s.chans == w.server.chans
    requires w'.links == w.links && w'.nodes == w.nodes && w'.server == FanOut(s, m)
    requires Reads(w', n, id) && (Reads(w, n, id) ==> InStep(w, n, id)) && w.links.Keys == w.server.chans.Keys
    requires Advance(Some(Pos(CommitEnd(w) + 1, w.batch)), m) == Some(Pos(CommitEnd(w') + 1, w'.batch))
    ensures InStep(w', n, id)
  {
    FanOutReaches(w, s, m, n, id);
    var l, ch := w.links[id], w.server.chans[id];
    var end, end' := Pos(CommitEnd(w) + 1, w.batch), Pos(CommitEnd(w') + 1, w'.batch);
    if Fed(w, n, id) && !Full(ch) {
      TidyOffer(l, ch, m, end, end');
    } else {
      TidyUnfed(l, ch, Fed(w, n, id), end, w'.server.chans[id], end');
    }
  }

  lemma SendCalmLeader(w: World, e: Entry)
    requires CalmLeader(w) && e.Sequence() == w.last + 1
    ensures Enabled(w, SendEntry(e)) && CalmLeader(Moved(w, SendEntry(e)))
    ensures CommitEnd(Moved(w, SendEntry(e))) == CommitEnd(w)
  {
  }

  /** Committing a consecutive batch moves all of it to the end of the buffer. */
  lemma {:induction false} SortedAll(pending: seq<Entry>, buf: seq<Entry>, cap: nat, start: int, rev: int)
    requires cap >= 1 && Consecutive(pending, start) && start + |pending| - 1 <= rev && Consecutive(buf, start - |buf|)
    ensures var (keep, b) := Sorted(pending, buf, cap, start, rev);
            keep == [] && Consecutive(b, start + |pending| - |b|) && (b == [] ==> buf == [] && pending == [])
  {
    if pending != [] {
      SortedAll(pending[..|pending| - 1], buf, cap, start, rev);
    }
  }

  lemma CommitCalmLeader(w: World)
    requires CalmLeader(w) && w.batch != []
    ensures CalmLeader(Committing(w)) && CommitEnd(Committing(w)) == w.last
    ensures w.batch[0].Sequence() == CommitEnd(w) + 1 && w.batch[|w.batch| - 1].Sequence() == w.last
  {
    SortedAll(w.server.pending, w.server.buf, w.server.cap, w.batch[0].Sequence(), w.batch[|w.batch| - 1].Sequence());
  }

  // --------------------------------------------------------------------- joining

  lemma SinceRun(buf: seq<Entry>, first: int, from: int)
    requires Consecutive(buf, first) && (buf != [] ==> first <= from <= first + |buf|) && (buf == [] ==> from == first)
    ensures Since(buf, from).Some? && Consecutive(Since(buf, from).value, from)
    ensures from + |Since(buf, from).value| == first + |buf|
  {
    if buf != [] {
      var k := FirstFrom(buf, from);
      assert from - first < |buf| ==> buf[from - first].Sequence() == from;
    }
  }

  lemma TidyFresh(n: nat, from: int, snapshot: seq<Entry>)
    requires from >= 1 && Consecutive(snapshot, from)
    ensures Tidy(Link(n, SnapshotMsgs(snapshot), from + |snapshot| - 1, [], [], [], from), Chan([], false), true,
                 Pos(from + |snapshot|, []))
  {
    var l := Link(n, SnapshotMsgs(snapshot), from + |snapshot| - 1, [], [], [], from);
    WalkSnapshot(from, snapshot);
    assert Stream(l, Chan([], false)) == SnapshotMsgs(snapshot) && l.net + l.snap == SnapshotMsgs(snapshot);
  }

  lemma JoinedLink(w: World, n: nat, id: nat)
    requires CalmLeader(w) && OpensInPlace(w, n, id)
    ensures var from, snapshot := w.nodes[n].want, Since(w.server.buf, w.nodes[n].want).value;
            && Consecutive(snapshot, from) && from + |snapshot| == CommitEnd(w) + 1
            && Joined(w, n, id).links[id] == Link(n, SnapshotMsgs(snapshot), from + |snapshot| - 1, [], [], [], from)
  {
    SinceRun(w.server.buf, CommitEnd(w) + 1 - |w.server.buf|, w.nodes[n].want);
  }

  lemma JoinTidy(w: World, n: nat, id: nat)
    requires CalmLeader(w) && OpensInPlace(w, n, id)
    ensures Tidy(Joined(w, n, id).links[id], Chan([], false), true, Pos(CommitEnd(w) + 1, []))
  {
    JoinedLink(w, n, id);
    TidyFresh(n, w.nodes[n].want, Since(w.server.buf, w.nodes[n].want).value);
  }

  lemma JoinInStep(w: World, n: nat, id: nat)
    requires CalmLeader(w) && OpensInPlace(w, n, id) && w.batch == []
    ensures Reads(Joined(w, n, id), n, id) && InStep(Joined(w, n, id), n, id)
  {
    JoinTidy(w, n, id);
  }

  // ------------------------------------------------- every step keeps a stream in step

  lemma SendKeepsStep(w: World, e: Entry, n: nat, id: nat)
    requires FollowersOk(w) && w.links.Keys == w.server.chans.Keys && CalmLeader(w) && e.Sequence() == w.last + 1
    requires InStep(w, n, id)
    ensures InStep(Moved(w, SendEntry(e)), n, id)
  {
    SendCalmLeader(w, e);
    var w' := Moved(w, SendEntry(e));
    if Reads(w', n, id) {
      FanOutInStep(w, w', w.server.(pending := w.server.pending + [e]), EntryMsg(e), n, id);
    }
  }

  lemma CommitKeepsStep(w: World, n: nat, id: nat)
    requires FollowersOk(w) && w.links.Keys == w.server.chans.Keys && CalmLeader(w) && w.batch != [] && InStep(w, n, id)
    ensures InStep(Committing(w), n, id)
  {
    CommitCalmLeader(w);
    if Reads(Committing(w), n, id) {
      var start, rev := w.batch[0].Sequence(), w.batch[|w.batch| - 1].Sequence();
      var (keep, b) := Sorted(w.server.pending, w.server.buf, w.server.cap, start, rev);
      FanOutInStep(w, Committing(w), w.server.(pending := keep, buf := b), CommitMsg(start, rev), n, id);
    }
  }

  lemma JoinKeepsStep(w: World, m: nat, x: nat, n: nat, id: nat)
    requires Enabled(w, Join(m, x)) && id in w.links && InStep(w, n, id)
    ensures InStep(Joined(w, m, x), n, id)
  {
    if Reads(Joined(w, m, x), n, id) {
      assert m != n;
      assert Reads(w, n, id);
    }
  }

  /** Nothing that matters to the stream has changed. */
  lemma InStepSame(w: World, w': World, n: nat, id: nat)
    requires InStep(w, n, id) && Reads(w, n, id) && Reads(w', n, id)
    requires w'.batch == w.batch && w'.last == w.last && w'.server.followers == w.server.followers
    requires w'.nodes[n] == w.nodes[n] && w'.links[id] == w.links[id] && w'.server.chans[id] == w.server.chans[id]
    ensures InStep(w', n, id)
  {
  }

  lemma ForwardedSelf(w: World, n: nat, id: nat)
    requires InStep(w, n, id) && Reads(w, n, id)
    ensures InStep(Forwarded(w, id), n, id)
  {
    TidySent(w.links[id], w.server.chans[id], Fed(w, n, id), Pos(CommitEnd(w) + 1, w.batch));
  }

  lemma ForwardKeepsStep(w: World, x: nat, n: nat, id: nat)
    requires Enabled(w, Forward(x)) && id in w.links && InStep(w, n, id)
    ensures InStep(Forwarded(w, x), n, id)
  {
    if Reads(Forwarded(w, x), n, id) {
      SentFrame(w.links[x], w.server.chans[x]);
      assert Reads(w, n, id);
      if x == id {
        ForwardedSelf(w, n, id);
      } else {
        InStepSame(w, Forwarded(w, x), n, id);
      }
    }
  }

  lemma SentFrame(l: Link, ch: Chan)
    ensures SentOne(l, ch).0.node == l.node
  {
  }

  lemma StillReading(f: Follower, l: Link, walOk: bool, ackOk: bool, applyOk: bool)
    requires l.net != [] && f.link.Some? && Reacted(f, l, walOk, ackOk, applyOk).0.link.Some?
    ensures Reacted(f, l, walOk, ackOk, applyOk) == Reacted(f, l, true, true, true)
  {
  }

  lemma ReactedFrame(f: Follower, l: Link, walOk: bool, ackOk: bool, applyOk: bool)
    requires l.net != []
    ensures var (f', l') := Reacted(f, l, walOk, ackOk, applyOk); f'.link in {f.link, None} && l'.node == l.node
  {
  }

  lemma ReceiveKeepsStep(w: World, m: nat, walOk: bool, ackOk: bool, applyOk: bool, n: nat, id: nat)
    requires NodesOk(w) && w.links.Keys == w.server.chans.Keys && Enabled(w, Receive(m, walOk, ackOk, applyOk))
    requires id in w.links && InStep(w, n, id)
    ensures InStep(Received(w, m, walOk, ackOk, applyOk), n, id)
  {
    var w', f, x := Received(w, m, walOk, ackOk, applyOk), w.nodes[m], w.nodes[m].link.value;
    assert NodeOk(w, m);
    ReactedFrame(f, w.links[x], walOk, ackOk, applyOk);
    if Reads(w', n, id) {
      if m == n {
        assert x == id && Reads(w, n, id);
        StillReading(f, w.links[x], walOk, ackOk, applyOk);
        TidyRead(f, w.links[x], w.server.chans[x], Fed(w, n, id), Pos(CommitEnd(w) + 1, w.batch));
      } else {
        assert x != id && Reads(w, n, id);
      }
    }
  }

  /** Steps that touch neither what is read nor what is fed. */
  ghost predicate Quiet(w: World, w': World) {
    && w'.batch == w.batch && w'.last == w.last && w'.server.chans == w.server.chans
    && (forall n :: n in w'.server.followers ==> n in w.server.followers && w.server.followers[n] == w'.server.followers[n])
    && w'.links.Keys == w.links.Keys && (forall id :: id in w.links ==> w'.links[id] == w.links[id].(ackNet := w'.links[id].ackNet))
    && (forall n :: n in w'.nodes && w'.nodes[n].link.Some? ==> n in w.nodes && w'.nodes[n] == w.nodes[n])
  }

  lemma QuietSteps(w: World, step: Step)
    requires Enabled(w, step) && (step.TakeAck? || step.Disconnect? || step.EndStream? || step.Resync?)
    ensures Quiet(w, Moved(w, step))
  {
  }

  lemma QuietKeepsStep(w: World, w': World, n: nat, id: nat)
    requires Quiet(w, w') && id in w.links && InStep(w, n, id)
    ensures InStep(w', n, id)
  {
    if Reads(w', n, id) {
      assert Reads(w, n, id);
      assert Stream(w'.links[id], w.server.chans[id]) == Stream(w.links[id], w.server.chans[id]);
    }
  }

  lemma InStepKept(w: World, step: Step, n: nat, id: nat)
    requires Steady(w) && SteadyStep(w, step) && id in w.links && InStep(w, n, id)
    ensures InStep(Moved(w, step), n, id)
  {
    if Enabled(w, step) {
      match step
      case SendEntry(e) => SendKeepsStep(w, e, n, id);
      case Commit => CommitKeepsStep(w, n, id);
      case Join(m, x) => JoinKeepsStep(w, m, x, n, id);
      case Forward(x) => ForwardKeepsStep(w, x, n, id);
      case Receive(m, walOk, ackOk, applyOk) => ReceiveKeepsStep(w, m, walOk, ackOk, applyOk, n, id);
      case _ =>
        QuietSteps(w, step);
        QuietKeepsStep(w, Moved(w, step), n, id);
    }
  }

  lemma OtherLeader(w: World, step: Step)
    requires CalmLeader(w) && !step.SendEntry? && !step.Commit? && !step.Abort?
    ensures CalmLeader(Moved(w, step))
  {
  }

  lemma SteadyKept(w: World, step: Step)
    requires Steady(w) && SteadyStep(w, step)
    ensures Steady(Moved(w, step))
  {
    StepKeeps(w, step);
    match step
    case SendEntry(e) => SendCalmLeader(w, e);
    case Commit => if w.batch != [] { CommitCalmLeader(w); }
    case _ => OtherLeader(w, step);
  }

  lemma LinksStay(w: World, step: Step, id: nat)
    requires id in w.links
    ensures id in Moved(w, step).links
  {
  }

  // ------------------------------------------------------------------- every run

  ghost predicate SteadyRun(w: World, steps: seq<Step>) {
    steps == [] ||
    (SteadyRun(w, steps[..|steps| - 1]) && SteadyStep(After(w, steps[..|steps| - 1]), steps[|steps| - 1]))
  }

  ghost predicate CalmStart(w: World) {
    Start(w) && w.server.startRev == w.last + 1 >= 1 && w.server.cap >= 1
  }

  lemma {:induction false} RunSteady(w: World, steps: seq<Step>)
    requires Steady(w) && SteadyRun(w, steps)
    ensures Steady(After(w, steps))
  {
    if steps != [] {
      RunSteady(w, steps[..|steps| - 1]);
      SteadyKept(After(w, steps[..|steps| - 1]), steps[|steps| - 1]);
    }
  }

  lemma {:induction false} RunInStep(w: World, steps: seq<Step>, n: nat, id: nat)
    requires Steady(w) && SteadyRun(w, steps) && id in w.links && InStep(w, n, id)
    ensures id in After(w, steps).links && InStep(After(w, steps), n, id)
  {
    if steps != [] {
      var init, s := steps[..|steps| - 1], steps[|steps| - 1];
      RunSteady(w, init);
      RunInStep(w, init, n, id);
      InStepKept(After(w, init), s, n, id);
      LinksStay(After(w, init), s, id);
    }
  }

  lemma StreamInStep(w: World, n: nat, id: nat, steps: seq<Step>)
    requires Steady(w) && OpensInPlace(w, n, id) && w.batch == [] && SteadyRun(Joined(w, n, id), steps)
    ensures InStep(After(Joined(w, n, id), steps), n, id)
  {
    JoinInStep(w, n, id);
    SteadyKept(w, Join(n, id));
    RunInStep(Joined(w, n, id), steps, n, id);
  }

  lemma NoGapNow(w: World, n: nat, id: nat)
    requires InStep(w, n, id) && Reads(w, n, id) && w.links[id].net != []
    ensures Reads(Moved(w, Receive(n, true, true, true)), n, id)
  {
    TidyRead(w.nodes[n], w.links[id], w.server.chans[id], Fed(w, n, id), Pos(CommitEnd(w) + 1, w.batch));
    ReactedFrame(w.nodes[n], w.links[id], true, true, true);
  }

  /** A stream opened between two batches never asks its reader to resync: whatever
      else happens in a run without aborts, a message that is read and stored
      without error leaves the reader on the stream. */
  lemma NoGapAfterJoin(w: World, n: nat, id: nat, steps: seq<Step>)
    requires Steady(w) && OpensInPlace(w, n, id) && w.batch == [] && SteadyRun(Joined(w, n, id), steps)
    requires Reads(After(Joined(w, n, id), steps), n, id) && After(Joined(w, n, id), steps).links[id].net != []
    ensures Reads(Moved(After(Joined(w, n, id), steps), Receive(n, true, true, true)), n, id)
  {
    StreamInStep(w, n, id, steps);
    NoGapNow(After(Joined(w, n, id), steps), n, id);
  }

  /** Having read all of a stream that is still fed, the follower has applied every
      committed sequence. */
  lemma ReadersCatchUp(w: World, n: nat, id: nat, steps: seq<Step>)
    requires Steady(w) && OpensInPlace(w, n, id) && w.batch == [] && SteadyRun(Joined(w, n, id), steps)
    requires var w' := After(Joined(w, n, id), steps);
             Reads(w', n, id) && Fed(w', n, id) && Stream(w'.links[id], w'.server.chans[id]) == []
    ensures var w' := After(Joined(w, n, id), steps); Next(w'.nodes[n]) == CommitEnd(w') + 1
  {
    StreamInStep(w, n, id, steps);
  }

  // -------------------------------------------------- a stream that misses a sequence

  ghost predicate NoneAt(es: seq<Entry>, hole: int) {
    forall i :: 0 <= i < |es| ==> es[i].Sequence() != hole
  }

  /** The reader still needs the sequence hole, and nothing it has staged or will
      read on this stream carries it. */
  ghost predicate Lacks(f: Follower, l: Link, ms: seq<Msg>, hole: int) {
    Next(f) <= hole && l.from <= hole && NoneAt(l.staged, hole) && NoneAt(EntriesOf(ms), hole)
  }

  ghost predicate Torn(w: World, n: nat, id: nat, hole: int) {
    Reads(w, n, id) ==> Lacks(w.nodes[n], w.links[id], Stream(w.links[id], w.server.chans[id]), hole)
  }

  lemma NoneAtSubset(es: seq<Entry>, es': seq<Entry>, hole: int)
    requires NoneAt(es, hole) && forall e :: e in es' ==> e in es
    ensures NoneAt(es', hole)
  {
    forall i | 0 <= i < |es'| ensures es'[i].Sequence() != hole {
      assert es'[i] in es;
    }
  }

  lemma {:induction false} RunBelowHole(run: seq<Entry>, next: int, hole: int)
    requires Consecutive(run, next) && NoneAt(run, hole) && next <= hole
    ensures next + |run| <= hole
  {
    if run != [] {
      RunBelowHole(run[..|run| - 1], next, hole);
      assert run[|run| - 1].Sequence() == next + |run| - 1;
    }
  }

  /** A batch that reaches the hole cannot continue a log that still needs it. */
  lemma NoBatchOverHole(staged: seq<Entry>, from: int, start: int, rev: int, next: int, hole: int)
    requires OnCommit(staged, from, start, rev).Batch? && NoneAt(staged, hole) && next <= hole
    requires Consecutive(OnCommit(staged, from, start, rev).batch, next)
    ensures rev < hole && next + |OnCommit(staged, from, start, rev).batch| == rev + 1
  {
    AcceptedBatch(staged, from, start, rev);
    var batch := OnCommit(staged, from, start, rev).batch;
    assert batch[|batch| - 1].Sequence() == next + |batch| - 1;
    NoneAtSubset(staged, batch, hole);
    RunBelowHole(batch, next, hole);
  }

  lemma LacksBatch(f: Follower, l: Link, ms: seq<Msg>, hole: int, start: int, rev: int, walOk: bool, ackOk: bool, applyOk: bool)
    requires Lacks(f, l, ms, hole) && f.link.Some? && OnCommit(l.staged, l.from, start, rev).Batch?
    ensures var v := OnCommit(l.staged, l.from, start, rev);
            var (f', l') := TookBatch(f, l, CommitStart(start, rev), v.batch, v.rest, walOk, ackOk, applyOk);
            f'.link.Some? ==> Lacks(f', l', ms, hole) && rev < hole
  {
    var v := OnCommit(l.staged, l.from, start, rev);
    if Consecutive(v.batch, Next(f)) {
      NoBatchOverHole(l.staged, l.from, start, rev, Next(f), hole);
      AcceptedBatch(l.staged, l.from, start, rev);
      NoneAtSubset(l.staged, v.rest, hole);
    }
  }

  /** Reading keeps the hole, or loses the stream; a marker that reaches the hole
      loses it. */
  lemma LacksReact(f: Follower, l: Link, ch: Chan, hole: int, walOk: bool, ackOk: bool, applyOk: bool)
    requires Lacks(f, l, Stream(l, ch), hole) && l.net != [] && f.link.Some?
    ensures var (f', l') := Reacted(f, l, walOk, ackOk, applyOk);
            f'.link.Some? ==> Lacks(f', l', Stream(l', ch), hole) && (l.net[0].CommitMsg? ==> l.net[0].rev < hole)
  {
    var m, l1 := l.net[0], l.(net := l.net[1..]);
    HeadOf(l, ch);
    HeadEntries(m, Stream(l1, ch));
    NoneAtSubset(EntriesOf(Stream(l, ch)), EntriesOf(Stream(l1, ch)), hole);
    var (f', l') := Reacted(f, l, walOk, ackOk, applyOk);
    if m.CommitMsg? {
      if OnCommit(l.staged, l.from, m.start, m.rev).Batch? {
        LacksBatch(f, l1, Stream(l1, ch), hole, m.start, m.rev, walOk, ackOk, applyOk);
      }
      assert Stream(l', ch) == Stream(l1, ch);
    } else {
      assert m.e in EntriesOf(Stream(l, ch));
      assert Stream(l', ch) == Stream(l1, ch);
    }
  }

  lemma LacksSame(f: Follower, l: Link, ms: seq<Msg>, hole: int, l': Link, ms': seq<Msg>)
    requires Lacks(f, l, ms, hole) && l'.from == l.from && l'.staged == l.staged
    requires forall e :: e in EntriesOf(ms') ==> e in EntriesOf(ms) || e.Sequence() != hole
    ensures Lacks(f, l', ms', hole)
  {
    forall i | 0 <= i < |EntriesOf(ms')| ensures EntriesOf(ms')[i].Sequence() != hole {
      assert EntriesOf(ms')[i] in EntriesOf(ms');
    }
  }

  lemma LacksOffer(f: Follower, l: Link, ch: Chan, m: Msg, hole: int)
    requires Lacks(f, l, Stream(l, ch), hole) && (m.EntryMsg? ==> m.e.Sequence() != hole)
    ensures Lacks(f, l, Stream(l, Offer(ch, m)), hole)
  {
    if !Full(ch) {
      assert Stream(l, Offer(ch, m)) == Stream(l, ch) + [m];
      EntriesOfAppend(Stream(l, ch), [m]);
      assert [m][..0] == [];
      LacksSame(f, l, Stream(l, ch), hole, l, Stream(l, Offer(ch, m)));
    }
  }

  lemma FanOutTorn(w: World, w': World, s: Server, m: Msg, n: nat, id: nat, hole: int)
    requires FollowersOk(w) && w.links.Keys == w.server.chans.Keys && Torn(w, n, id, hole)
    requires s.followers == w.server.followers && s.chans == w.server.chans
    requires w'.links == w.links && w'.nodes == w.nodes && w'.server == FanOut(s, m)
    requires m.EntryMsg? ==> m.e.Sequence() != hole
    ensures Torn(w', n, id, hole)
  {
    if Reads(w', n, id) {
      FanOutReaches(w, s, m, n, id);
      LacksOffer(w.nodes[n], w.links[id], w.server.chans[id], m, hole);
    }
  }

  lemma LacksSent(f: Follower, l: Link, ch: Chan, hole: int)
    requires Lacks(f, l, Stream(l, ch), hole)
    ensures var (l', ch') := SentOne(l, ch); Lacks(f, l', Stream(l', ch'), hole)
  {
    var (l', ch') := SentOne(l, ch);
    if l.snap == [] && ch.queue != [] && l' == l {
      var m := ch.queue[0];
      assert Stream(l, ch) == l.net + [m] + ch'.queue;
      assert Stream(l, ch') == l.net + ch'.queue;
      SkipEntries(l.net, m, ch'.queue);
      LacksSame(f, l, Stream(l, ch), hole, l, Stream(l, ch'));
    } else {
      assert Stream(l', ch') == Stream(l, ch);
    }
  }

  lemma ForwardTorn(w: World, x: nat, n: nat, id: nat, hole: int)
    requires Enabled(w, Forward(x)) && id in w.links && Torn(w, n, id, hole)
    ensures Torn(Forwarded(w, x), n, id, hole)
  {
    if Reads(Forwarded(w, x), n, id) {
      SentFrame(w.links[x], w.server.chans[x]);
      assert Reads(w, n, id);
      if x == id {
        LacksSent(w.nodes[n], w.links[id], w.server.chans[id], hole);
      }
    }
  }

  lemma ReceiveTorn(w: World, m: nat, walOk: bool, ackOk: bool, applyOk: bool, n: nat, id: nat, hole: int)
    requires NodesOk(w) && w.links.Keys == w.server.chans.Keys && Enabled(w, Receive(m, walOk, ackOk, applyOk))
    requires id in w.links && Torn(w, n, id, hole)
    ensures Torn(Received(w, m, walOk, ackOk, applyOk), n, id, hole)
  {
    var w', f, x := Received(w, m, walOk, ackOk, applyOk), w.nodes[m], w.nodes[m].link.value;
    assert NodeOk(w, m);
    ReactedFrame(f, w.links[x], walOk, ackOk, applyOk);
    if Reads(w', n, id) {
      if m == n {
        assert x == id && Reads(w, n, id);
        LacksReact(f, w.links[x], w.server.chans[x], hole, walOk, ackOk, applyOk);
      } else {
        assert x != id && Reads(w, n, id);
      }
    }
  }

  lemma QuietTorn(w: World, w': World, n: nat, id: nat, hole: int)
    requires Quiet(w, w') && id in w.links && Torn(w, n, id, hole)
    ensures Torn(w', n, id, hole)
  {
    if Reads(w', n, id) {
      assert Reads(w, n, id);
      assert Stream(w'.links[id], w.server.chans[id]) == Stream(w.links[id], w.server.chans[id]);
    }
  }

  lemma SendTorn(w: World, e: Entry, n: nat, id: nat, hole: int)
    requires FollowersOk(w) && w.links.Keys == w.server.chans.Keys && Torn(w, n, id, hole)
    requires Enabled(w, SendEntry(e)) && hole <= w.last
    ensures Torn(Moved(w, SendEntry(e)), n, id, hole)
  {
    FanOutTorn(w, Moved(w, SendEntry(e)), w.server.(pending := w.server.pending + [e]), EntryMsg(e), n, id, hole);
  }

  lemma CommitTorn(w: World, n: nat, id: nat, hole: int)
    requires FollowersOk(w) && w.links.Keys == w.server.chans.Keys && Torn(w, n, id, hole) && w.batch != []
    ensures Torn(Committing(w), n, id, hole)
  {
    var start, rev := w.batch[0].Sequence(), w.batch[|w.batch| - 1].Sequence();
    var (keep, b) := Sorted(w.server.pending, w.server.buf, w.server.cap, start, rev);
    FanOutTorn(w, Committing(w), w.server.(pending := keep, buf := b), CommitMsg(start, rev), n, id, hole);
  }

  lemma AbortTorn(w: World, n: nat, id: nat, hole: int)
    requires Torn(w, n, id, hole)
    ensures Torn(Moved(w, Abort), n, id, hole)
  {
    assert Reads(Moved(w, Abort), n, id) ==> Reads(w, n, id);
  }

  lemma OtherJoinTorn(w: World, m: nat, x: nat, n: nat, id: nat, hole: int)
    requires Enabled(w, Join(m, x)) && id in w.links && Torn(w, n, id, hole)
    ensures Torn(Joined(w, m, x), n, id, hole)
  {
    assert Reads(Joined(w, m, x), n, id) ==> m != n && Reads(w, n, id);
  }

  lemma LastGrows(w: World, step: Step)
    ensures w.last <= Moved(w, step).last
  {
  }

  /** No step gives the reader the sequence its stream lacks: new entries come
      above it. */
  lemma TornKept(w: World, step: Step, n: nat, id: nat, hole: int)
    requires FollowersOk(w) && NodesOk(w) && w.links.Keys == w.server.chans.Keys
    requires id in w.links && hole <= w.last && Torn(w, n, id, hole)
    ensures Torn(Moved(w, step), n, id, hole)
  {
    if Enabled(w, step) {
      match step
      case SendEntry(e) => SendTorn(w, e, n, id, hole);
      case Commit => CommitTorn(w, n, id, hole);
      case Abort => AbortTorn(w, n, id, hole);
      case Join(m, x) => OtherJoinTorn(w, m, x, n, id, hole);
      case Forward(x) => ForwardTorn(w, x, n, id, hole);
      case Receive(m, walOk, ackOk, applyOk) => ReceiveTorn(w, m, walOk, ackOk, applyOk, n, id, hole);
      case _ =>
        QuietSteps(w, step);
        QuietTorn(w, Moved(w, step), n, id, hole);
    }
  }

  lemma {:induction false} RunTorn(w: World, steps: seq<Step>, n: nat, id: nat, hole: int)
    requires Inv(w) && id in w.links && hole <= w.last && Torn(w, n, id, hole)
    ensures Inv(After(w, steps)) && id in After(w, steps).links
    ensures hole <= After(w, steps).last && Torn(After(w, steps), n, id, hole)
  {
    if steps != [] {
      var init, s := steps[..|steps| - 1], steps[|steps| - 1];
      RunTorn(w, init, n, id, hole);
      StepKeeps(After(w, init), s);
      TornKept(After(w, init), s, n, id, hole);
      LastGrows(After(w, init), s);
      LinksStay(After(w, init), s, id);
    }
  }

  lemma CommittedBelowBatch(w: World, es: seq<Entry>)
    requires BatchOk(w) && w.batch != [] && AllIn(w.log, es)
    ensures NoneAt(es, w.batch[0].Sequence())
  {
  }

  lemma SnapshotLacks(f: Follower, n: nat, from: int, buf: seq<Entry>, hole: int)
    requires NoneAt(buf, hole) && Next(f) <= hole && from <= hole && Since(buf, from).Some?
    ensures var l := Link(n, SnapshotMsgs(Since(buf, from).value), 0, [], [], [], from); Lacks(f, l, SnapshotMsgs(Since(buf, from).value), hole)
  {
    var snapshot := Since(buf, from).value;
    SnapshotCarries(snapshot);
    assert forall e :: e in snapshot ==> e in buf;
    NoneAtSubset(buf, snapshot, hole);
  }

  /** The snapshot of a stream opened during a batch holds committed entries only,
      so it misses what the batch has sent so far. */
  lemma JoinTorn(w: World, n: nat, id: nat)
    requires BatchOk(w) && AllIn(w.log, w.server.buf) && Enabled(w, Join(n, id)) && w.batch != []
    requires Next(w.nodes[n]) <= w.batch[0].Sequence() && w.nodes[n].want <= w.batch[0].Sequence()
    ensures Torn(Joined(w, n, id), n, id, w.batch[0].Sequence())
  {
    CommittedBelowBatch(w, w.server.buf);
    SnapshotLacks(w.nodes[n], n, w.nodes[n].want, w.server.buf, w.batch[0].Sequence());
    var l := Joined(w, n, id).links[id];
    assert Stream(l, Chan([], false)) == l.snap;
  }

  /** The next message node n reads on stream id is a marker that reaches seqNo. */
  ghost predicate MarkerNext(w: World, n: nat, id: nat, seqNo: int) {
    && Reads(w, n, id) && w.links[id].net != []
    && w.links[id].net[0].CommitMsg? && w.links[id].net[0].rev >= seqNo
  }

  lemma TornMarkerEnds(w: World, n: nat, id: nat, hole: int, walOk: bool, ackOk: bool, applyOk: bool)
    requires Torn(w, n, id, hole) && MarkerNext(w, n, id, hole)
    ensures !Reads(Moved(w, Receive(n, walOk, ackOk, applyOk)), n, id)
  {
    LacksReact(w.nodes[n], w.links[id], w.server.chans[id], hole, walOk, ackOk, applyOk);
  }

  /** Whatever happens after a stream was opened in the middle of a batch, reading
      a marker that reaches the batch ends it. */
  lemma MidBatchStreamIsLost(w: World, n: nat, id: nat, steps: seq<Step>, walOk: bool, ackOk: bool, applyOk: bool)
    requires Inv(w) && Enabled(w, Join(n, id)) && w.batch != []
    requires Next(w.nodes[n]) <= w.batch[0].Sequence() && w.nodes[n].want <= w.batch[0].Sequence()
    requires MarkerNext(After(Joined(w, n, id), steps), n, id, w.batch[0].Sequence())
    ensures !Reads(Moved(After(Joined(w, n, id), steps), Receive(n, walOk, ackOk, applyOk)), n, id)
  {
    JoinTorn(w, n, id);
    StepKeeps(w, Join(n, id));
    RunTorn(Joined(w, n, id), steps, n, id, w.batch[0].Sequence());
    TornMarkerEnds(After(Joined(w, n, id), steps), n, id, w.batch[0].Sequence(), walOk, ackOk, applyOk);
  }

  /** In every run without aborts from the start: the first marker past what was
      committed when the stream was opened leaves the reader on it if and only if
      no batch was under way at that moment. */
  lemma SurvivesIffBetweenBatches(w0: World, before: seq<Step>, n: nat, id: nat, steps: seq<Step>)
    requires CalmStart(w0) && SteadyRun(w0, before) && OpensInPlace(After(w0, before), n, id)
    requires SteadyRun(Joined(After(w0, before), n, id), steps)
    requires MarkerNext(After(Joined(After(w0, before), n, id), steps), n, id, CommitEnd(After(w0, before)) + 1)
    ensures Reads(Moved(After(Joined(After(w0, before), n, id), steps), Receive(n, true, true, true)), n, id) <==>
            After(w0, before).batch == []
  {
    var w := After(w0, before);
    StartSteady(w0);
    RunSteady(w0, before);
    if w.batch == [] {
      NoGapAfterJoin(w, n, id, steps);
    } else {
      assert w.batch[0].Sequence() == CommitEnd(w) + 1;
      MidBatchStreamIsLost(w, n, id, steps, true, true, true);
    }
  }

  lemma StartSteady(w: World)
    requires CalmStart(w)
    ensures Steady(w)
  {
  }

  // ------------------------------------------------------------ such runs exist

  /** A leader and one fresh follower. */
  function Fresh(): (w: World) {
    World(Server(1, 1, [], [], map[], map[], map[]), map[], map[0 := Follower(1, [], {}, 1, None)],
          map[], map[], {}, [], 0)
  }

  /** It has sent one entry. */
  function FreshSent(e: Entry): (w: World) {
    Fresh().(server := Fresh().server.(pending := [e]), sent := map[e.Sequence() := e], batch := [e], last := e.Sequence())
  }

  lemma FirstSent(e: Entry)
    requires e.Sequence() == 1
    ensures After(Fresh(), [SendEntry(e)]) == FreshSent(e) && SteadyRun(Fresh(), [SendEntry(e)])
  {
    assert [SendEntry(e)][..0] == [];
    var s := Fresh().server.(pending := [e]);
    assert FanOut(s, EntryMsg(e)).chans == map[] && FanOut(s, EntryMsg(e)).followers == map[];
    assert Fresh().server.pending + [e] == [e] && Fresh().batch + [e] == [e];
    assert Moved(Fresh(), SendEntry(e)) == FreshSent(e);
  }

  lemma FreshJoins(e: Entry)
    requires e.Sequence() == 1
    ensures var w, w' := FreshSent(e), Joined(FreshSent(e), 0, 0);
            && OpensInPlace(w, 0, 0) && w'.batch == [e]
            && w'.server.followers == map[0 := 0] && w'.server.chans == map[0 := Chan([], false)]
            && w'.links == map[0 := Link(0, [], 0, [], [], [], 1)]
            && w'.nodes == map[0 := Follower(1, [], {}, 1, Some(0))]
  {
  }

  lemma MarkerFanned(s: Server, m: Msg)
    requires s.followers == map[0 := 0] && s.chans == map[0 := Chan([], false)]
    ensures FanOut(s, m).chans == map[0 := Chan([m], false)]
  {
    assert s.followers[0] in s.followers.Values;
    assert Offer(s.chans[0], m) == Chan([m], false);
  }

  lemma MarkerForwarded(w: World, e: Entry)
    requires w.batch == [e] && e.Sequence() == 1
    requires w.server.followers == map[0 := 0] && w.server.chans == map[0 := Chan([], false)]
    requires w.links == map[0 := Link(0, [], 0, [], [], [], 1)] && 0 in w.nodes && w.nodes[0].link == Some(0)
    ensures SteadyRun(w, [Commit, Forward(0)]) && MarkerNext(After(w, [Commit, Forward(0)]), 0, 0, 1)
  {
    var w1 := Committing(w);
    var (keep, b) := Sorted(w.server.pending, w.server.buf, w.server.cap, 1, 1);
    MarkerFanned(w.server.(pending := keep, buf := b), CommitMsg(1, 1));
    assert w1.links == w.links && w1.nodes == w.nodes && w1.server.chans == map[0 := Chan([CommitMsg(1, 1)], false)];
    assert [Commit, Forward(0)][..1] == [Commit] && [Commit][..0] == [];
    assert After(w, [Commit]) == w1;
    assert SteadyRun(w, []) && SteadyRun(w, [Commit]);
    assert Forwarded(w1, 0).links[0].net == [CommitMsg(1, 1)];
  }

  /** One entry is sent, the follower joins, and the batch commits: its marker
      costs the follower the stream. */
  lemma MidBatchRun(e: Entry)
    requires e.Sequence() == 1
    ensures CalmStart(Fresh()) && OpensInPlace(After(Fresh(), [SendEntry(e)]), 0, 0)
    ensures var w := After(Joined(After(Fresh(), [SendEntry(e)]), 0, 0), [Commit, Forward(0)]);
            MarkerNext(w, 0, 0, 1) && !Reads(Moved(w, Receive(0, true, true, true)), 0, 0)
  {
    FirstSent(e);
    FreshJoins(e);
    MarkerForwarded(Joined(After(Fresh(), [SendEntry(e)]), 0, 0), e);
    SurvivesIffBetweenBatches(Fresh(), [SendEntry(e)], 0, 0, [Commit, Forward(0)]);
  }
}

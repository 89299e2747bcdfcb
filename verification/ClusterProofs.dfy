/** Every run keeps every follower faithful to the leader's committed log. */
module ClusterProofs {
  import opened Entries
  import opened Replication
  import opened Cluster

  type SeqMap = map<int, Entry>

  // ---------------------------------------------------------------- streams

  function EntriesOf(ms: seq<Msg>): (es: seq<Entry>) {
    if ms == [] then []
    else EntriesOf(ms[..|ms| - 1]) + if ms[|ms| - 1].EntryMsg? then [ms[|ms| - 1].e] else []
  }

  ghost predicate AllIn(log: SeqMap, es: seq<Entry>) {
    forall i :: 0 <= i < |es| ==> Has(log, es[i])
  }

  /** Among es, all that a marker covers are committed. */
  ghost predicate MarkerOk(log: SeqMap, es: seq<Entry>, m: Msg)
    requires m.CommitMsg?
  {
    forall i :: 0 <= i < |es| && CommitStart(m.start, m.rev) <= es[i].Sequence() <= m.rev ==> Has(log, es[i])
  }

  /** Every marker in the stream covers, of what precedes it, committed entries only. */
  ghost predicate StreamOk(log: SeqMap, staged: seq<Entry>, ms: seq<Msg>) {
    ms == [] ||
    (var init, m := ms[..|ms| - 1], ms[|ms| - 1];
     StreamOk(log, staged, init) && (m.CommitMsg? ==> MarkerOk(log, staged + EntriesOf(init), m)))
  }

  lemma {:induction false} EntriesOfAppend(a: seq<Msg>, b: seq<Msg>)
    ensures EntriesOf(a + b) == EntriesOf(a) + EntriesOf(b)
  {
    if b == [] {
      assert a + b == a;
    } else {
      EntriesOfAppend(a, b[..|b| - 1]);
      assert (a + b)[..|a + b| - 1] == a + b[..|b| - 1];
    }
  }

  lemma StreamMore(log: SeqMap, staged: seq<Entry>, ms: seq<Msg>, m: Msg)
    requires StreamOk(log, staged, ms) && (m.CommitMsg? ==> MarkerOk(log, staged + EntriesOf(ms), m))
    ensures StreamOk(log, staged, ms + [m])
  {
    assert (ms + [m])[..|ms + [m]| - 1] == ms;
  }

  lemma {:induction false} StreamGrow(log: SeqMap, log': SeqMap, staged: seq<Entry>, ms: seq<Msg>)
    requires StreamOk(log, staged, ms) && forall s :: s in log ==> s in log' && log'[s] == log[s]
    ensures StreamOk(log', staged, ms)
  {
    if ms != [] { StreamGrow(log, log', staged, ms[..|ms| - 1]); }
  }

  /** Staging the first entry of the stream. */
  lemma {:induction false} StreamStage(log: SeqMap, staged: seq<Entry>, e: Entry, rest: seq<Msg>)
    requires StreamOk(log, staged, [EntryMsg(e)] + rest)
    ensures StreamOk(log, staged + [e], rest)
  {
    if rest != [] {
      var m, init := rest[|rest| - 1], rest[..|rest| - 1];
      var ms := [EntryMsg(e)] + rest;
      assert ms[..|ms| - 1] == [EntryMsg(e)] + init;
      StreamStage(log, staged, e, init);
      EntriesOfAppend([EntryMsg(e)], init);
      assert [EntryMsg(e)][..0] == [];
      assert staged + EntriesOf([EntryMsg(e)] + init) == staged + [e] + EntriesOf(init);
    }
  }

  /** Passing the marker at the head of the stream. */
  lemma {:induction false} StreamPass(log: SeqMap, staged: seq<Entry>, m: Msg, rest: seq<Msg>)
    requires m.CommitMsg? && StreamOk(log, staged, [m] + rest)
    ensures MarkerOk(log, staged, m) && StreamOk(log, staged, rest)
  {
    if rest == [] {
      assert [m] + rest == [m];
      assert [m][..0] == [];
      assert staged + [] == staged;
    } else {
      var init := rest[..|rest| - 1];
      assert ([m] + rest)[..|[m] + rest| - 1] == [m] + init;
      StreamPass(log, staged, m, init);
      EntriesOfAppend([m], init);
      assert [m][..0] == [];
      assert EntriesOf([m]) == [];
      assert EntriesOf([m] + init) == EntriesOf(init);
    }
  }

  /** Skipping one message of the stream. */
  lemma {:induction false} StreamSkip(log: SeqMap, staged: seq<Entry>, a: seq<Msg>, m: Msg, b: seq<Msg>)
    requires StreamOk(log, staged, a + [m] + b)
    ensures StreamOk(log, staged, a + b)
  {
    if b == [] {
      assert a + [m] + b == a + [m] && a + b == a;
      assert (a + [m])[..|a + [m]| - 1] == a;
    } else {
      var init, x := b[..|b| - 1], b[|b| - 1];
      assert (a + [m] + b)[..|a + [m] + b| - 1] == a + [m] + init;
      assert (a + b)[..|a + b| - 1] == a + init;
      StreamSkip(log, staged, a, m, init);
      SkipEntries(a, m, init);
      if x.CommitMsg? {
        MarkerSubset(log, staged + EntriesOf(a + [m] + init), staged + EntriesOf(a + init), x);
      }
    }
  }

  lemma SkipEntries(a: seq<Msg>, m: Msg, b: seq<Msg>)
    ensures forall e :: e in EntriesOf(a + b) ==> e in EntriesOf(a + [m] + b)
  {
    EntriesOfAppend(a, b);
    EntriesOfAppend(a + [m], b);
    EntriesOfAppend(a, [m]);
  }

  lemma MarkerSubset(log: SeqMap, es: seq<Entry>, es': seq<Entry>, m: Msg)
    requires m.CommitMsg? && MarkerOk(log, es, m) && forall e :: e in es' ==> e in es
    ensures MarkerOk(log, es', m)
  {
    forall i | 0 <= i < |es'| && CommitStart(m.start, m.rev) <= es'[i].Sequence() <= m.rev ensures Has(log, es'[i]) {
      assert es'[i] in es;
    }
  }

  /** Staged entries may be dropped. */
  lemma {:induction false} StreamUnstage(log: SeqMap, staged: seq<Entry>, k: nat, ms: seq<Msg>)
    requires StreamOk(log, staged, ms) && k <= |staged|
    ensures StreamOk(log, staged[k..], ms)
  {
    if ms != [] {
      StreamUnstage(log, staged, k, ms[..|ms| - 1]);
      if ms[|ms| - 1].CommitMsg? {
        MarkerSubset(log, staged + EntriesOf(ms[..|ms| - 1]), staged[k..] + EntriesOf(ms[..|ms| - 1]), ms[|ms| - 1]);
      }
    }
  }

  // --------------------------------------------------------------- the invariant

  function Stream(l: Link, ch: Chan): (ms: seq<Msg>) {
    l.net + l.snap + ch.queue
  }

  ghost predicate LinkOk(sent: SeqMap, log: SeqMap, l: Link, ch: Chan) {
    && AllIn(sent, l.staged) && AllIn(sent, EntriesOf(Stream(l, ch)))
    && StreamOk(log, l.staged, Stream(l, ch))
  }

  ghost predicate Keyed(log: SeqMap, last: int) {
    forall s :: s in log ==> log[s].Sequence() == s && s <= last
  }

  ghost predicate Agree(a: SeqMap, b: SeqMap) {
    forall s :: s in a && s in b ==> a[s] == b[s]
  }

  ghost predicate BatchOk(w: World) {
    w.batch != [] ==>
      && Consecutive(w.batch, w.batch[0].Sequence()) && w.batch[|w.batch| - 1].Sequence() == w.last
      && AllIn(w.sent, w.batch)
      && (forall s :: s in w.log || s in w.aborted ==> s < w.batch[0].Sequence())
  }

  ghost predicate LeaderOk(w: World) {
    && Keyed(w.sent, w.last) && Keyed(w.log, w.last) && Agree(w.sent, w.log)
    && AllIn(w.sent, w.server.pending) && AllIn(w.sent, w.server.buf) && AllIn(w.log, w.server.buf)
    && BatchOk(w)
    && (forall s :: s in w.aborted ==> s <= w.last && s !in w.log)
  }

  ghost predicate NodeOk(w: World, n: nat)
    requires n in w.nodes
  {
    var f := w.nodes[n];
    Faithful(w.log, f) && (f.link.Some? ==> f.link.value in w.links && w.links[f.link.value].node == n)
  }

  ghost predicate AcksOk(w: World, id: nat)
    requires id in w.links
  {
    var l := w.links[id];
    l.node in w.nodes && forall i :: 0 <= i < |l.ackNet| ==> Durably(w.log, w.nodes[l.node], l.ackNet[i])
  }

  ghost predicate LinksOk(w: World) {
    && w.links.Keys == w.server.chans.Keys
    && forall id :: id in w.links ==> LinkOk(w.sent, w.log, w.links[id], w.server.chans[id])
  }

  ghost predicate FollowersOk(w: World) {
    && (forall n :: n in w.server.followers ==>
          w.server.followers[n] in w.links && w.links[w.server.followers[n]].node == n)
    && (forall n :: n in w.server.acks ==> n in w.nodes && Durably(w.log, w.nodes[n], w.server.acks[n]))
    && (forall id :: id in w.links ==> AcksOk(w, id))
  }

  ghost predicate NodesOk(w: World) {
    forall n :: n in w.nodes ==> NodeOk(w, n)
  }

  ghost predicate Inv(w: World) {
    LeaderOk(w) && LinksOk(w) && FollowersOk(w) && NodesOk(w)
  }

  // ----------------------------------------------------------- growing the log

  ghost predicate Extends(log: SeqMap, log': SeqMap) {
    forall s :: s in log ==> s in log' && log'[s] == log[s]
  }

  /** log' continues log: everything new lies above everything old. */
  ghost predicate Appends(log: SeqMap, log': SeqMap) {
    Extends(log, log') && forall s, t :: s in log' && s !in log && t in log ==> t < s
  }

  lemma DurablyGrow(log: SeqMap, log': SeqMap, f: Follower, ack: int)
    requires Durably(log, f, ack) && Appends(log, log')
    ensures Durably(log', f, ack)
  {
  }

  lemma AllInGrow(log: SeqMap, log': SeqMap, es: seq<Entry>)
    requires AllIn(log, es) && Extends(log, log')
    ensures AllIn(log', es)
  {
  }

  /** m may be sent: an entry is known, and a marker covers committed entries only. */
  ghost predicate Sendable(sent: SeqMap, log: SeqMap, m: Msg) {
    match m
    case EntryMsg(e) => Has(sent, e)
    case CommitMsg(start, rev) => forall s :: s in sent && CommitStart(start, rev) <= s <= rev ==> s in log && log[s] == sent[s]
  }

  lemma MarkerFromSent(sent: SeqMap, log: SeqMap, es: seq<Entry>, m: Msg)
    requires m.CommitMsg? && Sendable(sent, log, m) && AllIn(sent, es)
    ensures MarkerOk(log, es, m)
  {
  }

  lemma LinkGrow(sent: SeqMap, log: SeqMap, sent': SeqMap, log': SeqMap, l: Link, ch: Chan)
    requires LinkOk(sent, log, l, ch) && Extends(sent, sent') && Extends(log, log')
    ensures LinkOk(sent', log', l, ch)
  {
    AllInGrow(sent, sent', l.staged);
    AllInGrow(sent, sent', EntriesOf(Stream(l, ch)));
    StreamGrow(log, log', l.staged, Stream(l, ch));
  }

  lemma LinkOffer(sent: SeqMap, log: SeqMap, l: Link, ch: Chan, m: Msg)
    requires LinkOk(sent, log, l, ch) && Sendable(sent, log, m)
    ensures LinkOk(sent, log, l, Offer(ch, m))
  {
    var ms := Stream(l, ch);
    if !Full(ch) {
      assert Stream(l, Offer(ch, m)) == ms + [m];
      assert (ms + [m])[..|ms + [m]| - 1] == ms;
      if m.CommitMsg? { MarkerFromSent(sent, log, l.staged + EntriesOf(ms), m); }
      StreamMore(log, l.staged, ms, m);
    }
  }

  /** Fanning out a sendable message keeps every stream in order. */
  lemma FanOutLinks(w: World, s: Server, m: Msg)
    requires LinksOk(w) && s.chans == w.server.chans && Sendable(w.sent, w.log, m)
    ensures LinksOk(w.(server := FanOut(s, m)))
  {
    var w' := w.(server := FanOut(s, m));
    forall id | id in w'.links ensures LinkOk(w'.sent, w'.log, w'.links[id], w'.server.chans[id]) {
      LinkOffer(w.sent, w.log, w.links[id], w.server.chans[id], m);
    }
  }

  lemma FanOutFollowers(w: World, s: Server, m: Msg)
    requires FollowersOk(w) && s.followers == w.server.followers && s.acks == w.server.acks
    ensures FollowersOk(w.(server := FanOut(s, m)))
  {
    var w' := w.(server := FanOut(s, m));
    forall id | id in w'.links ensures AcksOk(w', id) {
      assert AcksOk(w, id);
    }
  }

  /** Everything said about the old log and broadcasts holds of longer ones. */
  lemma GrowLinks(w: World, sent: SeqMap, log: SeqMap)
    requires LinksOk(w) && Extends(w.sent, sent) && Extends(w.log, log)
    ensures LinksOk(w.(sent := sent, log := log))
  {
    forall id | id in w.links ensures LinkOk(sent, log, w.links[id], w.server.chans[id]) {
      LinkGrow(w.sent, w.log, sent, log, w.links[id], w.server.chans[id]);
    }
  }

  lemma GrowFollowers(w: World, sent: SeqMap, log: SeqMap)
    requires FollowersOk(w) && Appends(w.log, log)
    ensures FollowersOk(w.(sent := sent, log := log))
  {
    var w' := w.(sent := sent, log := log);
    forall id | id in w'.links ensures AcksOk(w', id) {
      assert AcksOk(w, id);
      var l := w.links[id];
      forall i | 0 <= i < |l.ackNet| ensures Durably(log, w.nodes[l.node], l.ackNet[i]) {
        DurablyGrow(w.log, log, w.nodes[l.node], l.ackNet[i]);
      }
    }
    forall n | n in w.server.acks ensures n in w.nodes && Durably(log, w.nodes[n], w.server.acks[n]) {
      DurablyGrow(w.log, log, w.nodes[n], w.server.acks[n]);
    }
  }

  lemma GrowNodes(w: World, sent: SeqMap, log: SeqMap)
    requires NodesOk(w) && Extends(w.log, log)
    ensures NodesOk(w.(sent := sent, log := log))
  {
    var w' := w.(sent := sent, log := log);
    forall n | n in w'.nodes ensures NodeOk(w', n) {
      assert NodeOk(w, n);
    }
  }

  // ----------------------------------------------------------- the leader's steps

  lemma SendLeader(w: World, e: Entry)
    requires LeaderOk(w) && Enabled(w, SendEntry(e))
    ensures LeaderOk(Moved(w, SendEntry(e))) && Extends(w.sent, w.sent[e.Sequence() := e])
  {
    var sent' := w.sent[e.Sequence() := e];
    assert Extends(w.sent, sent');
    AllInGrow(w.sent, sent', w.server.pending);
    AllInGrow(w.sent, sent', w.server.buf);
    AllInGrow(w.sent, sent', w.batch);
  }

  lemma SendKeeps(w: World, e: Entry)
    requires Inv(w) && Enabled(w, SendEntry(e))
    ensures Inv(Moved(w, SendEntry(e)))
  {
    SendLeader(w, e);
    var sent' := w.sent[e.Sequence() := e];
    var w1 := w.(sent := sent', log := w.log);
    GrowLinks(w, sent', w.log);
    GrowFollowers(w, sent', w.log);
    GrowNodes(w, sent', w.log);
    var s := w.server.(pending := w.server.pending + [e]);
    FanOutLinks(w1, s, EntryMsg(e));
    FanOutFollowers(w1, s, EntryMsg(e));
    SameParts(w1.(server := FanOut(s, EntryMsg(e))), Moved(w, SendEntry(e)));
  }

  /** The stream, follower and node parts do not look at the leader's counters. */
  lemma SameParts(a: World, b: World)
    requires a.server == b.server && a.links == b.links && a.nodes == b.nodes && a.log == b.log && a.sent == b.sent
    ensures LinksOk(a) ==> LinksOk(b)
    ensures FollowersOk(a) ==> FollowersOk(b)
    ensures NodesOk(a) ==> NodesOk(b)
  {
    assert forall id :: id in a.links && AcksOk(a, id) ==> AcksOk(b, id);
    assert forall n :: n in a.nodes && NodeOk(a, n) ==> NodeOk(b, n);
  }

  lemma {:induction false} AddAllAt(log: SeqMap, es: seq<Entry>, first: int)
    requires Consecutive(es, first)
    ensures forall s :: s in AddAll(log, es) <==> s in log || first <= s < first + |es|
    ensures forall s :: s in AddAll(log, es) ==>
              AddAll(log, es)[s] == if first <= s < first + |es| then es[s - first] else log[s]
  {
    if es != [] { AddAllAt(log, es[..|es| - 1], first); }
  }

  lemma {:induction false} SortedIn(sent: SeqMap, pending: seq<Entry>, buf: seq<Entry>, cap: nat, start: int, rev: int)
    requires AllIn(sent, pending) && AllIn(sent, buf)
    ensures var (keep, b) := Sorted(pending, buf, cap, start, rev); AllIn(sent, keep) && AllIn(sent, b)
  {
    if pending != [] { SortedIn(sent, pending[..|pending| - 1], buf, cap, start, rev); }
  }

  /** Only what the marker covers enters the replay buffer. */
  lemma {:induction false} SortedCommitted(log: SeqMap, pending: seq<Entry>, buf: seq<Entry>, cap: nat, start: int, rev: int)
    requires AllIn(log, buf)
    requires forall i :: 0 <= i < |pending| && start <= pending[i].Sequence() <= rev ==> Has(log, pending[i])
    ensures AllIn(log, Sorted(pending, buf, cap, start, rev).1)
  {
    if pending != [] { SortedCommitted(log, pending[..|pending| - 1], buf, cap, start, rev); }
  }

  /** The log after the batch: the old log below it, the broadcasts from it on. */
  lemma AddAllSent(log: SeqMap, sent: SeqMap, batch: seq<Entry>, first: int, s: int)
    requires Consecutive(batch, first) && AllIn(sent, batch)
    requires forall x :: x in log ==> x < first
    ensures var log' := AddAll(log, batch);
            && (s in log' <==> s in log || first <= s < first + |batch|)
            && (s in log' && s >= first ==> s in sent && log'[s] == sent[s])
            && (s in log' && s < first ==> s in log && log'[s] == log[s])
  {
    AddAllAt(log, batch, first);
    if first <= s < first + |batch| { assert Has(sent, batch[s - first]); }
  }

  lemma CommittedAt(w: World, s: int)
    requires LeaderOk(w) && w.batch != []
    ensures var log', first := AddAll(w.log, w.batch), w.batch[0].Sequence();
            && (s in log' <==> s in w.log || first <= s <= w.last)
            && (s in log' && s >= first ==> s in w.sent && log'[s] == w.sent[s])
            && (s in log' && s < first ==> s in w.log && log'[s] == w.log[s])
  {
    var first := w.batch[0].Sequence();
    assert w.batch[|w.batch| - 1].Sequence() == first + |w.batch| - 1;
    AddAllSent(w.log, w.sent, w.batch, first, s);
  }

  lemma BatchCovers(w: World)
    requires LeaderOk(w) && w.batch != []
    ensures var log' := AddAll(w.log, w.batch);
            && Appends(w.log, log') && Keyed(log', w.last) && Agree(w.sent, log')
            && (forall s :: s in w.sent && w.batch[0].Sequence() <= s ==> s in log' && log'[s] == w.sent[s])
            && (forall s :: s in w.aborted ==> s !in log')
  {
    var log', first := AddAll(w.log, w.batch), w.batch[0].Sequence();
    forall s | s in w.log ensures s in log' && log'[s] == w.log[s] { CommittedAt(w, s); }
    forall s | s in log' ensures log'[s].Sequence() == s && s <= w.last { CommittedAt(w, s); }
    forall s | s in w.sent && s in log' ensures w.sent[s] == log'[s] { CommittedAt(w, s); }
    forall s | s in w.sent && first <= s ensures s in log' { CommittedAt(w, s); }
    forall s | s in w.aborted ensures s !in log' { CommittedAt(w, s); }
    forall s, t | s in log' && s !in w.log && t in w.log ensures t < s { CommittedAt(w, s); }
  }

  lemma CommitLeader(w: World)
    requires LeaderOk(w) && w.batch != []
    ensures LeaderOk(Committing(w))
    ensures var log' := AddAll(w.log, w.batch);
            Appends(w.log, log') &&
            Sendable(w.sent, log', CommitMsg(w.batch[0].Sequence(), w.batch[|w.batch| - 1].Sequence()))
  {
    var start, rev := w.batch[0].Sequence(), w.batch[|w.batch| - 1].Sequence();
    var log' := AddAll(w.log, w.batch);
    BatchCovers(w);
    AllInGrow(w.log, log', w.server.buf);
    SortedIn(w.sent, w.server.pending, w.server.buf, w.server.cap, start, rev);
    SortedCommitted(log', w.server.pending, w.server.buf, w.server.cap, start, rev);
  }

  lemma CommitKeeps(w: World)
    requires Inv(w) && w.batch != []
    ensures Inv(Moved(w, Commit))
  {
    CommitLeader(w);
    var start, rev := w.batch[0].Sequence(), w.batch[|w.batch| - 1].Sequence();
    var log' := AddAll(w.log, w.batch);
    var w1 := w.(sent := w.sent, log := log');
    GrowLinks(w, w.sent, log');
    GrowFollowers(w, w.sent, log');
    GrowNodes(w, w.sent, log');
    var (keep, b) := Sorted(w.server.pending, w.server.buf, w.server.cap, start, rev);
    var s := w.server.(pending := keep, buf := b);
    FanOutLinks(w1, s, CommitMsg(start, rev));
    FanOutFollowers(w1, s, CommitMsg(start, rev));
    SameParts(w1.(server := FanOut(s, CommitMsg(start, rev))), Committing(w));
  }

  lemma {:induction false} SequencesOf(es: seq<Entry>, first: int)
    requires Consecutive(es, first)
    ensures forall s :: s in Sequences(es) <==> first <= s < first + |es|
  {
    if es != [] { SequencesOf(es[..|es| - 1], first); }
  }

  lemma AbortKeeps(w: World)
    requires Inv(w) && w.batch != []
    ensures Inv(Moved(w, Abort))
  {
    SequencesOf(w.batch, w.batch[0].Sequence());
    SameParts(w, Moved(w, Abort));
  }

  // ----------------------------------------------------------- the streams' steps

  lemma {:induction false} SnapshotEntries(es: seq<Entry>, n: nat)
    requires n <= |es|
    ensures EntriesOf(seq(n, i requires 0 <= i < n => EntryMsg(es[i]))) == es[..n]
  {
    var ms := seq(n, i requires 0 <= i < n => EntryMsg(es[i]));
    if n > 0 {
      SnapshotEntries(es, n - 1);
      assert ms[..n - 1] == seq(n - 1, i requires 0 <= i < n - 1 => EntryMsg(es[i]));
    }
  }

  lemma {:induction false} EntriesOnly(log: SeqMap, staged: seq<Entry>, ms: seq<Msg>)
    requires forall i :: 0 <= i < |ms| ==> ms[i].EntryMsg?
    ensures StreamOk(log, staged, ms)
  {
    if ms != [] { EntriesOnly(log, staged, ms[..|ms| - 1]); }
  }

  lemma SnapshotCarries(es: seq<Entry>)
    ensures EntriesOf(SnapshotMsgs(es)) == es
  {
    if es != [] {
      var ms := seq(|es|, i requires 0 <= i < |es| => EntryMsg(es[i]));
      var m := CommitMsg(es[0].Sequence(), es[|es| - 1].Sequence());
      SnapshotEntries(es, |es|);
      assert (ms + [m])[..|ms|] == ms;
    }
  }

  lemma SnapshotStream(log: SeqMap, es: seq<Entry>)
    requires AllIn(log, es)
    ensures StreamOk(log, [], SnapshotMsgs(es))
  {
    if es != [] {
      var ms := seq(|es|, i requires 0 <= i < |es| => EntryMsg(es[i]));
      SnapshotEntries(es, |es|);
      EntriesOnly(log, [], ms);
      assert [] + EntriesOf(ms) == es;
      StreamMore(log, [], ms, CommitMsg(es[0].Sequence(), es[|es| - 1].Sequence()));
    }
  }

  /** A snapshot of the replay buffer holds committed entries only. */
  lemma SnapshotOk(sent: SeqMap, log: SeqMap, es: seq<Entry>)
    requires AllIn(sent, es) && AllIn(log, es)
    ensures AllIn(sent, EntriesOf(SnapshotMsgs(es))) && StreamOk(log, [], SnapshotMsgs(es))
  {
    SnapshotCarries(es);
    SnapshotStream(log, es);
  }

  /** The leader part looks only at the leader's own fields. */
  lemma SameLeader(a: World, b: World)
    requires LeaderOk(a) && a.server.pending == b.server.pending && a.server.buf == b.server.buf
    requires a.(server := b.server, links := b.links, nodes := b.nodes) == b
    ensures LeaderOk(b)
  {
  }

  lemma SnapshotLink(w: World, from: int, n: nat, maxSent: int)
    requires LeaderOk(w) && Since(w.server.buf, from).Some?
    ensures LinkOk(w.sent, w.log, Link(n, SnapshotMsgs(Since(w.server.buf, from).value), maxSent, [], [], [], from), Chan([], false))
  {
    var snapshot := Since(w.server.buf, from).value;
    assert forall i :: 0 <= i < |snapshot| ==> snapshot[i] in w.server.buf;
    SnapshotOk(w.sent, w.log, snapshot);
    var l := Link(n, SnapshotMsgs(snapshot), maxSent, [], [], [], from);
    assert Stream(l, Chan([], false)) == SnapshotMsgs(snapshot);
  }

  lemma JoinLinks(w: World, n: nat, id: nat)
    requires LeaderOk(w) && LinksOk(w) && Enabled(w, Join(n, id))
    ensures LinksOk(Joined(w, n, id))
  {
    var w' := Joined(w, n, id);
    SnapshotLink(w, w.nodes[n].want, n, w'.links[id].maxSent);
    forall x | x in w'.links ensures LinkOk(w'.sent, w'.log, w'.links[x], w'.server.chans[x]) {
      assert x != id ==> LinkOk(w.sent, w.log, w.links[x], w.server.chans[x]);
    }
  }

  lemma JoinFollowers(w: World, n: nat, id: nat)
    requires FollowersOk(w) && Enabled(w, Join(n, id))
    ensures FollowersOk(Joined(w, n, id))
  {
    var w' := Joined(w, n, id);
    forall x | x in w'.links ensures AcksOk(w', x) {
      assert x != id ==> AcksOk(w, x);
    }
  }

  lemma JoinNodes(w: World, n: nat, id: nat)
    requires NodesOk(w) && Enabled(w, Join(n, id))
    ensures NodesOk(Joined(w, n, id))
  {
    var w' := Joined(w, n, id);
    forall m | m in w'.nodes ensures NodeOk(w', m) {
      assert NodeOk(w, m);
    }
  }

  lemma JoinKeeps(w: World, n: nat, id: nat)
    requires Inv(w) && Enabled(w, Join(n, id))
    ensures Inv(Moved(w, Join(n, id)))
  {
    JoinLinks(w, n, id);
    JoinFollowers(w, n, id);
    JoinNodes(w, n, id);
    SameLeader(w, Joined(w, n, id));
  }

  lemma WithLinkLinks(w: World, id: nat, l: Link, ch: Chan)
    requires LinksOk(w) && id in w.links && LinkOk(w.sent, w.log, l, ch)
    ensures LinksOk(WithLink(w, id, l, ch))
  {
  }

  lemma WithLinkFollowers(w: World, id: nat, l: Link, ch: Chan)
    requires FollowersOk(w) && id in w.links && l.node == w.links[id].node
    requires forall i :: 0 <= i < |l.ackNet| ==> l.ackNet[i] in w.links[id].ackNet
    ensures FollowersOk(WithLink(w, id, l, ch))
  {
    var w' := WithLink(w, id, l, ch);
    forall x | x in w'.links ensures AcksOk(w', x) {
      assert AcksOk(w, x);
    }
  }

  lemma WithLinkNodes(w: World, id: nat, l: Link, ch: Chan)
    requires NodesOk(w) && id in w.links && l.node == w.links[id].node
    ensures NodesOk(WithLink(w, id, l, ch))
  {
    var w' := WithLink(w, id, l, ch);
    forall m | m in w'.nodes ensures NodeOk(w', m) {
      assert NodeOk(w, m);
    }
  }

  lemma OneLink(w: World, id: nat, l: Link, ch: Chan)
    requires Inv(w) && id in w.links && l.node == w.links[id].node && LinkOk(w.sent, w.log, l, ch)
    requires forall i :: 0 <= i < |l.ackNet| ==> l.ackNet[i] in w.links[id].ackNet
    ensures Inv(WithLink(w, id, l, ch))
  {
    WithLinkLinks(w, id, l, ch);
    WithLinkFollowers(w, id, l, ch);
    WithLinkNodes(w, id, l, ch);
    SameLeader(w, WithLink(w, id, l, ch));
  }

  lemma AllInSubset(log: SeqMap, es: seq<Entry>, es': seq<Entry>)
    requires AllIn(log, es) && forall e :: e in es' ==> e in es
    ensures AllIn(log, es')
  {
    forall i | 0 <= i < |es'| ensures Has(log, es'[i]) {
      assert es'[i] in es;
    }
  }

  lemma SkipOk(sent: SeqMap, log: SeqMap, l: Link, ch: Chan)
    requires LinkOk(sent, log, l, ch) && l.snap == [] && ch.queue != []
    ensures LinkOk(sent, log, l, ch.(queue := ch.queue[1..]))
  {
    var m, ch' := ch.queue[0], ch.(queue := ch.queue[1..]);
    assert Stream(l, ch) == l.net + [m] + ch'.queue;
    assert Stream(l, ch') == l.net + ch'.queue;
    StreamSkip(log, l.staged, l.net, m, ch'.queue);
    SkipEntries(l.net, m, ch'.queue);
    AllInSubset(sent, EntriesOf(Stream(l, ch)), EntriesOf(Stream(l, ch')));
  }

  lemma SentOneOk(sent: SeqMap, log: SeqMap, l: Link, ch: Chan)
    requires LinkOk(sent, log, l, ch)
    ensures var (l', ch') := SentOne(l, ch); LinkOk(sent, log, l', ch') && l'.node == l.node && l'.ackNet == l.ackNet
  {
    var (l', ch') := SentOne(l, ch);
    if l.snap == [] && ch.queue != [] && l' == l {
      SkipOk(sent, log, l, ch);
    } else {
      assert Stream(l', ch') == Stream(l, ch);
    }
  }

  lemma ForwardKeeps(w: World, id: nat)
    requires Inv(w) && Enabled(w, Forward(id))
    ensures Inv(Moved(w, Forward(id)))
  {
    var (l, ch) := SentOne(w.links[id], w.server.chans[id]);
    SentOneOk(w.sent, w.log, w.links[id], w.server.chans[id]);
    OneLink(w, id, l, ch);
  }

  // --------------------------------------------------------- the followers' steps

  /** An accepted batch is a run of staged entries inside the marker's range, up
      to its end, and what stays staged is what came after it. */
  lemma AcceptedBatch(staged: seq<Entry>, from: int, start: int, rev: int)
    requires OnCommit(staged, from, start, rev).Batch?
    ensures var v, first := OnCommit(staged, from, start, rev), CommitStart(start, rev);
            && Consecutive(v.batch, first) && v.batch[|v.batch| - 1].Sequence() == rev
            && (forall i :: 0 <= i < |v.batch| ==> v.batch[i] in staged && first <= v.batch[i].Sequence() <= rev)
            && exists k: nat :: k <= |staged| && v.rest == staged[k..]
  {
    var v, first := OnCommit(staged, from, start, rev), CommitStart(start, rev);
    var c := CountBelow(staged, first);
    var left := staged[c..];
    var cut := CountBelow(left, rev + 1);
    CountBelowMeans(left, rev + 1);
    assert forall i :: 0 <= i < cut ==> left[i] == staged[c + i];
    assert left[cut..] == staged[c + cut..];
  }

  /** What a follower and its stream keep when a message is read. */
  ghost predicate Good(sent: SeqMap, log: SeqMap, f: Follower, l: Link, ch: Chan) {
    && LinkOk(sent, log, l, ch) && Faithful(log, f)
    && forall i :: 0 <= i < |l.ackNet| ==> Durably(log, f, l.ackNet[i])
  }

  lemma HeadOf(l: Link, ch: Chan)
    requires l.net != []
    ensures Stream(l, ch) == [l.net[0]] + Stream(l.(net := l.net[1..]), ch)
  {
  }

  lemma HeadEntries(m: Msg, rest: seq<Msg>)
    ensures forall e :: e in EntriesOf(rest) ==> e in EntriesOf([m] + rest)
    ensures m.EntryMsg? ==> m.e in EntriesOf([m] + rest)
  {
    EntriesOfAppend([m], rest);
    assert [m][..0] == [];
    assert m.EntryMsg? ==> EntriesOf([m]) == [m.e];
  }

  lemma ReadEntryLink(sent: SeqMap, log: SeqMap, l: Link, ch: Chan)
    requires LinkOk(sent, log, l, ch) && l.net != [] && l.net[0].EntryMsg?
    ensures LinkOk(sent, log, l.(net := l.net[1..], staged := l.staged + [l.net[0].e]), ch)
  {
    var m, rest := l.net[0], Stream(l.(net := l.net[1..]), ch);
    HeadOf(l, ch);
    HeadEntries(m, rest);
    StreamStage(log, l.staged, m.e, rest);
    AllInSubset(sent, EntriesOf(Stream(l, ch)), EntriesOf(rest));
    AllInSubset(sent, EntriesOf(Stream(l, ch)), [m.e]);
  }

  lemma ReadEntry(sent: SeqMap, log: SeqMap, f: Follower, l: Link, ch: Chan)
    requires Good(sent, log, f, l, ch) && l.net != [] && l.net[0].EntryMsg?
    ensures Good(sent, log, f, l.(net := l.net[1..], staged := l.staged + [l.net[0].e]), ch)
  {
    ReadEntryLink(sent, log, l, ch);
  }

  lemma ReadMarker(sent: SeqMap, log: SeqMap, f: Follower, l: Link, ch: Chan)
    requires Good(sent, log, f, l, ch) && l.net != [] && l.net[0].CommitMsg?
    ensures MarkerOk(log, l.staged, l.net[0]) && Good(sent, log, f, l.(net := l.net[1..]), ch)
  {
    var m, rest := l.net[0], Stream(l.(net := l.net[1..]), ch);
    HeadOf(l, ch);
    StreamPass(log, l.staged, m, rest);
    EntriesOfAppend([m], rest);
    AllInSubset(sent, EntriesOf(Stream(l, ch)), EntriesOf(rest));
  }

  lemma Unstaged(sent: SeqMap, log: SeqMap, f: Follower, l: Link, ch: Chan, k: nat)
    requires Good(sent, log, f, l, ch) && k <= |l.staged|
    ensures Good(sent, log, f, l.(staged := l.staged[k..]), ch)
  {
    StreamUnstage(log, l.staged, k, Stream(l, ch));
    assert Stream(l.(staged := l.staged[k..]), ch) == Stream(l, ch);
  }

  /** Committed, durable entries that continue the follower's log keep it faithful. */
  lemma FaithfulMore(log: SeqMap, f: Follower, batch: seq<Entry>)
    requires Faithful(log, f) && Consecutive(batch, Next(f)) && AllIn(log, batch)
    ensures Faithful(log, f.(applied := f.applied + batch, durable := f.durable + set e | e in batch))
  {
  }

  lemma DurableMore(sent: SeqMap, log: SeqMap, f: Follower, l: Link, ch: Chan, f': Follower, top: int)
    requires Good(sent, log, f, l, ch) && Faithful(log, f') && Continues(f, f') && Durably(log, f', top)
    ensures Good(sent, log, f', l, ch) && Good(sent, log, f', l.(ackNet := l.ackNet + [top]), ch)
  {
    assert Stream(l.(ackNet := l.ackNet + [top]), ch) == Stream(l, ch);
  }

  lemma BatchDurable(log: SeqMap, f: Follower, batch: seq<Entry>)
    requires batch != [] && AllIn(log, batch) && Faithful(log, f) && Consecutive(batch, Next(f))
    ensures var f' := f.(durable := f.durable + set e | e in batch);
            Faithful(log, f') && Faithful(log, f'.(applied := f.applied + batch)) &&
            Durably(log, f', batch[|batch| - 1].Sequence()) &&
            Durably(log, f'.(applied := f.applied + batch), batch[|batch| - 1].Sequence())
  {
    var f', top := f.(durable := f.durable + set e | e in batch), batch[|batch| - 1].Sequence();
    assert Has(log, batch[|batch| - 1]);
    forall s | s in log && f.base <= s <= top ensures log[s] in f'.durable {
      if s < Next(f) {
        assert f.applied[s - f.base].Sequence() == s;
      } else {
        assert batch[s - Next(f)].Sequence() == s;
      }
    }
  }

  /** f' continues f: it holds at least as much and reads the same stream or none. */
  ghost predicate Continues(f: Follower, f': Follower) {
    f'.base == f.base && f.durable <= f'.durable && f'.link in {f.link, None}
  }

  lemma TookBatchGood(sent: SeqMap, log: SeqMap, f: Follower, l: Link, ch: Chan, start: int, batch: seq<Entry>, k: nat,
                      walOk: bool, ackOk: bool, applyOk: bool)
    requires Good(sent, log, f, l, ch) && batch != [] && AllIn(log, batch) && k <= |l.staged|
    ensures var (f', l') := TookBatch(f, l, start, batch, l.staged[k..], walOk, ackOk, applyOk);
            Good(sent, log, f', l', ch) && Continues(f, f') && l'.node == l.node
  {
    var (f', l') := TookBatch(f, l, start, batch, l.staged[k..], walOk, ackOk, applyOk);
    if Consecutive(batch, Next(f)) && walOk {
      var top := batch[|batch| - 1].Sequence();
      BatchDurable(log, f, batch);
      Unstaged(sent, log, f, l, ch, k);
      var l1 := l.(staged := l.staged[k..]);
      DurableMore(sent, log, f, l, ch, f', top);
      DurableMore(sent, log, f, l1, ch, f', top);
      assert Stream(l', ch) == Stream(l, ch);
    }
  }

  lemma ReactedMarker(sent: SeqMap, log: SeqMap, f: Follower, l: Link, ch: Chan, m: Msg, walOk: bool, ackOk: bool, applyOk: bool)
    requires Good(sent, log, f, l, ch) && m.CommitMsg? && MarkerOk(log, l.staged, m)
    requires OnCommit(l.staged, l.from, m.start, m.rev).Batch?
    ensures var v := OnCommit(l.staged, l.from, m.start, m.rev);
            var (f', l') := TookBatch(f, l, CommitStart(m.start, m.rev), v.batch, v.rest, walOk, ackOk, applyOk);
            Good(sent, log, f', l', ch) && Continues(f, f') && l'.node == l.node
  {
    AcceptedBatch(l.staged, l.from, m.start, m.rev);
    BatchCommitted(log, l.staged, l.from, m);
    var v := OnCommit(l.staged, l.from, m.start, m.rev);
    var k: nat :| k <= |l.staged| && v.rest == l.staged[k..];
    TookBatchGood(sent, log, f, l, ch, CommitStart(m.start, m.rev), v.batch, k, walOk, ackOk, applyOk);
  }

  lemma ReactedGood(sent: SeqMap, log: SeqMap, f: Follower, l: Link, ch: Chan, walOk: bool, ackOk: bool, applyOk: bool)
    requires Good(sent, log, f, l, ch) && l.net != []
    ensures var (f', l') := Reacted(f, l, walOk, ackOk, applyOk);
            Good(sent, log, f', l', ch) && Continues(f, f') && l'.node == l.node
  {
    var m, l1 := l.net[0], l.(net := l.net[1..]);
    if m.EntryMsg? {
      ReadEntry(sent, log, f, l, ch);
    } else {
      ReadMarker(sent, log, f, l, ch);
      if OnCommit(l.staged, l.from, m.start, m.rev).Batch? {
        ReactedMarker(sent, log, f, l1, ch, m, walOk, ackOk, applyOk);
      }
    }
  }

  lemma BatchCommitted(log: SeqMap, staged: seq<Entry>, from: int, m: Msg)
    requires m.CommitMsg? && MarkerOk(log, staged, m) && OnCommit(staged, from, m.start, m.rev).Batch?
    ensures AllIn(log, OnCommit(staged, from, m.start, m.rev).batch)
  {
    AcceptedBatch(staged, from, m.start, m.rev);
  }

  /** w with one node and the link it reads replaced. */
  function WithNode(w: World, n: nat, f: Follower, id: nat, l: Link): (w': World) {
    w.(links := w.links[id := l], nodes := w.nodes[n := f])
  }

  lemma WithNodeLinks(w: World, n: nat, f: Follower, id: nat, l: Link)
    requires LinksOk(w) && id in w.links && LinkOk(w.sent, w.log, l, w.server.chans[id])
    ensures LinksOk(WithNode(w, n, f, id, l))
  {
  }

  lemma WithNodeFollowers(w: World, n: nat, f: Follower, id: nat, l: Link)
    requires FollowersOk(w) && n in w.nodes && id in w.links && w.links[id].node == n && l.node == n
    requires Continues(w.nodes[n], f) && forall i :: 0 <= i < |l.ackNet| ==> Durably(w.log, f, l.ackNet[i])
    ensures FollowersOk(WithNode(w, n, f, id, l))
  {
    var w' := WithNode(w, n, f, id, l);
    forall x | x in w'.links ensures AcksOk(w', x) {
      assert AcksOk(w, x);
    }
  }

  lemma WithNodeNodes(w: World, n: nat, f: Follower, id: nat, l: Link)
    requires NodesOk(w) && n in w.nodes && id in w.links && w.links[id].node == n && l.node == n
    requires Faithful(w.log, f) && (f.link.Some? ==> f.link == Some(id))
    ensures NodesOk(WithNode(w, n, f, id, l))
  {
    var w' := WithNode(w, n, f, id, l);
    forall x | x in w'.nodes ensures NodeOk(w', x) {
      assert NodeOk(w, x);
    }
  }

  lemma ReceiveKeeps(w: World, n: nat, walOk: bool, ackOk: bool, applyOk: bool)
    requires Inv(w) && Enabled(w, Receive(n, walOk, ackOk, applyOk))
    ensures Inv(Moved(w, Receive(n, walOk, ackOk, applyOk)))
  {
    var f, id := w.nodes[n], w.nodes[n].link.value;
    assert NodeOk(w, n) && AcksOk(w, id);
    var (f', l') := Reacted(f, w.links[id], walOk, ackOk, applyOk);
    ReactedGood(w.sent, w.log, f, w.links[id], w.server.chans[id], walOk, ackOk, applyOk);
    WithNodeLinks(w, n, f', id, l');
    WithNodeFollowers(w, n, f', id, l');
    WithNodeNodes(w, n, f', id, l');
    SameLeader(w, WithNode(w, n, f', id, l'));
  }

  // ------------------------------------------------------------- acks and resync

  lemma ShorterAcks(w: World, id: nat)
    requires Inv(w) && id in w.links && w.links[id].ackNet != []
    ensures Inv(w.(links := w.links[id := w.links[id].(ackNet := w.links[id].ackNet[1..])]))
  {
    var l, ch := w.links[id], w.server.chans[id];
    var l' := l.(ackNet := l.ackNet[1..]);
    assert Stream(l', ch) == Stream(l, ch);
    OneLink(w, id, l', ch);
    assert w.server.chans[id := ch] == w.server.chans;
  }

  lemma AckRecorded(w: World, id: nat, n: nat)
    requires FollowersOk(w) && id in w.links && w.links[id].ackNet != [] && n in AckTaken(w, id).server.acks
    ensures n in w.nodes && Durably(w.log, w.nodes[n], AckTaken(w, id).server.acks[n])
  {
    assert AcksOk(w, id);
  }

  lemma AckTakenIs(w: World, id: nat)
    requires id in w.links && w.links[id].ackNet != []
    ensures var w1 := w.(links := w.links[id := w.links[id].(ackNet := w.links[id].ackNet[1..])]);
            AckTaken(w, id) == w1.(server := w1.server.(acks := AckTaken(w, id).server.acks))
  {
  }

  lemma TakeAckKeeps(w: World, id: nat)
    requires Inv(w) && Enabled(w, TakeAck(id))
    ensures Inv(Moved(w, TakeAck(id)))
  {
    var l, acks := w.links[id], AckTaken(w, id).server.acks;
    var w1 := w.(links := w.links[id := l.(ackNet := l.ackNet[1..])]);
    AckTakenIs(w, id);
    ShorterAcks(w, id);
    forall n | n in acks ensures n in w.nodes && Durably(w.log, w.nodes[n], acks[n]) {
      AckRecorded(w, id, n);
    }
    NewAcks(w1, acks);
  }

  lemma NewAcks(w: World, acks: map<nat, int>)
    requires Inv(w) && forall n :: n in acks ==> n in w.nodes && Durably(w.log, w.nodes[n], acks[n])
    ensures Inv(w.(server := w.server.(acks := acks)))
  {
    var w' := w.(server := w.server.(acks := acks));
    forall x | x in w'.links ensures AcksOk(w', x) {
      assert AcksOk(w, x);
    }
    forall x | x in w'.nodes ensures NodeOk(w', x) {
      assert NodeOk(w, x);
    }
  }

  lemma EndKeeps(w: World, id: nat)
    requires Inv(w) && Enabled(w, EndStream(id))
    ensures Inv(Moved(w, EndStream(id)))
  {
    var w' := Moved(w, EndStream(id));
    forall x | x in w'.links ensures AcksOk(w', x) {
      assert AcksOk(w, x);
    }
    forall x | x in w'.nodes ensures NodeOk(w', x) {
      assert NodeOk(w, x);
    }
    SameLeader(w, w');
  }

  lemma {:induction false} RestoredRun(log: SeqMap, from: int, upTo: int, last: int)
    requires Keyed(log, last) && forall s :: from <= s <= upTo ==> s in log
    ensures Consecutive(Restored(log, from, upTo), from) && AllIn(log, Restored(log, from, upTo))
    ensures |Restored(log, from, upTo)| == if upTo < from then 0 else upTo - from + 1
    decreases upTo - from
  {
    if upTo >= from { RestoredRun(log, from, upTo - 1, last); }
  }

  /** w with a node that has no stream replaced. */
  lemma NodeAloneFollowers(w: World, n: nat, f: Follower)
    requires FollowersOk(w) && n in w.nodes && Continues(w.nodes[n], f)
    ensures FollowersOk(w.(nodes := w.nodes[n := f]))
  {
    var w' := w.(nodes := w.nodes[n := f]);
    forall x | x in w'.links ensures AcksOk(w', x) {
      assert AcksOk(w, x);
    }
  }

  lemma NodeAlone(w: World, n: nat, f: Follower)
    requires Inv(w) && n in w.nodes && Faithful(w.log, f) && f.link.None? && Continues(w.nodes[n], f)
    ensures Inv(w.(nodes := w.nodes[n := f]))
  {
    var w' := w.(nodes := w.nodes[n := f]);
    NodeAloneFollowers(w, n, f);
    SameLeader(w, w');
    forall x | x in w'.nodes ensures NodeOk(w', x) {
      assert NodeOk(w, x);
    }
  }

  lemma DisconnectKeeps(w: World, n: nat)
    requires Inv(w) && Enabled(w, Disconnect(n))
    ensures Inv(Moved(w, Disconnect(n)))
  {
    assert NodeOk(w, n);
    NodeAlone(w, n, Moved(w, Disconnect(n)).nodes[n]);
  }

  lemma ResyncKeeps(w: World, n: nat, upTo: int)
    requires Inv(w) && Enabled(w, Resync(n, upTo))
    ensures Inv(Moved(w, Resync(n, upTo)))
  {
    var f := w.nodes[n];
    assert NodeOk(w, n);
    RestoredRun(w.log, Next(f), upTo, w.last);
    FaithfulMore(w.log, f, Restored(w.log, Next(f), upTo));
    NodeAlone(w, n, Moved(w, Resync(n, upTo)).nodes[n]);
  }

  // ------------------------------------------------------------------- every run

  lemma StepKeeps(w: World, step: Step)
    requires Inv(w)
    ensures Inv(Moved(w, step))
  {
    if Enabled(w, step) {
      match step
      case SendEntry(e) => SendKeeps(w, e);
      case Commit => CommitKeeps(w);
      case Abort => AbortKeeps(w);
      case Join(n, id) => JoinKeeps(w, n, id);
      case Forward(id) => ForwardKeeps(w, id);
      case Receive(n, walOk, ackOk, applyOk) => ReceiveKeeps(w, n, walOk, ackOk, applyOk);
      case TakeAck(id) => TakeAckKeeps(w, id);
      case Disconnect(n) => DisconnectKeeps(w, n);
      case EndStream(id) => EndKeeps(w, id);
      case Resync(n, upTo) => ResyncKeeps(w, n, upTo);
    }
  }

  lemma {:induction false} RunKeeps(w: World, steps: seq<Step>)
    requires Inv(w)
    ensures Inv(After(w, steps))
  {
    if steps != [] {
      RunKeeps(w, steps[..|steps| - 1]);
      StepKeeps(After(w, steps[..|steps| - 1]), steps[|steps| - 1]);
    }
  }

  /** A new leader owns the sequences from startRev on, nothing is in flight, and
      every follower agrees with the log it starts from. */
  ghost predicate Start(w: World) {
    && w.links == map[] && w.server.chans == map[] && w.server.followers == map[] && w.server.acks == map[]
    && w.server.pending == [] && w.server.buf == [] && w.sent == map[] && w.aborted == {} && w.batch == []
    && Keyed(w.log, w.last)
    && forall n :: n in w.nodes ==> Faithful(w.log, w.nodes[n]) && w.nodes[n].link.None?
  }

  /** In every run under one leader each follower's log is gapless and holds the
      committed entry at every sequence. */
  lemma FollowersStayFaithful(w: World, steps: seq<Step>, n: nat)
    requires Start(w) && n in After(w, steps).nodes
    ensures Faithful(After(w, steps).log, After(w, steps).nodes[n])
  {
    RunKeeps(w, steps);
    assert NodeOk(After(w, steps), n);
  }

  /** An entry whose batch was given up is never applied by anyone. */
  lemma AbortedNeverApplied(w: World, steps: seq<Step>, n: nat, i: nat)
    requires Start(w) && n in After(w, steps).nodes && i < |After(w, steps).nodes[n].applied|
    ensures After(w, steps).nodes[n].applied[i].Sequence() !in After(w, steps).aborted
  {
    RunKeeps(w, steps);
    assert NodeOk(After(w, steps), n);
  }

  /** Whatever the server has recorded as acknowledged is durable at the node. */
  lemma AcksAreDurable(w: World, steps: seq<Step>, n: nat)
    requires Start(w) && n in After(w, steps).server.acks
    ensures var w' := After(w, steps);
            n in w'.nodes && Durably(w'.log, w'.nodes[n], w'.server.acks[n])
  {
    RunKeeps(w, steps);
  }

  /** The server's record of an ACK never falls, and only the stream registered for
      the node raises it, to the ACK it delivers. */
  ghost predicate AckRose(w: World, step: Step, n: nat)
    requires n in w.server.acks && n in Moved(w, step).server.acks
  {
    var before, now := w.server.acks[n], Moved(w, step).server.acks[n];
    && before <= now
    && (before < now ==>
          && step.TakeAck? && step.id in w.links && w.links[step.id].node == n && w.links[step.id].ackNet != []
          && n in w.server.followers && w.server.followers[n] == step.id && now == w.links[step.id].ackNet[0])
  }

  lemma AckOnlyRises(w: World, step: Step, n: nat)
    requires n in w.server.acks && n in Moved(w, step).server.acks
    ensures AckRose(w, step, n)
  {
  }

  /** While a node's ACK stays on record, it never falls. */
  lemma {:induction false} AcksNeverFall(w: World, steps: seq<Step>, n: nat)
    requires forall i :: 0 <= i <= |steps| ==> n in After(w, steps[..i]).server.acks
    ensures n in w.server.acks && n in After(w, steps).server.acks
    ensures w.server.acks[n] <= After(w, steps).server.acks[n]
  {
    assert steps[..0] == [] && steps[..|steps|] == steps;
    if steps != [] {
      var init := steps[..|steps| - 1];
      forall i | 0 <= i <= |init| ensures n in After(w, init[..i]).server.acks {
        assert init[..i] == steps[..i];
      }
      AcksNeverFall(w, init, n);
      AckOnlyRises(After(w, init), steps[|steps| - 1], n);
    }
  }
}

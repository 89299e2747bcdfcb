/** Runs of one leader and any number of followers, message by message. */
module Cluster {
  import opened Entries
  import opened Replication

  /** One Follow stream: what the server still has to send before the live
      channel, what is in flight in both directions, and the client's staging. */
  datatype Link = Link(node: nat, snap: seq<Msg>, maxSent: int, net: seq<Msg>, ackNet: seq<int>,
                       staged: seq<Entry>, from: int)

  /** A follower: the entries it has applied, of which the first has sequence
      base; what it holds durably; the sequence it will ask for; and the stream
      it reads, if any. */
  datatype Follower = Follower(base: int, applied: seq<Entry>, durable: set<Entry>, want: int, link: Option<nat>)

  /** The server and the network, with what was ever broadcast, what was ever
      committed, what was aborted, and the batch under way. */
  datatype World = World(server: Server, links: map<nat, Link>, nodes: map<nat, Follower>,
                         log: map<int, Entry>, sent: map<int, Entry>, aborted: set<int>,
                         batch: seq<Entry>, last: int)

  datatype Step =
    | SendEntry(e: Entry)
    | Commit
    | Abort
    | Join(n: nat, id: nat)
    | Forward(id: nat)
    | Receive(n: nat, walOk: bool, ackOk: bool, applyOk: bool)
    | TakeAck(id: nat)
    | Disconnect(n: nat)
    | EndStream(id: nat)
    | Resync(n: nat, upTo: int)

  function Next(f: Follower): (seqNo: int) {
    f.base + |f.applied|
  }

  // ---------------------------------------------------------------- the leader

  function Committing(w: World): (w': World)
    requires w.batch != []
  {
    var start, rev := w.batch[0].Sequence(), w.batch[|w.batch| - 1].Sequence();
    w.(server := BroadcastCommit(w.server, start, rev), log := AddAll(w.log, w.batch), batch := [])
  }

  function AddAll(log: map<int, Entry>, es: seq<Entry>): (log': map<int, Entry>) {
    if es == [] then log else AddAll(log, es[..|es| - 1])[es[|es| - 1].Sequence() := es[|es| - 1]]
  }

  function Sequences(es: seq<Entry>): (r: set<int>) {
    if es == [] then {} else Sequences(es[..|es| - 1]) + {es[|es| - 1].Sequence()}
  }

  // --------------------------------------------------------------- the streams

  function SnapshotMsgs(es: seq<Entry>): (ms: seq<Msg>) {
    if es == [] then []
    else seq(|es|, i requires 0 <= i < |es| => EntryMsg(es[i])) + [CommitMsg(es[0].Sequence(), es[|es| - 1].Sequence())]
  }

  predicate CanJoin(s: Server, from: int) {
    !(s.startRev > 0 && from < s.startRev) && Since(s.buf, from).Some?
  }

  /** Follow: snapshot and channel registration are one step under the lock. */
  function Joined(w: World, n: nat, id: nat): (w': World)
    requires n in w.nodes && CanJoin(w.server, w.nodes[n].want)
  {
    var from := w.nodes[n].want;
    var snapshot := Since(w.server.buf, from).value;
    var maxSent := if snapshot == [] then from - 1 else snapshot[|snapshot| - 1].Sequence();
    w.(server := w.server.(followers := w.server.followers[n := id], chans := w.server.chans[id := Chan([], false)]),
       links := w.links[id := Link(n, SnapshotMsgs(snapshot), maxSent, [], [], [], from)],
       nodes := w.nodes[n := w.nodes[n].(link := Some(id))])
  }

  /** One turn of the server's send loop: the snapshot first, then the channel,
      where entries the snapshot already covered are skipped. */
  function SentOne(l: Link, ch: Chan): (r: (Link, Chan)) {
    if l.snap != [] then (l.(snap := l.snap[1..], net := l.net + [l.snap[0]]), ch)
    else if ch.queue == [] then (l, ch)
    else
      var m, ch' := ch.queue[0], ch.(queue := ch.queue[1..]);
      if m.EntryMsg? && m.e.Sequence() <= l.maxSent then (l, ch')
      else (l.(net := l.net + [m], maxSent := if m.EntryMsg? then m.e.Sequence() else l.maxSent), ch')
  }

  /** w with one link and its channel replaced. */
  function WithLink(w: World, id: nat, l: Link, ch: Chan): (w': World) {
    w.(links := w.links[id := l], server := w.server.(chans := w.server.chans[id := ch]))
  }

  function Forwarded(w: World, id: nat): (w': World)
    requires id in w.links && id in w.server.chans
  {
    var (l, ch) := SentOne(w.links[id], w.server.chans[id]);
    WithLink(w, id, l, ch)
  }

  // --------------------------------------------------------------- the followers

  /** The node takes a committed batch in. Appending to the WAL, sending the ACK
      and applying may each fail; a failure ends the stream. */
  function TookBatch(f: Follower, l: Link, start: int, batch: seq<Entry>, left: seq<Entry>,
                     walOk: bool, ackOk: bool, applyOk: bool): (r: (Follower, Link))
    requires batch != []
  {
    var top := batch[|batch| - 1].Sequence();
    if !Consecutive(batch, Next(f)) || !walOk then (f.(link := None, want := start), l)
    else
      var from := if top + 1 > l.from then top + 1 else l.from;
      var f' := f.(durable := f.durable + set e | e in batch);
      if !ackOk then (f'.(link := None, want := from), l)
      else
        var l' := l.(ackNet := l.ackNet + [top], staged := left, from := from);
        if !applyOk then (f'.(link := None, want := from), l') else (f'.(applied := f.applied + batch), l')
  }

  /** The node reads the first message of its stream. */
  function Reacted(f: Follower, l: Link, walOk: bool, ackOk: bool, applyOk: bool): (r: (Follower, Link))
    requires l.net != []
  {
    var m, l' := l.net[0], l.(net := l.net[1..]);
    match m
    case EntryMsg(e) => (f, l'.(staged := l.staged + [e]))
    case CommitMsg(start, rev) =>
      match OnCommit(l.staged, l.from, start, rev)
      case Ignored => (f, l')
      case Gap => (f.(link := None, want := l.from), l')
      case Batch(batch, left) => TookBatch(f, l', CommitStart(start, rev), batch, left, walOk, ackOk, applyOk)
  }

  function Received(w: World, n: nat, walOk: bool, ackOk: bool, applyOk: bool): (w': World)
    requires n in w.nodes && w.nodes[n].link.Some?
    requires w.nodes[n].link.value in w.links && w.links[w.nodes[n].link.value].net != []
  {
    var f, id := w.nodes[n], w.nodes[n].link.value;
    var (f', l') := Reacted(f, w.links[id], walOk, ackOk, applyOk);
    w.(links := w.links[id := l'], nodes := w.nodes[n := f'])
  }

  function AckTaken(w: World, id: nat): (w': World)
    requires id in w.links && w.links[id].ackNet != []
  {
    var l, s := w.links[id], w.server;
    var r := l.ackNet[0];
    var live := l.node in s.followers && s.followers[l.node] == id;
    var known := if l.node in s.acks then s.acks[l.node] else 0;
    w.(links := w.links[id := l.(ackNet := l.ackNet[1..])],
       server := if live && r > known then s.(acks := s.acks[l.node := r]) else s)
  }

  /** The server's side of a stream returns. */
  function Ended(s: Server, n: nat, id: nat): (s': Server) {
    if n in s.followers && s.followers[n] == id then s.(followers := s.followers - {n}, acks := s.acks - {n}) else s
  }

  /** Restoring from the archive: the committed entries up to upTo, if none is missing. */
  function Restored(log: map<int, Entry>, from: int, upTo: int): (es: seq<Entry>)
    requires forall s :: from <= s <= upTo ==> s in log
    decreases upTo - from
  {
    if upTo < from then [] else Restored(log, from, upTo - 1) + [log[upTo]]
  }

  ghost predicate Enabled(w: World, step: Step) {
    match step
    case SendEntry(e) => e.Sequence() > w.last && (w.batch != [] ==> e.Sequence() == w.last + 1)
    case Commit => w.batch != []
    case Abort => w.batch != []
    case Join(n, id) => n in w.nodes && w.nodes[n].link.None? && id !in w.links && CanJoin(w.server, w.nodes[n].want)
    case Forward(id) => id in w.links && id in w.server.chans
    case Receive(n, _, _, _) =>
      n in w.nodes && w.nodes[n].link.Some? && w.nodes[n].link.value in w.links && w.links[w.nodes[n].link.value].net != []
    case TakeAck(id) => id in w.links && w.links[id].ackNet != []
    case Disconnect(n) => n in w.nodes && w.nodes[n].link.Some? && w.nodes[n].link.value in w.links
    case EndStream(id) => id in w.links
    case Resync(n, upTo) =>
      n in w.nodes && w.nodes[n].link.None? && forall s :: Next(w.nodes[n]) <= s <= upTo ==> s in w.log
  }

  /** A step that is not possible now changes nothing. */
  ghost function Moved(w: World, step: Step): (w': World) {
    if !Enabled(w, step) then w
    else
      match step
      case SendEntry(e) =>
        w.(server := Broadcast(w.server, e), sent := w.sent[e.Sequence() := e], batch := w.batch + [e], last := e.Sequence())
      case Commit => Committing(w)
      case Abort => w.(aborted := w.aborted + Sequences(w.batch), batch := [])
      case Join(n, id) => Joined(w, n, id)
      case Forward(id) => Forwarded(w, id)
      case Receive(n, walOk, ackOk, applyOk) => Received(w, n, walOk, ackOk, applyOk)
      case TakeAck(id) => AckTaken(w, id)
      case Disconnect(n) =>
        var f := w.nodes[n];
        w.(nodes := w.nodes[n := f.(link := None, want := w.links[f.link.value].from)])
      case EndStream(id) => w.(server := Ended(w.server, w.links[id].node, id))
      case Resync(n, upTo) =>
        var f := w.nodes[n];
        var es := Restored(w.log, Next(f), upTo);
        var f' := f.(applied := f.applied + es, durable := f.durable + set e | e in es);
        w.(nodes := w.nodes[n := f'.(want := Next(f'))])
  }

  ghost function After(w: World, steps: seq<Step>): (w': World) {
    if steps == [] then w else Moved(After(w, steps[..|steps| - 1]), steps[|steps| - 1])
  }

  // --------------------------------------------------------------- what is promised

  predicate Has(log: map<int, Entry>, e: Entry) {
    e.Sequence() in log && log[e.Sequence()] == e
  }

  /** A follower's log is gapless, is the committed one at every sequence, and is
      held durably. */
  predicate Faithful(log: map<int, Entry>, f: Follower) {
    && (forall i :: 0 <= i < |f.applied| ==> f.applied[i].Sequence() == f.base + i && Has(log, f.applied[i]))
    && (forall i :: 0 <= i < |f.applied| ==> f.applied[i] in f.durable)
  }

  /** The follower durably holds every committed entry up to ack that is not part
      of the state it started from. */
  ghost predicate Durably(log: map<int, Entry>, f: Follower, ack: int) {
    ack in log && forall s :: s in log && f.base <= s <= ack ==> log[s] in f.durable
  }
}

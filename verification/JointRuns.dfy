/** The leader's write pipeline and the replication of its log, run together: the
    commit loop takes a batch off the queue, broadcasts its entries, commits it
    and applies it, while requests arrive and the network moves. */
module JointRuns {
  import opened Entries
  import opened Mvcc
  import opened Serial
  import opened Pipeline
  import C = Cluster
  import P = ClusterProofs
  import ReadIndex

  /** committed: the batch the pipeline holds has been committed to the followers. */
  datatype Joint = Joint(w: C.World, p: Pipe, committed: bool)

  datatype Move =
    | Ask(req: Request)
    | TakeBatch(n: nat)
    | SendNext
    | CommitBatch
    | ApplyBatch
    | ClearBatch
    | SettleOne(i: nat)
    /** A step of the network, of a follower or of the server's streams. */
    | Net(step: C.Step)

  predicate OfLeader(step: C.Step) {
    step.SendEntry? || step.Commit? || step.Abort?
  }

  /** The commit loop holds a batch that is still being sent. */
  predicate Sending(j: Joint) {
    j.p.stage.Taken? && !j.committed
  }

  /** A move that is not possible now changes nothing. */
  ghost function Moved(j: Joint, m: Move): (j': Joint) {
    match m
    case Ask(req) => j.(p := Next(j.p, Submit(req)))
    case TakeBatch(n) =>
      if j.p.stage.Idle? then Joint(j.w, Next(j.p, Take(n)), false) else j
    case SendNext =>
      if Sending(j) && |j.w.batch| < |j.p.stage.batch|
      then j.(w := C.Moved(j.w, C.SendEntry(j.p.stage.batch[|j.w.batch|]))) else j
    case CommitBatch =>
      if Sending(j) && |j.w.batch| == |j.p.stage.batch| > 0 then Joint(C.Moved(j.w, C.Commit), j.p, true) else j
    case ApplyBatch => if j.p.stage.Taken? && j.committed then j.(p := Next(j.p, Apply)) else j
    case ClearBatch => j.(p := Next(j.p, Clear))
    case SettleOne(i) => j.(p := Next(j.p, Settle(i)))
    case Net(step) => if OfLeader(step) then j else j.(w := C.Moved(j.w, step))
  }

  ghost function After(j: Joint, moves: seq<Move>): (j': Joint) {
    if moves == [] then j else Moved(After(j, moves[..|moves| - 1]), moves[|moves| - 1])
  }

  ghost predicate Sound(j: Joint, m: Move) {
    m.Ask? ==> !Leaks(NodeDecision(j.p, m.req))
  }

  /** No move deletes the empty key by a plain delete while it is live. */
  ghost predicate SoundRun(j: Joint, moves: seq<Move>) {
    moves == [] ||
    (SoundRun(j, moves[..|moves| - 1]) && Sound(After(j, moves[..|moves| - 1]), moves[|moves| - 1]))
  }

  // ------------------------------------------------------------- the coupling

  /** The entries that are committed to the followers. */
  function Committed(j: Joint): (es: seq<Entry>) {
    if j.p.stage.Taken? && j.committed then j.p.applied + j.p.stage.batch else j.p.applied
  }

  /** The leader's log carries the sequences from first on. */
  ghost predicate Numbered(p: Pipe, first: int) {
    first >= 1 && Consecutive(Hist(p), first) && p.nextSeq == first + |Hist(p)| - 1
  }

  /** From first on, the replicated log is what the pipeline has committed. */
  ghost predicate LogIs(log: map<int, Entry>, es: seq<Entry>, first: int) {
    forall s :: s in log && s >= first ==> s < first + |es| && log[s] == es[s - first]
  }

  ghost predicate Based(w: C.World, first: int, end: int) {
    forall n :: n in w.nodes ==> first <= w.nodes[n].base <= end
  }

  ghost predicate Coupled(j: Joint, first: int) {
    && LogIs(j.w.log, Committed(j), first) && Based(j.w, first, first + |Committed(j)|)
    && j.w.last + 1 == first + |Committed(j)| + |j.w.batch|
    && (if Sending(j) then |j.w.batch| <= |j.p.stage.batch| && j.w.batch == j.p.stage.batch[..|j.w.batch|]
        else j.w.batch == [])
  }

  ghost predicate JointInv(j: Joint, first: int) {
    Inv(j.p) && P.Inv(j.w) && Numbered(j.p, first) && Coupled(j, first)
  }

  /** j' is still coupled, and the leader's log has only grown. */
  ghost predicate Kept(j: Joint, j': Joint, first: int) {
    JointInv(j', first) && Hist(j.p) <= Hist(j'.p)
  }

  // -------------------------------------------------- the pipeline's own moves

  lemma EntryNumbered(p: Pipe, req: Request)
    ensures NodeDecision(p, req).entry.Some? ==> NodeDecision(p, req).entry.value.id == p.nextSeq + 1
  {
    DecidedNumbers(p.term, Overlay(ViewOf(p.applied), p.pending), p.nextRev + 1, p.nextSeq + 1, req);
  }

  lemma NumberedAppend(p: Pipe, p': Pipe, first: int, entry: Option<Entry>)
    requires Numbered(p, first) && LogOf(p') == Append(LogOf(p), entry)
    requires entry.Some? ==> entry.value.id == p.nextSeq + 1
    ensures Numbered(p', first)
  {
    assert Hist(p') == LogOf(p').entries && Hist(p) == LogOf(p).entries;
  }

  lemma NumberedMore(p: Pipe, first: int, req: Request)
    requires Inv(p) && Numbered(p, first) && !Leaks(NodeDecision(p, req))
    ensures Numbered(Submitted(p, req), first)
  {
    SubmitAppends(p, req);
    EntryNumbered(p, req);
    NumberedAppend(p, Submitted(p, req), first, NodeDecision(p, req).entry);
  }

  lemma AskGrows(p: Pipe, req: Request)
    requires Inv(p) && !Leaks(NodeDecision(p, req))
    ensures Hist(p) <= Hist(Submitted(p, req))
  {
    SubmitKeeps(p, req);
  }

  lemma AskKeeps(j: Joint, first: int, req: Request)
    requires JointInv(j, first) && Sound(j, Ask(req))
    ensures Kept(j, Moved(j, Ask(req)), first)
  {
    StepKeeps(j.p, Submit(req));
    AskGrows(j.p, req);
    NumberedMore(j.p, first, req);
    AskPosition(j, first, req);
  }

  lemma AskPosition(j: Joint, first: int, req: Request)
    requires Coupled(j, first)
    ensures Coupled(Moved(j, Ask(req)), first)
  {
    assert Submitted(j.p, req).applied == j.p.applied && Submitted(j.p, req).stage == j.p.stage;
  }

  lemma TakePosition(j: Joint, first: int, n: nat)
    requires Coupled(j, first)
    ensures Coupled(Moved(j, TakeBatch(n)), first)
  {
  }

  lemma ApplyPosition(j: Joint, first: int)
    requires Coupled(j, first)
    ensures Coupled(Moved(j, ApplyBatch), first)
  {
  }

  lemma ClearPosition(j: Joint, first: int, m: Move)
    requires Coupled(j, first) && (m.ClearBatch? || m.SettleOne?)
    ensures Coupled(Moved(j, m), first)
  {
  }

  lemma SameNumbers(p: Pipe, step: Pipeline.Step, first: int)
    requires Inv(p) && Numbered(p, first) && !step.Submit?
    ensures Inv(Next(p, step)) && Hist(Next(p, step)) == Hist(p) && Numbered(Next(p, step), first)
  {
    StepKeeps(p, step);
  }

  lemma TakeKeepsJoint(j: Joint, first: int, n: nat)
    requires JointInv(j, first)
    ensures Kept(j, Moved(j, TakeBatch(n)), first)
  {
    SameNumbers(j.p, Take(n), first);
    TakePosition(j, first, n);
  }

  lemma ApplyKeepsJoint(j: Joint, first: int)
    requires JointInv(j, first)
    ensures Kept(j, Moved(j, ApplyBatch), first)
  {
    SameNumbers(j.p, Apply, first);
    ApplyPosition(j, first);
  }

  lemma ClearKeepsJoint(j: Joint, first: int)
    requires JointInv(j, first)
    ensures Kept(j, Moved(j, ClearBatch), first)
  {
    SameNumbers(j.p, Clear, first);
    ClearPosition(j, first, ClearBatch);
  }

  lemma SettleKeepsJoint(j: Joint, first: int, i: nat)
    requires JointInv(j, first)
    ensures Kept(j, Moved(j, SettleOne(i)), first)
  {
    SameNumbers(j.p, Settle(i), first);
    ClearPosition(j, first, SettleOne(i));
  }

  // ------------------------------------------------------- the leader's sends

  /** The next entry of the batch carries the next sequence. */
  lemma NextToSend(j: Joint, first: int)
    requires Numbered(j.p, first) && Coupled(j, first) && Sending(j) && |j.w.batch| < |j.p.stage.batch|
    ensures j.p.stage.batch[|j.w.batch|].Sequence() == j.w.last + 1
  {
    assert Hist(j.p)[|j.p.applied| + |j.w.batch|] == j.p.stage.batch[|j.w.batch|];
  }

  lemma SendPosition(j: Joint, first: int)
    requires Numbered(j.p, first) && Coupled(j, first)
    ensures Coupled(Moved(j, SendNext), first)
  {
    if Sending(j) && |j.w.batch| < |j.p.stage.batch| {
      var e := j.p.stage.batch[|j.w.batch|];
      NextToSend(j, first);
      assert C.Enabled(j.w, C.SendEntry(e));
      assert j.w.batch + [e] == j.p.stage.batch[..|j.w.batch| + 1];
    }
  }

  lemma SendKeeps(j: Joint, first: int)
    requires JointInv(j, first)
    ensures Kept(j, Moved(j, SendNext), first)
  {
    SendPosition(j, first);
    if Sending(j) && |j.w.batch| < |j.p.stage.batch| {
      P.StepKeeps(j.w, C.SendEntry(j.p.stage.batch[|j.w.batch|]));
    }
  }

  lemma LogIsWith(log: map<int, Entry>, log': map<int, Entry>, es: seq<Entry>, batch: seq<Entry>, first: int)
    requires LogIs(log, es, first)
    requires forall s :: s in log' <==> s in log || first + |es| <= s < first + |es| + |batch|
    requires forall s :: s in log' ==>
               log'[s] == if first + |es| <= s < first + |es| + |batch| then batch[s - (first + |es|)] else log[s]
    ensures LogIs(log', es + batch, first)
  {
  }

  lemma LogIsMore(log: map<int, Entry>, es: seq<Entry>, batch: seq<Entry>, first: int)
    requires LogIs(log, es, first) && Consecutive(batch, first + |es|)
    ensures LogIs(C.AddAll(log, batch), es + batch, first)
  {
    P.AddAllAt(log, batch, first + |es|);
    LogIsWith(log, C.AddAll(log, batch), es, batch, first);
  }

  lemma CommitPosition(j: Joint, first: int)
    requires Numbered(j.p, first) && Coupled(j, first)
    ensures Coupled(Moved(j, CommitBatch), first)
  {
    if Sending(j) && |j.w.batch| == |j.p.stage.batch| > 0 {
      assert j.w.batch == j.p.stage.batch;
      forall i | 0 <= i < |j.w.batch| ensures j.w.batch[i].Sequence() == first + |j.p.applied| + i {
        assert Hist(j.p)[|j.p.applied| + i] == j.w.batch[i];
      }
      LogIsMore(j.w.log, j.p.applied, j.w.batch, first);
      assert Moved(j, CommitBatch).w == C.Committing(j.w);
    }
  }

  lemma CommitKeeps(j: Joint, first: int)
    requires JointInv(j, first)
    ensures Kept(j, Moved(j, CommitBatch), first)
  {
    CommitPosition(j, first);
    P.StepKeeps(j.w, C.Commit);
  }

  lemma NetFrame(w: C.World, step: C.Step)
    requires !OfLeader(step)
    ensures var w' := C.Moved(w, step);
            && w'.log == w.log && w'.last == w.last && w'.batch == w.batch && w'.nodes.Keys == w.nodes.Keys
            && forall n :: n in w.nodes ==> w'.nodes[n].base == w.nodes[n].base
  {
  }

  lemma NetPosition(j: Joint, first: int, step: C.Step)
    requires Coupled(j, first)
    ensures Coupled(Moved(j, Net(step)), first)
  {
    if !OfLeader(step) {
      NetFrame(j.w, step);
    }
  }

  lemma NetKeeps(j: Joint, first: int, step: C.Step)
    requires JointInv(j, first)
    ensures Kept(j, Moved(j, Net(step)), first)
  {
    NetPosition(j, first, step);
    P.StepKeeps(j.w, step);
  }

  // ------------------------------------------------------------------ every run

  lemma MoveKeeps(j: Joint, first: int, m: Move)
    requires JointInv(j, first) && Sound(j, m)
    ensures Kept(j, Moved(j, m), first)
  {
    match m
    case Ask(req) => AskKeeps(j, first, req);
    case SendNext => SendKeeps(j, first);
    case CommitBatch => CommitKeeps(j, first);
    case Net(step) => NetKeeps(j, first, step);
    case TakeBatch(n) => TakeKeepsJoint(j, first, n);
    case ApplyBatch => ApplyKeepsJoint(j, first);
    case ClearBatch => ClearKeepsJoint(j, first);
    case SettleOne(i) => SettleKeepsJoint(j, first, i);
  }

  lemma {:induction false} RunKeeps(j: Joint, first: int, moves: seq<Move>)
    requires JointInv(j, first) && SoundRun(j, moves)
    ensures JointInv(After(j, moves), first) && Hist(j.p) <= Hist(After(j, moves).p)
  {
    if moves != [] {
      RunKeeps(j, first, moves[..|moves| - 1]);
      MoveKeeps(After(j, moves[..|moves| - 1]), first, moves[|moves| - 1]);
    }
  }

  /** A new leader: its log carries the sequences from first on and is the log the
      followers start from; nothing is taken or in flight. */
  ghost predicate Start(j: Joint, first: int) {
    && Inv(j.p) && Numbered(j.p, first) && !j.p.stage.Taken?
    && P.Start(j.w) && j.w.last + 1 == first + |j.p.applied| && LogIs(j.w.log, j.p.applied, first)
    && Based(j.w, first, first + |j.p.applied|)
  }

  lemma StartInv(j: Joint, first: int)
    requires Start(j, first)
    ensures JointInv(j, first)
  {
  }

  // -------------------------------------------------------- reading at a follower

  /** What follower n has applied, with the state it started from. */
  ghost function LogAt(j: Joint, first: int, n: nat): (es: seq<Entry>)
    requires n in j.w.nodes && first <= j.w.nodes[n].base <= first + |Hist(j.p)|
  {
    Hist(j.p)[..j.w.nodes[n].base - first] + j.w.nodes[n].applied
  }

  lemma AppliedIsCommitted(log: map<int, Entry>, f: C.Follower, es: seq<Entry>, first: int)
    requires C.Faithful(log, f) && LogIs(log, es, first) && first <= f.base <= first + |es|
    ensures es[..f.base - first] + f.applied <= es
  {
    forall i | 0 <= i < |f.applied|
      ensures f.base - first + i < |es| && f.applied[i] == es[f.base - first + i]
    {
      assert C.Has(log, f.applied[i]);
    }
    if f.applied != [] {
      assert C.Has(log, f.applied[|f.applied| - 1]);
    }
  }

  lemma CommittedIsPrefix(j: Joint)
    ensures Committed(j) <= Hist(j.p)
  {
  }

  lemma PrefixFrom(j: Joint, first: int, n: nat)
    requires n in j.w.nodes && C.Faithful(j.w.log, j.w.nodes[n]) && LogIs(j.w.log, Committed(j), first)
    requires first <= j.w.nodes[n].base <= first + |Committed(j)|
    ensures j.w.nodes[n].base <= first + |Hist(j.p)| && LogAt(j, first, n) <= Committed(j) <= Hist(j.p)
  {
    CommittedIsPrefix(j);
    var f, es := j.w.nodes[n], Committed(j);
    AppliedIsCommitted(j.w.log, f, es, first);
    assert Hist(j.p)[..f.base - first] == es[..f.base - first];
  }

  /** A follower's log is a prefix of the committed one. */
  lemma FollowerHasPrefix(j: Joint, first: int, n: nat)
    requires JointInv(j, first) && n in j.w.nodes
    ensures first <= j.w.nodes[n].base <= first + |Hist(j.p)|
    ensures LogAt(j, first, n) <= Committed(j) <= Hist(j.p)
  {
    assert P.NodeOk(j.w, n);
    PrefixFrom(j, first, n);
  }

  /** The leader answers a read index, and pipeline and network go on in any way.
      A follower that has applied up to the answer holds, at the same position,
      every data entry assigned before it, so every acknowledged one, and its state
      at every revision up to the answer is the leader's. */
  lemma FollowerReadsAreCurrent(j0: Joint, first: int, before: seq<Move>, moves: seq<Move>, n: nat)
    requires Start(j0, first) && SoundRun(j0, before) && SoundRun(After(j0, before), moves)
    requires n in After(After(j0, before), moves).w.nodes
    ensures var j, j' := After(j0, before), After(After(j0, before), moves);
            && first <= j'.w.nodes[n].base <= first + |Hist(j'.p)|
            && (CurrentRev(LogAt(j', first, n)) >= j.p.nextRev ==>
                  && (forall i :: 0 <= i < |Hist(j.p)| && IsData(Hist(j.p)[i]) ==>
                        i < |LogAt(j', first, n)| && LogAt(j', first, n)[i] == Hist(j.p)[i])
                  && (forall rev :: rev <= j.p.nextRev ==>
                        ViewAt(LogAt(j', first, n), rev) == ViewAt(Hist(j'.p), rev)))
  {
    StartInv(j0, first);
    RunKeeps(j0, first, before);
    var j := After(j0, before);
    RunKeeps(j, first, moves);
    var j' := After(j, moves);
    FollowerHasPrefix(j', first, n);
    if CurrentRev(LogAt(j', first, n)) >= j.p.nextRev {
      ReadIndex.ReachedIsCurrent(j.p, Hist(j'.p), LogAt(j', first, n));
    }
  }
}

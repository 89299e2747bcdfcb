/** Leader election by compare-and-swap on one object: a conditional PUT as in
    sections 13.1.1 and 13.1.2 of RFC 9110 replaces the lock only if it still is
    what the writer has read. */
module Election {
  import opened Entries

  datatype LockRecord = LockRecord(node: nat, term: int, addr: nat, lastSeen: int, committedRev: int)

  const TERMS := 0x1_0000_0000_0000_0000
  const MAX_TERM := TERMS - 1

  // ----------------------------------------------------------- the decisions

  datatype Kind = TryAcquire | TakeOver

  /** The next term in unsigned 64-bit arithmetic. */
  function NewTerm(cur: Option<LockRecord>, floorTerm: int): (term: int) {
    var t := (floorTerm + 1) % TERMS;
    if cur.Some? && cur.value.term >= t then (cur.value.term + 1) % TERMS else t
  }

  /** A candidate backs off from another owner: always when acquiring at startup;
      when taking over, if that owner has a later term or more committed. */
  predicate BacksOff(kind: Kind, me: nat, cur: Option<LockRecord>, floorTerm: int, committedRev: int) {
    cur.Some? && cur.value.node != me &&
    (kind == TryAcquire || cur.value.term > floorTerm || cur.value.committedRev > committedRev)
  }

  /** A new term exceeds the one read exactly when that was not the last term. */
  lemma NewTermAbove(cur: LockRecord, floorTerm: int)
    requires 0 <= cur.term <= MAX_TERM && 0 <= floorTerm <= MAX_TERM
    ensures NewTerm(Some(cur), floorTerm) > cur.term <==> cur.term < MAX_TERM
    ensures 0 <= NewTerm(Some(cur), floorTerm) <= MAX_TERM
    ensures cur.term < MAX_TERM && floorTerm < MAX_TERM ==>
              NewTerm(Some(cur), floorTerm) == 1 + if cur.term > floorTerm then cur.term else floorTerm
  {
  }

  /** It also exceeds every term seen before, unless one of the two was the last. */
  lemma NewTermAboveFloor(cur: Option<LockRecord>, floorTerm: int)
    requires cur.Some? ==> 0 <= cur.value.term <= MAX_TERM
    requires 0 <= floorTerm <= MAX_TERM
    ensures NewTerm(cur, floorTerm) > floorTerm <==>
            if cur.Some? && cur.value.term > floorTerm then cur.value.term < MAX_TERM else floorTerm < MAX_TERM
  {
  }

  // ------------------------------------------------------------ the lock object

  datatype PutResult = Ok | PreconditionFailed

  /** Reading the lock may fail. */
  datatype LockRead = ReadFailed | ReadOk(cur: Option<LockRecord>)

  /** A conditional write may be answered, or its request or its answer be lost. */
  datatype Delivery = Answered | RequestLost | AnswerLost

  predicate Names(r: Option<LockRecord>, node: nat, term: int) {
    r.Some? && r.value.term == term && r.value.node == node
  }

  class LockObject {
    var content: Option<LockRecord>

    constructor ()
      ensures content == None
    {
      content := None;
    }

    /** If-None-Match: * */
    method PutIfAbsent(rec: LockRecord) returns (r: PutResult)
      modifies this
      ensures r == Ok <==> old(content) == None
      ensures content == if r == Ok then Some(rec) else old(content)
    {
      if content.Some? {
        return PreconditionFailed;
      }
      content := Some(rec);
      return Ok;
    }

    /** If-Match, where the tag stands for the content it was read with. */
    method PutIfMatch(rec: LockRecord, tag: LockRecord) returns (r: PutResult)
      modifies this
      ensures r == Ok <==> old(content) == Some(tag)
      ensures content == if r == Ok then Some(rec) else old(content)
    {
      if content != Some(tag) {
        return PreconditionFailed;
      }
      content := Some(rec);
      return Ok;
    }
  }

  class Lock {
    const store: LockObject
    const nodeID: nat
    const advertiseAddr: nat

    constructor (s: LockObject, id: nat, addr: nat)
      ensures store == s && nodeID == id && advertiseAddr == addr
    {
      store, nodeID, advertiseAddr := s, id, addr;
    }

    /** The second half of TryAcquire and TakeOver, on what the first half read:
        other nodes may have written in between. */
    method Acquire(kind: Kind, cur: Option<LockRecord>, floorTerm: int, committedRev: int, now: int)
      returns (rec: Option<LockRecord>, won: bool)
      modifies store
      ensures won <==>
                && old(store.content) == cur
                && (cur.None? || cur.value.node == nodeID ||
                    (kind == TakeOver && cur.value.term <= floorTerm && cur.value.committedRev <= committedRev))
      ensures won ==> rec == Some(LockRecord(nodeID, NewTerm(cur, floorTerm), advertiseAddr, now, committedRev)) == store.content
      ensures !won ==> store.content == old(store.content)
      ensures !won ==>
                rec == if cur.Some? && cur.value.node != nodeID &&
                          (kind == TryAcquire || cur.value.term > floorTerm || cur.value.committedRev > committedRev)
                       then cur else store.content
    {
      if cur.Some? && cur.value.node != nodeID {
        if kind == TryAcquire {
          return cur, false;
        }
        if cur.value.term > floorTerm {
          return cur, false;
        }
        if cur.value.committedRev > committedRev {
          return cur, false;
        }
      }
      var newTerm := (floorTerm + 1) % TERMS;
      if cur.Some? && cur.value.term >= newTerm {
        newTerm := (cur.value.term + 1) % TERMS;
      }
      var r := LockRecord(nodeID, newTerm, advertiseAddr, now, committedRev);
      var put;
      if cur.None? {
        put := store.PutIfAbsent(r);
      } else {
        put := store.PutIfMatch(r, cur.value);
      }
      if put == Ok {
        return Some(r), true;
      }
      return store.content, false;
    }

    /** fencedCheck, on what its read returned. A node that was fenced, or that the
        lock no longer names, steps down; so does one whose touch finds the lock
        taken. No other failure costs it the leadership, and whether or not a touch
        of unknown outcome was carried out, the lock names the same leader. */
    method FencedCheck(fenced: bool, read: LockRead, term: int, touch: bool, delivery: Delivery, committedRev: int, now: int)
      returns (stillLeader: bool)
      modifies store
      ensures stillLeader <==>
                && !fenced
                && (read.ReadFailed? || Names(read.cur, nodeID, term))
                && (read.ReadOk? && touch && delivery == Answered ==> old(store.content) == read.cur)
      ensures var written := !fenced && read.ReadOk? && Names(read.cur, nodeID, term) && touch &&
                             delivery != RequestLost && old(store.content) == read.cur;
              && store.content == (if written then Some(LockRecord(nodeID, term, advertiseAddr, now, committedRev)) else old(store.content))
              && (written ==> Names(old(store.content), nodeID, term) && Names(store.content, nodeID, term))
    {
      if fenced {
        return false;
      }
      if read.ReadFailed? {
        return true;
      }
      if read.cur.None? || read.cur.value.term != term || read.cur.value.node != nodeID {
        return false;
      }
      if touch && delivery != RequestLost {
        var put := store.PutIfMatch(LockRecord(nodeID, term, advertiseAddr, now, committedRev), read.cur.value);
        if delivery == Answered && put == PreconditionFailed {
          return false;
        }
      }
      return true;
    }
  }

  // -------------------------------------------------------------- interleaved runs

  /** An operation that has read the lock and has yet to write. */
  datatype Op =
    | Candidate(kind: Kind, node: nat, addr: nat, floorTerm: int, committedRev: int, read: Option<LockRecord>)
    | Toucher(node: nat, addr: nat, term: int, committedRev: int, read: Option<LockRecord>)

  /** Every content the lock has had since the start, whether it was a win, and the
      operation that wrote it. */
  datatype Written = Written(rec: LockRecord, win: bool, writer: Op)

  datatype World = World(lock: Option<LockRecord>, ops: map<nat, Op>, history: seq<Written>)

  datatype Step =
    | Begin(pid: nat, op: Op)
    /** The conditional write; the store may also refuse it. */
    | Finish(pid: nat, now: int, refused: bool)

  /** What a write would put there, if the operation goes on to write at all. */
  function Proposal(op: Op, now: int): (w: Option<Written>) {
    match op
    case Candidate(kind, node, addr, floorTerm, committedRev, read) =>
      if BacksOff(kind, node, read, floorTerm, committedRev) then None
      else Some(Written(LockRecord(node, NewTerm(read, floorTerm), addr, now, committedRev), true, op))
    case Toucher(node, addr, term, committedRev, read) =>
      if read.None? || read.value.term != term || read.value.node != node then None
      else Some(Written(LockRecord(node, term, addr, now, committedRev), false, op))
  }

  function Next(w: World, step: Step): (w': World) {
    match step
    case Begin(pid, op) => if pid in w.ops then w else w.(ops := w.ops[pid := op.(read := w.lock)])
    case Finish(pid, now, refused) =>
      if pid !in w.ops then w
      else
        var op := w.ops[pid];
        var p := Proposal(op, now);
        var w1 := w.(ops := w.ops - {pid});
        if p.None? || refused || op.read != w.lock then w1
        else w1.(lock := Some(p.value.rec), history := w.history + [p.value])
  }

  function After(w: World, steps: seq<Step>): (w': World) {
    if steps == [] then w else Next(After(w, steps[..|steps| - 1]), steps[|steps| - 1])
  }

  /** A candidate whose conditional write is carried out gets the lock exactly when
      nobody has written since it read, and the lock was free, its own, or an owner's
      that a takeover may replace; then the lock names it under a new term. */
  lemma CandidateWinsIff(w: World, pid: nat, now: int)
    requires pid in w.ops && w.ops[pid].Candidate?
    ensures var w', op := Next(w, Finish(pid, now, false)), w.ops[pid];
            var rec := LockRecord(op.node, NewTerm(op.read, op.floorTerm), op.addr, now, op.committedRev);
            if op.read == w.lock &&
               (op.read.None? || op.read.value.node == op.node ||
                (op.kind == TakeOver && op.read.value.term <= op.floorTerm && op.read.value.committedRev <= op.committedRev))
            then w'.lock == Some(rec) && |w'.history| == |w.history| + 1
            else w'.lock == w.lock && w'.history == w.history
  {
  }

  /** A leader's touch goes through exactly when nobody has written since it read and
      the lock still names it under its term; it changes neither. */
  lemma ToucherWritesIff(w: World, pid: nat, now: int)
    requires pid in w.ops && w.ops[pid].Toucher?
    ensures var w', op := Next(w, Finish(pid, now, false)), w.ops[pid];
            if op.read == w.lock && Names(w.lock, op.node, op.term)
            then w'.lock == Some(LockRecord(op.node, op.term, op.addr, now, op.committedRev)) && |w'.history| == |w.history| + 1
            else w'.lock == w.lock && w'.history == w.history
  {
  }

  // ------------------------------------------------------------------- safety

  /** The lock before the i-th write. */
  function Before(init: Option<LockRecord>, h: seq<Written>, i: nat): (r: Option<LockRecord>)
    requires i <= |h|
  {
    if i == 0 then init else Some(h[i - 1].rec)
  }

  predicate ValidTerm(r: Option<LockRecord>) {
    r.Some? ==> 0 <= r.value.term <= MAX_TERM
  }

  /** One write over cur: a win raises the term, unless it was the last one, and
      never lowers CommittedRev when the owner changes; a touch keeps both. */
  predicate LegalWrite(cur: Option<LockRecord>, x: Written) {
    && 0 <= x.rec.term <= MAX_TERM
    && (x.win && cur.Some? && cur.value.term < MAX_TERM ==> cur.value.term < x.rec.term)
    && (cur.Some? && cur.value.node != x.rec.node ==> cur.value.committedRev <= x.rec.committedRev)
    && (!x.win ==> cur.Some? && cur.value.node == x.rec.node && cur.value.term == x.rec.term)
    && x.writer.read == cur && x.writer.node == x.rec.node && (x.win <==> x.writer.Candidate?)
    && (cur.Some? && cur.value.node != x.rec.node ==> x.win && x.writer.kind == TakeOver && cur.value.term <= x.writer.floorTerm)
  }

  predicate LegalAt(init: Option<LockRecord>, h: seq<Written>, i: nat)
    requires i < |h|
  {
    LegalWrite(Before(init, h, i), h[i])
  }

  ghost predicate Legal(init: Option<LockRecord>, h: seq<Written>) {
    forall i :: 0 <= i < |h| ==> LegalAt(init, h, i)
  }

  predicate ValidOp(op: Op) {
    ValidTerm(op.read) && (op.Candidate? ==> 0 <= op.floorTerm <= MAX_TERM)
  }

  ghost predicate Inv(init: Option<LockRecord>, w: World) {
    && ValidTerm(init) && Legal(init, w.history) && w.lock == Before(init, w.history, |w.history|)
    && (forall pid :: pid in w.ops ==> ValidOp(w.ops[pid]))
  }

  ghost predicate ValidStep(step: Step) {
    step.Begin? && step.op.Candidate? ==> 0 <= step.op.floorTerm <= MAX_TERM
  }

  lemma ProposalLegal(op: Op, now: int)
    requires ValidOp(op) && Proposal(op, now).Some?
    ensures LegalWrite(op.read, Proposal(op, now).value)
  {
    if op.Candidate? && op.read.Some? { NewTermAbove(op.read.value, op.floorTerm); }
  }

  lemma LegalMore(init: Option<LockRecord>, h: seq<Written>, x: Written)
    requires Legal(init, h) && LegalWrite(Before(init, h, |h|), x)
    ensures Legal(init, h + [x])
  {
    forall i | 0 <= i < |h + [x]| ensures LegalAt(init, h + [x], i) {
      assert i < |h| ==> LegalAt(init, h, i);
      assert Before(init, h + [x], i) == Before(init, h, i);
    }
  }

  lemma LockValid(init: Option<LockRecord>, w: World)
    requires Inv(init, w)
    ensures ValidTerm(w.lock)
  {
    if w.history != [] {
      assert LegalAt(init, w.history, |w.history| - 1);
    }
  }

  lemma StepKeeps(init: Option<LockRecord>, w: World, step: Step)
    requires Inv(init, w) && ValidStep(step)
    ensures Inv(init, Next(w, step))
  {
    LockValid(init, w);
    if step.Finish? && step.pid in w.ops {
      var op := w.ops[step.pid];
      var p := Proposal(op, step.now);
      if p.Some? && op.read == w.lock {
        ProposalLegal(op, step.now);
        LegalMore(init, w.history, p.value);
      }
    }
  }

  lemma {:induction false} RunKeeps(init: Option<LockRecord>, steps: seq<Step>)
    requires ValidTerm(init) && forall i :: 0 <= i < |steps| ==> ValidStep(steps[i])
    ensures Inv(init, After(World(init, map[], []), steps))
  {
    if steps != [] {
      RunKeeps(init, steps[..|steps| - 1]);
      StepKeeps(init, After(World(init, map[], []), steps[..|steps| - 1]), steps[|steps| - 1]);
    }
  }

  /** No content the lock has had carried the last term. */
  ghost predicate NoLastTerm(init: Option<LockRecord>, h: seq<Written>) {
    (init.Some? ==> init.value.term < MAX_TERM) && forall i :: 0 <= i < |h| ==> h[i].rec.term < MAX_TERM
  }

  lemma OneWrite(init: Option<LockRecord>, h: seq<Written>, j: nat)
    requires Legal(init, h) && NoLastTerm(init, h) && j < |h| && Before(init, h, j).Some?
    ensures var cur := Before(init, h, j).value;
            cur.term <= h[j].rec.term && (h[j].win ==> cur.term < h[j].rec.term)
  {
    assert LegalAt(init, h, j);
  }

  /** The term the lock had before the i-th write, against that of a later one. */
  lemma {:induction false} TermsGrow(init: Option<LockRecord>, h: seq<Written>, i: nat, j: nat)
    requires Legal(init, h) && NoLastTerm(init, h) && i <= j < |h| && Before(init, h, i).Some?
    ensures var cur := Before(init, h, i).value;
            cur.term <= h[j].rec.term && (h[j].win ==> cur.term < h[j].rec.term)
    decreases j
  {
    OneWrite(init, h, j);
    if i < j { TermsGrow(init, h, i, j - 1); }
  }

  /** For any number of nodes and any interleaving of reads and conditional writes,
      while no term is the last one: the term never decreases from what the lock held
      at the start or at any later time, every win has a term above all before it,
      the owner changes only by a win, which never lowers CommittedRev, and a touch
      changes neither owner nor term. */
  lemma ElectionSafety(init: Option<LockRecord>, steps: seq<Step>, i: nat, j: nat)
    requires ValidTerm(init) && forall k :: 0 <= k < |steps| ==> ValidStep(steps[k])
    requires var h := After(World(init, map[], []), steps).history; i <= j < |h| && NoLastTerm(init, h)
    ensures var h := After(World(init, map[], []), steps).history;
            var first, last := Before(init, h, i), Before(init, h, j);
            && (first.Some? ==> first.value.term <= h[j].rec.term && (h[j].win ==> first.value.term < h[j].rec.term))
            && (last.Some? && last.value.node != h[j].rec.node ==> h[j].win && last.value.committedRev <= h[j].rec.committedRev)
            && (last.None? ==> h[j].win)
            && (!h[j].win ==> Names(last, h[j].rec.node, h[j].rec.term))
  {
    RunKeeps(init, steps);
    var h := After(World(init, map[], []), steps).history;
    if Before(init, h, i).Some? { TermsGrow(init, h, i, j); }
    assert LegalAt(init, h, j);
  }

  /** A lock that names an owner passes to another only by a takeover whose node knew of
      that owner's term when it started, and had as much committed; acquiring at startup
      takes the lock only while it is free, or from the node's own earlier self. */
  lemma OwnerChangesByTakeover(init: Option<LockRecord>, steps: seq<Step>, j: nat)
    requires ValidTerm(init) && forall k :: 0 <= k < |steps| ==> ValidStep(steps[k])
    requires j < |After(World(init, map[], []), steps).history|
    ensures var h := After(World(init, map[], []), steps).history;
            var cur, op := Before(init, h, j), h[j].writer;
            && op.read == cur && op.node == h[j].rec.node
            && (cur.Some? && cur.value.node != h[j].rec.node ==>
                  op.Candidate? && op.kind == TakeOver && cur.value.term <= op.floorTerm && cur.value.committedRev <= h[j].rec.committedRev)
            && (op.Candidate? && op.kind == TryAcquire ==> cur.None? || cur.value.node == h[j].rec.node)
  {
    RunKeeps(init, steps);
    assert LegalAt(init, After(World(init, map[], []), steps).history, j);
  }

  /** A leader whose lock was taken over never touches it again: from the win of a
      later term on, no content carries a term the lock had before. */
  lemma SupersededNeverTouches(init: Option<LockRecord>, steps: seq<Step>, i: nat, win: nat, j: nat)
    requires ValidTerm(init) && forall k :: 0 <= k < |steps| ==> ValidStep(steps[k])
    requires var h := After(World(init, map[], []), steps).history;
             i <= win <= j < |h| && NoLastTerm(init, h) && h[win].win && Before(init, h, i).Some?
    ensures var h := After(World(init, map[], []), steps).history; h[j].rec.term > Before(init, h, i).value.term
  {
    RunKeeps(init, steps);
    var h := After(World(init, map[], []), steps).history;
    TermsGrow(init, h, i, win);
    if win < j { TermsGrow(init, h, win + 1, j); }
  }
}

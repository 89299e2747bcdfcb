/** The leader's write path over a store: each method is what one call does
    under the node's lock, or one move of the commit loop. */
module Node {
  import opened Entries
  import opened Mvcc
  import opened Serial
  import opened Pipeline
  import S = Store
  import StoreProofs

  /** os with the creation revision of new keys filled in. */
  function Stamped(os: seq<SubOp>, rev: int): (r: seq<SubOp>)
    ensures |r| == |os|
  {
    seq(|os|, i requires 0 <= i < |os| => if os[i].op == OpCreate then os[i].(createRev := rev) else os[i])
  }

  lemma {:induction false} ActiveStamped(v: View, rev: int, ops: seq<TxnOp>)
    ensures Active(v, rev, ops) == Stamped(Active(v, 0, ops), rev)
  {
    if ops != [] {
      ActiveStamped(v, rev, ops[..|ops| - 1]);
    }
  }

  lemma SameKeys(v: View, rev: int, ops: seq<TxnOp>)
    ensures Distinct(Active(v, rev, ops)) <==> DistinctKeys(Active(v, 0, ops))
  {
    ActiveStamped(v, rev, ops);
    DistinctMeans(Active(v, rev, ops));
    assert forall i :: 0 <= i < |Active(v, 0, ops)| ==> Active(v, rev, ops)[i].key == Active(v, 0, ops)[i].key;
  }

  function TxnEntry(p: Pipe, os: seq<SubOp>): (e: Entry) {
    Entry(p.nextSeq + 1, p.nextRev + 1, p.term, OpTxn, [], [], 0, 0, 0, 0, os)
  }

  lemma DecideTxnCases(term: nat, v: View, rev: int, id: int, succeeded: bool, ops: seq<TxnOp>)
    ensures var os, d := Active(v, rev, ops), DecideTxn(term, v, rev, id, succeeded, ops);
            && (|os| == 0 ==> d == Decision(None, Unchanged(None, succeeded)))
            && (|os| > MAX_TXN_OPS ==> d == Decision(None, Failed(ErrTooManyOps)))
            && (0 < |os| <= MAX_TXN_OPS && !Distinct(os) ==> d == Decision(None, Failed(ErrDuplicateKey)))
            && (0 < |os| <= MAX_TXN_OPS && Distinct(os) ==>
                  d == Decision(Some(Entry(id, rev, term, OpTxn, [], [], 0, 0, 0, 0, os)), Written(rev, None, succeeded, DeletedKeys(os))))
  {
  }

  /** The same cases, told from the writes before they are stamped. */
  lemma UnstampedCases(term: nat, v: View, rev: int, id: int, succeeded: bool, ops: seq<TxnOp>, active: seq<SubOp>)
    requires active == Active(v, 0, ops)
    ensures var os, d := Stamped(active, rev), DecideTxn(term, v, rev, id, succeeded, ops);
            && (|active| == 0 ==> d == Decision(None, Unchanged(None, succeeded)))
            && (|active| > MAX_TXN_OPS ==> d == Decision(None, Failed(ErrTooManyOps)))
            && (0 < |active| <= MAX_TXN_OPS && !DistinctKeys(active) ==> d == Decision(None, Failed(ErrDuplicateKey)))
            && (0 < |active| <= MAX_TXN_OPS && DistinctKeys(active) ==>
                  d == Decision(Some(Entry(id, rev, term, OpTxn, [], [], 0, 0, 0, 0, os)), Written(rev, None, succeeded, DeletedKeys(os))))
  {
    ActiveStamped(v, rev, ops);
    SameKeys(v, rev, ops);
    DecideTxnCases(term, v, rev, id, succeeded, ops);
  }

  /** What running one branch of a transaction on p decides in state v. */
  function Branch(p: Pipe, v: View, succeeded: bool, ops: seq<TxnOp>): (d: Decision) {
    DecideTxn(p.term, v, p.nextRev + 1, p.nextSeq + 1, succeeded, ops)
  }

  /** The writes of a branch that make it write nothing, and what the caller learns. */
  ghost predicate Refusal(active: seq<SubOp>, succeeded: bool, r: Outcome) {
    || (|active| == 0 && r == Unchanged(None, succeeded))
    || (|active| > MAX_TXN_OPS && r == Failed(ErrTooManyOps))
    || (0 < |active| <= MAX_TXN_OPS && !DistinctKeys(active) && r == Failed(ErrDuplicateKey))
  }

  lemma TxnRefused(term: nat, v: View, rev: int, id: int, succeeded: bool, ops: seq<TxnOp>, r: Outcome)
    requires Refusal(Active(v, 0, ops), succeeded, r)
    ensures DecideTxn(term, v, rev, id, succeeded, ops) == Decision(None, r)
  {
    UnstampedCases(term, v, rev, id, succeeded, ops, Active(v, 0, ops));
  }

  lemma BranchRefused(p: Pipe, v: View, succeeded: bool, ops: seq<TxnOp>, r: Outcome)
    requires Refusal(Active(v, 0, ops), succeeded, r)
    ensures Branch(p, v, succeeded, ops) == Decision(None, r)
  {
    TxnRefused(p.term, v, p.nextRev + 1, p.nextSeq + 1, succeeded, ops, r);
  }

  lemma BranchWritten(p: Pipe, v: View, succeeded: bool, ops: seq<TxnOp>, active: seq<SubOp>, os: seq<SubOp>)
    requires active == Active(v, 0, ops) && 0 < |active| <= MAX_TXN_OPS && DistinctKeys(active)
    requires os == Stamped(active, p.nextRev + 1)
    ensures Branch(p, v, succeeded, ops) == Decision(Some(TxnEntry(p, os)), Written(p.nextRev + 1, None, succeeded, DeletedKeys(os)))
  {
    UnstampedCases(p.term, v, p.nextRev + 1, p.nextSeq + 1, succeeded, ops, active);
  }

  lemma TxnNeverLeaks(term: nat, v: View, rev: int, id: int, succeeded: bool, ops: seq<TxnOp>)
    ensures !Leaks(DecideTxn(term, v, rev, id, succeeded, ops))
  {
    DecideTxnCases(term, v, rev, id, succeeded, ops);
  }

  /** A transaction runs the branch its conditions choose, and never leaks. */
  lemma TxnRunsBranch(p: Pipe, v: View, req: Request, succeeded: bool, d: Decision)
    requires req.Txn? && succeeded == AllMatch(v, req.conditions)
    requires d == Branch(p, v, succeeded, if succeeded then req.success else req.failure)
    ensures Decide(p.term, v, p.nextRev + 1, p.nextSeq + 1, req) == d && !Leaks(d)
  {
    DecideRunsBranch(p.term, v, p.nextRev + 1, p.nextSeq + 1, req, succeeded);
    TxnNeverLeaks(p.term, v, p.nextRev + 1, p.nextSeq + 1, succeeded, if succeeded then req.success else req.failure);
  }

  /** What a request does to the pipeline, in terms of the one-at-a-time log. */
  lemma SubmitResult(p: Pipe, req: Request)
    requires Inv(p)
    ensures var d := Decided(p.term, LogOf(p), req);
            && d == NodeDecision(p, req)
            && (d.entry.None? ==> Submitted(p, req) == p && Reply(p, req) == d.outcome)
            && (d.entry.Some? && !Leaks(d) ==>
                  Submitted(p, req) == Enqueued(p, d.entry.value) && Inv(Enqueued(p, d.entry.value)) && Reply(p, req) == d.outcome)
            && (Leaks(d) ==> Submitted(p, req) == Enqueued(p, d.entry.value).(queue := p.queue))
  {
    SameDecision(p, req);
    SubmitCases(p, req, NodeDecision(p, req));
    if !Leaks(NodeDecision(p, req)) { SubmitKeeps(p, req); }
  }

  lemma SubmitCases(p: Pipe, req: Request, d: Decision)
    requires d == NodeDecision(p, req)
    ensures d.entry.None? ==> Submitted(p, req) == p && Reply(p, req) == d.outcome
    ensures d.entry.Some? && !Leaks(d) ==> Submitted(p, req) == Enqueued(p, d.entry.value) && Reply(p, req) == d.outcome
    ensures Leaks(d) ==> Submitted(p, req) == Enqueued(p, d.entry.value).(queue := p.queue)
  {
  }

  function PutEntry(p: Pipe, key: Key, value: Value, lease: int): (e: Entry) {
    EntryOf(p.term, p.nextRev + 1, p.nextSeq + 1, PutOp(Lookup(ViewOf(Hist(p)), key), p.nextRev + 1, key, value, lease))
  }

  function DeleteEntry(p: Pipe, key: Key): (e: Entry)
    requires key in ViewOf(Hist(p))
  {
    EntryOf(p.term, p.nextRev + 1, p.nextSeq + 1, DeleteOp(ViewOf(Hist(p))[key], key))
  }

  /** p with e enqueued is what req makes of p, and its caller learns r. */
  ghost predicate Accepts(p: Pipe, req: Request, e: Entry, r: Outcome) {
    Submitted(p, req) == Enqueued(p, e) && Inv(Enqueued(p, e)) && Reply(p, req) == r
  }

  lemma Accepted(p: Pipe, req: Request, e: Entry, r: Outcome)
    requires Inv(p) && Decided(p.term, LogOf(p), req) == Decision(Some(e), r) && !(e.op == OpDelete && e.key == [])
    ensures Accepts(p, req, e, r)
  {
    SubmitResult(p, req);
  }

  lemma PutAccepted(p: Pipe, key: Key, value: Value, lease: int)
    requires Inv(p)
    ensures Accepts(p, Serial.Put(key, value, lease), PutEntry(p, key, value, lease), Written(p.nextRev + 1, None, true, {}))
  {
    Accepted(p, Serial.Put(key, value, lease), PutEntry(p, key, value, lease), Written(p.nextRev + 1, None, true, {}));
  }

  lemma CreateAccepted(p: Pipe, key: Key, value: Value, lease: int)
    requires Inv(p) && key !in ViewOf(Hist(p))
    ensures Accepts(p, Serial.Create(key, value, lease), PutEntry(p, key, value, lease), Written(p.nextRev + 1, None, true, {}))
  {
    Accepted(p, Serial.Create(key, value, lease), PutEntry(p, key, value, lease), Written(p.nextRev + 1, None, true, {}));
  }

  lemma UpdateAccepted(p: Pipe, key: Key, value: Value, revision: int, lease: int)
    requires Inv(p) && key in ViewOf(Hist(p)) && ViewOf(Hist(p))[key].revision == revision
    ensures Accepts(p, Serial.Update(key, value, revision, lease), PutEntry(p, key, value, lease),
                    Written(p.nextRev + 1, Some(ViewOf(Hist(p))[key]), true, {}))
  {
    Accepted(p, Serial.Update(key, value, revision, lease), PutEntry(p, key, value, lease),
             Written(p.nextRev + 1, Some(ViewOf(Hist(p))[key]), true, {}));
  }

  ghost predicate PlainDelete(v: View, key: Key, req: Request)
    requires key in v
  {
    req == Serial.Delete(key) || (req.DeleteIfRevision? && req.key == key && req.revision in {0, v[key].revision})
  }

  function DeleteReply(p: Pipe, key: Key, req: Request): (r: Outcome)
    requires key in ViewOf(Hist(p))
  {
    Written(p.nextRev + 1, if req.Delete? then None else Some(ViewOf(Hist(p))[key]), true, {})
  }

  lemma DeleteDecided(p: Pipe, key: Key, req: Request)
    requires key in ViewOf(Hist(p)) && PlainDelete(ViewOf(Hist(p)), key, req)
    ensures Decided(p.term, LogOf(p), req) == Decision(Some(DeleteEntry(p, key)), DeleteReply(p, key, req))
  {
  }

  lemma DeleteAccepted(p: Pipe, key: Key, req: Request)
    requires Inv(p) && key in ViewOf(Hist(p)) && PlainDelete(ViewOf(Hist(p)), key, req) && key != []
    ensures Accepts(p, req, DeleteEntry(p, key), DeleteReply(p, key, req))
  {
    DeleteDecided(p, key, req);
    Accepted(p, req, DeleteEntry(p, key), DeleteReply(p, key, req));
  }

  lemma DeleteLeaked(p: Pipe, req: Request)
    requires Inv(p) && [] in ViewOf(Hist(p)) && PlainDelete(ViewOf(Hist(p)), [], req)
    ensures Submitted(p, req) == Enqueued(p, DeleteEntry(p, [])).(queue := p.queue)
    ensures Reply(p, req) == if req.Delete? then NotFound else Unchanged(None, false)
  {
    DeleteDecided(p, [], req);
    SubmitResult(p, req);
  }

  lemma CompactAccepted(p: Pipe, revision: int)
    requires Inv(p)
    ensures Accepts(p, Serial.Compact(revision),
                    Entry(p.nextSeq + 1, p.nextRev, p.term, OpCompact, [], [], 0, 0, revision, 0, []), Compacted)
  {
    Accepted(p, Serial.Compact(revision),
             Entry(p.nextSeq + 1, p.nextRev, p.term, OpCompact, [], [], 0, 0, revision, 0, []), Compacted);
  }

  lemma TxnResult(p: Pipe, req: Request, succeeded: bool, d: Decision)
    requires Inv(p) && req.Txn? && succeeded == AllMatch(ViewOf(Hist(p)), req.conditions)
    requires d == Branch(p, ViewOf(Hist(p)), succeeded, if succeeded then req.success else req.failure)
    ensures WithEntry(p, d.entry) == Submitted(p, req) && Inv(WithEntry(p, d.entry)) && Reply(p, req) == d.outcome
  {
    TxnRunsBranch(p, ViewOf(Hist(p)), req, succeeded, d);
    LogDecides(p, req);
    SubmitResult(p, req);
  }

  lemma Refused(p: Pipe, req: Request)
    requires Inv(p) && Decided(p.term, LogOf(p), req).entry.None?
    ensures Submitted(p, req) == p && Reply(p, req) == Decided(p.term, LogOf(p), req).outcome
  {
    SubmitResult(p, req);
  }

  lemma DeleteAbsent(p: Pipe, key: Key)
    requires Inv(p) && key !in ViewOf(Hist(p))
    ensures Submitted(p, Serial.Delete(key)) == p && Reply(p, Serial.Delete(key)) == NotFound
  {
    LogDecides(p, Serial.Delete(key));
    Refused(p, Serial.Delete(key));
  }

  lemma DeleteMismatch(p: Pipe, key: Key, revision: int)
    requires Inv(p)
    requires var v := ViewOf(Hist(p)); key !in v || (revision != 0 && v[key].revision != revision)
    ensures var req := Serial.DeleteIfRevision(key, revision);
            Submitted(p, req) == p && Reply(p, req) == Unchanged(Lookup(ViewOf(Hist(p)), key), false)
  {
    LogDecides(p, Serial.DeleteIfRevision(key, revision));
    Refused(p, Serial.DeleteIfRevision(key, revision));
  }

  function PendingOf(rev: int, o: SubOp): (p: Pending) {
    if o.op == OpDelete then Pending(rev, None)
    else Pending(rev, Some(KeyValue(o.key, o.value, rev, o.createRev, o.prevRev, EntryVersion(o.version), o.lease)))
  }

  class Node {
    const db: S.Store
    const term: nat
    var nextRev: int
    var nextSeq: int
    var pending: Pendings
    /** The channel to the commit loop, and the batch that loop holds. */
    var queue: seq<Entry>
    var stage: Stage

    ghost function Abs(): (p: Pipe)
      reads this, db
    {
      Pipe(term, nextRev, nextSeq, pending, db.hist, stage, queue)
    }

    ghost predicate Valid()
      reads this, db
    {
      db.Valid() && Inv(Abs())
    }

    /** The state every request in flight or done has produced so far. */
    ghost function View(): (v: View)
      reads this, db
    {
      ViewOf(Hist(Abs()))
    }

    /** becomeLeader: counters continue above the store and the local log, whose
        highest sequence is walSeq, and nothing is in flight. */
    constructor (store: S.Store, newTerm: nat, walSeq: int)
      requires store.Valid() && forall i :: 0 <= i < |store.hist| && !IsData(store.hist[i]) ==> store.hist[i].key == []
      ensures Valid() && db == store && term == newTerm
      ensures Hist(Abs()) == store.hist && nextRev == store.currentRev && pending == map[]
      ensures nextSeq >= walSeq && forall i :: 0 <= i < |store.hist| ==> store.hist[i].Sequence() <= nextSeq
    {
      db, term := store, newTerm;
      nextRev, nextSeq := store.currentRev, if walSeq > store.lastSeq then walSeq else store.lastSeq;
      pending, queue, stage := map[], [], Idle;
      new;
      assert Hist(Abs()) == store.hist;
      forall i | 0 <= i < |store.hist| ensures store.hist[i].Sequence() <= nextSeq {
        StoreProofs.LastSeqBounds(store.hist, i);
      }
    }

    method ReadKey(key: Key) returns (kv: Option<KeyValue>)
      requires Valid()
      ensures kv == Lookup(View(), key)
    {
      OverlayIsHistory(Abs());
      if key in pending {
        return pending[key].kv;
      }
      var r := db.Get(key);
      return r.value;
    }

    // ------------------------------------------------------------ single writes

    method PreparePut(key: Key, value: Value, lease: int) returns (e: Entry)
      requires Valid()
      modifies this`nextRev, this`nextSeq, this`pending
      ensures e == PutEntry(old(Abs()), key, value, lease)
      ensures Abs() == Enqueued(old(Abs()), e).(queue := queue)
    {
      var existing := ReadKey(key);
      nextRev := nextRev + 1;
      nextSeq := nextSeq + 1;
      var op, createRev, prevRev, version := OpCreate, nextRev, 0, 1;
      if existing.Some? {
        op, createRev, prevRev := OpUpdate, existing.value.createRev, existing.value.revision;
        version := KvVersion(existing) + 1;
      }
      e := Entry(nextSeq, nextRev, term, op, key, value, lease, createRev, prevRev, version, []);
      pending := pending[key := Pending(nextRev, Some(KeyValue(key, value, nextRev, createRev, prevRev, version, lease)))];
      PendSingle(old(pending), nextRev, SubOps(e)[0]);
    }

    method Put(key: Key, value: Value, lease: int) returns (r: Outcome)
      requires Valid()
      modifies this
      ensures Valid() && Abs() == Submitted(old(Abs()), Serial.Put(key, value, lease))
      ensures r == Reply(old(Abs()), Serial.Put(key, value, lease))
    {
      PutAccepted(Abs(), key, value, lease);
      var e := PreparePut(key, value, lease);
      queue := queue + [e];
      assert Abs() == Enqueued(old(Abs()), e);
      return Written(e.revision, None, true, {});
    }

    method Create(key: Key, value: Value, lease: int) returns (r: Outcome)
      requires Valid()
      modifies this
      ensures Valid() && Abs() == Submitted(old(Abs()), Serial.Create(key, value, lease))
      ensures r == Reply(old(Abs()), Serial.Create(key, value, lease))
    {
      var existing := ReadKey(key);
      if existing.Some? {
        Refused(Abs(), Serial.Create(key, value, lease));
        return Failed(ErrKeyExists);
      }
      CreateAccepted(Abs(), key, value, lease);
      var e := PreparePut(key, value, lease);
      queue := queue + [e];
      assert Abs() == Enqueued(old(Abs()), e);
      return Written(e.revision, None, true, {});
    }

    /** A refused update also returns the revision the store has committed. */
    method Update(key: Key, value: Value, revision: int, lease: int) returns (r: Outcome, rev: int)
      requires Valid()
      modifies this
      ensures Valid() && Abs() == Submitted(old(Abs()), Serial.Update(key, value, revision, lease))
      ensures r == Reply(old(Abs()), Serial.Update(key, value, revision, lease))
      ensures rev == if r.Written? then r.rev else CurrentRev(old(db.hist))
    {
      var existing := ReadKey(key);
      if existing.None? || existing.value.revision != revision {
        Refused(Abs(), Serial.Update(key, value, revision, lease));
        return Unchanged(existing, false), db.currentRev;
      }
      UpdateAccepted(Abs(), key, value, revision, lease);
      var e := PreparePut(key, value, lease);
      queue := queue + [e];
      assert Abs() == Enqueued(old(Abs()), e);
      return Written(e.revision, existing, true, {}), e.revision;
    }

    /** No entry means that the key does not exist. */
    method PrepareDelete(key: Key) returns (e: Option<Entry>)
      requires Valid()
      modifies this`nextRev, this`nextSeq, this`pending
      ensures e.None? ==> key !in old(View()) && Abs() == old(Abs())
      ensures e.Some? ==> key in old(View()) && e.value == DeleteEntry(old(Abs()), key)
      ensures e.Some? ==> Abs() == Enqueued(old(Abs()), e.value).(queue := queue)
    {
      var existing := ReadKey(key);
      if existing.None? {
        return None;
      }
      nextRev := nextRev + 1;
      nextSeq := nextSeq + 1;
      var kv := existing.value;
      e := Some(Entry(nextSeq, nextRev, term, OpDelete, key, [], 0, kv.createRev, kv.revision, EntryVersion(kv.version), []));
      pending := pending[key := Pending(nextRev, None)];
      PendSingle(old(pending), nextRev, SubOps(e.value)[0]);
    }

    method Delete(key: Key) returns (r: Outcome)
      requires Valid()
      modifies this
      ensures Abs() == Submitted(old(Abs()), Serial.Delete(key)) && r == Reply(old(Abs()), Serial.Delete(key))
      ensures !DeletesEmptyKey(old(View()), Serial.Delete(key)) ==> Valid()
    {
      ghost var p := Abs();
      var e := PrepareDelete(key);
      if e.None? {
        DeleteAbsent(p, key);
        return NotFound;
      }
      if e.value.key == [] {
        DeleteLeaked(p, Serial.Delete(key));
        return NotFound;
      }
      DeleteAccepted(p, key, Serial.Delete(key));
      queue := queue + [e.value];
      assert Abs() == Enqueued(p, e.value);
      return Written(e.value.revision, None, true, {});
    }

    method DeleteIfRevision(key: Key, revision: int) returns (r: Outcome)
      requires Valid()
      modifies this
      ensures Abs() == Submitted(old(Abs()), Serial.DeleteIfRevision(key, revision))
      ensures r == Reply(old(Abs()), Serial.DeleteIfRevision(key, revision))
      ensures !DeletesEmptyKey(old(View()), Serial.DeleteIfRevision(key, revision)) ==> Valid()
    {
      ghost var p := Abs();
      var existing := ReadKey(key);
      if existing.None? || (revision != 0 && existing.value.revision != revision) {
        DeleteMismatch(p, key, revision);
        return Unchanged(existing, false);
      }
      var e := PrepareDelete(key);
      if e.value.key == [] {
        DeleteLeaked(p, Serial.DeleteIfRevision(key, revision));
        return Unchanged(None, false);
      }
      DeleteAccepted(p, key, Serial.DeleteIfRevision(key, revision));
      queue := queue + [e.value];
      assert Abs() == Enqueued(p, e.value);
      return Written(e.value.revision, existing, true, {});
    }

    method Compact(revision: int)
      requires Valid()
      modifies this
      ensures Valid() && Abs() == Submitted(old(Abs()), Serial.Compact(revision))
    {
      CompactAccepted(Abs(), revision);
      nextSeq := nextSeq + 1;
      var e := Entry(nextSeq, nextRev, term, OpCompact, [], [], 0, 0, revision, 0, []);
      queue := queue + [e];
      assert Abs() == Enqueued(old(Abs()), e);
    }

    // ------------------------------------------------------------ transactions

    method EvalConditions(conditions: seq<Condition>) returns (succeeded: bool)
      requires Valid()
      ensures succeeded == AllMatch(View(), conditions)
    {
      AllMatchMeans(View(), conditions);
      for i := 0 to |conditions|
        invariant forall j :: 0 <= j < i ==> Matches(conditions[j], Lookup(View(), conditions[j].key))
      {
        var existing := ReadKey(conditions[i].key);
        if !Matches(conditions[i], existing) {
          return false;
        }
      }
      return true;
    }

    /** The writes of a branch, with the creation revision of new keys still 0. */
    method ResolveOps(ops: seq<TxnOp>) returns (active: seq<SubOp>)
      requires Valid()
      ensures active == Active(View(), 0, ops)
    {
      ghost var v := View();
      active := [];
      for i := 0 to |ops|
        invariant active == Active(v, 0, ops[..i])
      {
        assert ops[..i + 1][..i] == ops[..i];
        var os := ResolveOne(ops[i]);
        active := active + os;
      }
      assert ops[..|ops|] == ops;
    }

    /** One operation of a branch: nothing for a delete of an absent key. */
    method ResolveOne(op: TxnOp) returns (os: seq<SubOp>)
      requires Valid()
      ensures os == Resolve(View(), 0, op)
    {
      var existing := ReadKey(op.key);
      match op.kind
      case TxnPut =>
        if existing.None? {
          return [SubOp(OpCreate, op.key, op.value, op.lease, 0, 0, 1)];
        }
        var kv := existing.value;
        return [SubOp(OpUpdate, op.key, op.value, op.lease, kv.createRev, kv.revision, KvVersion(existing) + 1)];
      case TxnDelete =>
        if existing.None? {
          return [];
        }
        var kv := existing.value;
        return [SubOp(OpDelete, op.key, [], 0, kv.createRev, kv.revision, EntryVersion(kv.version))];
      case TxnOther =>
        return [];
    }

    method HasDuplicate(active: seq<SubOp>) returns (dup: bool)
      ensures dup == !DistinctKeys(active)
    {
      var seen: set<Key> := {};
      for i := 0 to |active|
        invariant forall key :: key in seen <==> exists j :: 0 <= j < i && active[j].key == key
        invariant forall j, k :: 0 <= j < k < i ==> active[j].key != active[k].key
      {
        if active[i].key in seen {
          return true;
        }
        seen := seen + {active[i].key};
      }
      return false;
    }

    /** Stamps the writes with the new revision and puts them on the overlay. */
    method AssignTxn(active: seq<SubOp>) returns (subOps: seq<SubOp>, deleted: set<Key>)
      modifies this`nextRev, this`nextSeq, this`pending
      ensures nextRev == old(nextRev) + 1 && nextSeq == old(nextSeq) + 1
      ensures |subOps| == |active|
      ensures forall i :: 0 <= i < |active| ==>
                subOps[i] == if active[i].op == OpCreate then active[i].(createRev := nextRev) else active[i]
      ensures pending == PendOps(old(pending), nextRev, subOps) && deleted == DeletedKeys(subOps)
    {
      nextRev := nextRev + 1;
      nextSeq := nextSeq + 1;
      subOps, deleted := [], {};
      for i := 0 to |active|
        invariant nextRev == old(nextRev) + 1 && nextSeq == old(nextSeq) + 1
        invariant |subOps| == i
        invariant forall j :: 0 <= j < i ==>
                    subOps[j] == if active[j].op == OpCreate then active[j].(createRev := nextRev) else active[j]
        invariant pending == PendOps(old(pending), nextRev, subOps) && deleted == DeletedKeys(subOps)
      {
        var o := if active[i].op == OpCreate then active[i].(createRev := nextRev) else active[i];
        if o.op == OpDelete {
          deleted := deleted + {o.key};
        }
        pending := pending[o.key := PendingOf(nextRev, o)];
        assert (subOps + [o])[..|subOps|] == subOps;
        subOps := subOps + [o];
      }
    }

    method Txn(conditions: seq<Condition>, success: seq<TxnOp>, failure: seq<TxnOp>) returns (r: Outcome)
      requires Valid()
      modifies this
      ensures Valid() && Abs() == Submitted(old(Abs()), Serial.Txn(conditions, success, failure))
      ensures r == Reply(old(Abs()), Serial.Txn(conditions, success, failure))
    {
      ghost var p := Abs();
      var succeeded := EvalConditions(conditions);
      var ops := if succeeded then success else failure;
      ghost var d := Branch(p, View(), succeeded, ops);
      TxnResult(p, Serial.Txn(conditions, success, failure), succeeded, d);
      r := RunBranch(p, d, succeeded, ops);
    }

    /** prepareTxn once the branch is chosen, and the enqueueing of its entry. */
    method RunBranch(ghost p: Pipe, ghost d: Decision, succeeded: bool, ops: seq<TxnOp>) returns (r: Outcome)
      requires Valid() && p == Abs() && d == Branch(p, View(), succeeded, ops)
      modifies this
      ensures r == d.outcome && Abs() == WithEntry(p, d.entry) && db.Valid()
    {
      ghost var v := View();
      var active := ResolveOps(ops);
      if |active| == 0 {
        BranchRefused(p, v, succeeded, ops, Unchanged(None, succeeded));
        return Unchanged(None, succeeded);
      }
      if |active| > MAX_TXN_OPS {
        BranchRefused(p, v, succeeded, ops, Failed(ErrTooManyOps));
        return Failed(ErrTooManyOps);
      }
      var dup := HasDuplicate(active);
      if dup {
        BranchRefused(p, v, succeeded, ops, Failed(ErrDuplicateKey));
        return Failed(ErrDuplicateKey);
      }
      BranchWritten(p, v, succeeded, ops, active, Stamped(active, p.nextRev + 1));
      var deleted := EnqueueTxn(p, active);
      return Written(nextRev, None, succeeded, deleted);
    }

    method EnqueueTxn(ghost p: Pipe, active: seq<SubOp>) returns (deleted: set<Key>)
      requires db.Valid() && p == Abs()
      modifies this
      ensures db.Valid() && nextRev == p.nextRev + 1
      ensures Abs() == Enqueued(p, TxnEntry(p, Stamped(active, p.nextRev + 1)))
      ensures deleted == DeletedKeys(Stamped(active, p.nextRev + 1))
    {
      var subOps;
      subOps, deleted := AssignTxn(active);
      assert subOps == Stamped(active, p.nextRev + 1);
      queue := queue + [Entry(nextSeq, nextRev, term, OpTxn, [], [], 0, 0, 0, 0, subOps)];
    }

    // ---------------------------------------------------------- the commit loop

    /** Takes the n requests that have arrived. */
    method TakeBatch(n: nat)
      requires Valid() && stage.Idle? && 0 < n <= |queue|
      modifies this
      ensures Valid() && Abs() == Next(old(Abs()), Take(n))
    {
      TakeKeeps(Abs(), n);
      stage, queue := Taken(queue[..n]), queue[n..];
    }

    /** Applies the batch to the store in one call. */
    method ApplyBatch()
      requires Valid() && stage.Taken?
      modifies this, db
      ensures Valid() && Abs() == Next(old(Abs()), Apply)
    {
      ghost var p := Abs();
      BatchFollows(p);
      db.Apply(stage.batch);
      stage := Applied(stage.batch);
      assert Abs() == p.(applied := p.applied + p.stage.batch, stage := Applied(p.stage.batch));
      ApplyIs(p, Abs());
    }

    method ClearPendingBatch()
      requires Valid() && stage.Applied?
      modifies this
      ensures Valid() && Abs() == Next(old(Abs()), Clear)
    {
      ghost var p := Abs();
      ClearPendings(stage.batch);
      stage := Idle;
      assert Abs() == Next(p, Clear);
      ClearKeeps(p);
    }

    method ClearPendings(batch: seq<Entry>)
      modifies this`pending
      ensures pending == ClearBatch(old(pending), batch)
    {
      for i := 0 to |batch|
        invariant pending == ClearBatch(old(pending), batch[..i])
      {
        assert batch[..i + 1][..i] == batch[..i];
        ClearOne(batch[i]);
      }
      assert batch[..|batch|] == batch;
    }

    method ClearOne(e: Entry)
      modifies this`pending
      ensures pending == ClearEntry(old(pending), e)
    {
      if e.op == OpTxn {
        for i := 0 to |e.ops|
          invariant pending == ClearOps(old(pending), e.revision, e.ops[..i])
        {
          assert e.ops[..i + 1][..i] == e.ops[..i];
          var key := e.ops[i].key;
          if key in pending && pending[key].rev == e.revision {
            pending := pending - {key};
          }
        }
        assert e.ops[..|e.ops|] == e.ops;
        return;
      }
      if e.key == [] {
        return;
      }
      if e.key in pending && pending[e.key].rev == e.revision {
        pending := pending - {e.key};
      }
    }

    /** The caller whose write was the i-th applied one returns. */
    method CleanPending(ghost i: nat, key: Key, rev: int)
      requires Valid() && i < |db.hist| && db.hist[i].op != OpTxn
      requires key == db.hist[i].key && rev == db.hist[i].revision
      modifies this
      ensures Valid() && Abs() == Next(old(Abs()), Settle(i))
    {
      SettleKeeps(Abs(), i);
      if key != [] {
        if key in pending && pending[key].rev == rev {
          pending := pending - {key};
        }
      }
    }
  }

  lemma BatchFollows(p: Pipe)
    requires Inv(p) && p.stage.Taken?
    ensures ValidLog(p.applied + p.stage.batch)
  {
    assert Hist(p) == (p.applied + p.stage.batch) + p.queue;
    RevisionsGrow(p.applied + p.stage.batch, p.queue);
  }

  lemma ApplyIs(p: Pipe, p': Pipe)
    requires Inv(p) && p.stage.Taken?
    requires p' == p.(applied := p.applied + p.stage.batch, stage := Applied(p.stage.batch))
    ensures p' == Next(p, Apply) && Inv(p')
  {
    ApplyKeeps(p);
  }

  lemma PendSingle(pending: Pendings, rev: int, o: SubOp)
    ensures PendOps(pending, rev, [o]) == pending[o.key := Pending(rev, Lookup(ApplySub(map[], rev, o), o.key))]
  {
    assert [o][..0] == [];
  }
}

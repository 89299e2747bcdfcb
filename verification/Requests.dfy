/** What each request does to the key-value state, said without the operations that
    carry it out. */
module Requests {
  import opened Entries
  import opened Mvcc
  import opened Serial

  // ---------------------------------------------------------------- conditions

  /** The number a condition looks at: an absent key has revision, version and lease 0. */
  function Subject(v: View, c: Condition): (n: int) {
    if c.key !in v then 0
    else match c.target
      case CondMod => v[c.key].revision
      case CondCreate => v[c.key].createRev
      case CondVersion => if v[c.key].version > 0 then v[c.key].version else 1
      case CondLease => v[c.key].lease
      case _ => 0
  }

  function Expected(c: Condition): (n: int) {
    match c.target
    case CondMod => c.modRev
    case CondCreate => c.createRev
    case CondVersion => c.version
    case CondLease => c.lease
    case _ => 0
  }

  predicate AboutNumber(c: Condition) {
    c.target in {CondMod, CondCreate, CondVersion, CondLease}
  }

  /** Of a value only equality can be asked; an unknown target or operator never holds. */
  predicate Holds(v: View, c: Condition) {
    var val: Value := if c.key in v then v[c.key].value else [];
    || (c.result == CondEqual && AboutNumber(c) && Subject(v, c) == Expected(c))
    || (c.result == CondNotEqual && AboutNumber(c) && Subject(v, c) != Expected(c))
    || (c.result == CondGreater && AboutNumber(c) && Subject(v, c) > Expected(c))
    || (c.result == CondLess && AboutNumber(c) && Subject(v, c) < Expected(c))
    || (c.result == CondEqual && c.target == CondValue && val == c.value)
    || (c.result == CondNotEqual && c.target == CondValue && val != c.value)
  }

  ghost predicate AllHold(v: View, cs: seq<Condition>) {
    forall i :: 0 <= i < |cs| ==> Holds(v, cs[i])
  }

  lemma ConditionMeans(v: View, c: Condition)
    ensures Matches(c, Lookup(v, c.key)) <==> Holds(v, c)
  {
  }

  /** The conditions are met if and only if each holds in the state. */
  lemma ConditionsMean(v: View, cs: seq<Condition>)
    ensures AllMatch(v, cs) <==> AllHold(v, cs)
  {
    AllMatchMeans(v, cs);
    forall i | 0 <= i < |cs| ensures Matches(cs[i], Lookup(v, cs[i].key)) <==> Holds(v, cs[i]) {
      ConditionMeans(v, cs[i]);
    }
  }

  // -------------------------------------------------------------- single writes

  /** What a key holds after a write: created now or long ago, linked to the revision
      before, one version on. */
  function PutOver(v: View, rev: int, key: Key, value: Value, lease: int): (kv: KeyValue) {
    if key in v then
      KeyValue(key, value, rev, v[key].createRev, v[key].revision, (if v[key].version > 0 then v[key].version else 1) + 1, lease)
    else KeyValue(key, value, rev, rev, 0, 1, lease)
  }

  ghost function After(v: View, d: Decision): (v': View) {
    if d.entry.Some? then ApplyEntry(v, d.entry.value) else v
  }

  lemma PutMeaning(term: nat, v: View, rev: int, id: int, key: Key, value: Value, lease: int)
    ensures var d := Decide(term, v, rev, id, Put(key, value, lease));
            && d.entry.Some? && d.outcome == Written(rev, None, true, {})
            && After(v, d) == v[key := PutOver(v, rev, key, value, lease)]
  {
    SingleWrite(term, v, rev, id, PutOp(Lookup(v, key), rev, key, value, lease));
  }

  /** Creating a live key fails and writes nothing; otherwise it is a put. */
  lemma CreateMeaning(term: nat, v: View, rev: int, id: int, key: Key, value: Value, lease: int)
    ensures var d := Decide(term, v, rev, id, Create(key, value, lease));
            if key in v then d == Decision(None, Failed(ErrKeyExists))
            else d.outcome == Written(rev, None, true, {}) && d.entry.Some? && After(v, d) == v[key := PutOver(v, rev, key, value, lease)]
  {
    if key !in v { SingleWrite(term, v, rev, id, PutOp(None, rev, key, value, lease)); }
  }

  /** A compare-and-swap is a put exactly when the key is live at that revision; the
      reply has what was there. */
  lemma UpdateMeaning(term: nat, v: View, rev: int, id: int, key: Key, value: Value, revision: int, lease: int)
    ensures var d := Decide(term, v, rev, id, Update(key, value, revision, lease));
            if key in v && v[key].revision == revision then
              d.outcome == Written(rev, Some(v[key]), true, {}) && d.entry.Some? && After(v, d) == v[key := PutOver(v, rev, key, value, lease)]
            else d == Decision(None, Unchanged(Lookup(v, key), false))
  {
    if key in v { SingleWrite(term, v, rev, id, PutOp(Some(v[key]), rev, key, value, lease)); }
  }

  lemma DeleteMeaning(term: nat, v: View, rev: int, id: int, key: Key)
    ensures var d := Decide(term, v, rev, id, Delete(key));
            if key in v then d.outcome == Written(rev, None, true, {}) && d.entry.Some? && After(v, d) == v - {key}
            else d == Decision(None, NotFound)
  {
    if key in v { SingleWrite(term, v, rev, id, DeleteOp(v[key], key)); }
  }

  /** Revision 0 deletes a live key whatever its revision. */
  lemma DeleteIfRevisionMeaning(term: nat, v: View, rev: int, id: int, key: Key, revision: int)
    ensures var d := Decide(term, v, rev, id, DeleteIfRevision(key, revision));
            if key in v && (revision == 0 || v[key].revision == revision) then
              d.outcome == Written(rev, Some(v[key]), true, {}) && d.entry.Some? && After(v, d) == v - {key}
            else d == Decision(None, Unchanged(Lookup(v, key), false))
  {
    if key in v { SingleWrite(term, v, rev, id, DeleteOp(v[key], key)); }
  }

  /** A compaction is logged with its target, takes a sequence number but no revision,
      and leaves the state as it is. */
  lemma CompactMeaning(term: nat, l: Log, revision: int)
    ensures var d := Decided(term, l, Compact(revision));
            var l' := Append(l, d.entry);
            && d.entry.Some? && d.outcome == Compacted && l'.rev == l.rev && l'.seqNo == l.seqNo + 1
            && ViewOf(l'.entries) == ViewOf(l.entries) && LastCompact(l'.entries) == revision
  {
    var e := Decided(term, l, Compact(revision)).entry.value;
    assert (l.entries + [e])[..|l.entries|] == l.entries;
  }

  /** Whatever is written carries the leader's term and the next sequence number, and
      a data entry the next revision. */
  lemma EntryStamped(term: nat, v: View, rev: int, id: int, req: Request)
    ensures var d := Decide(term, v, rev, id, req);
            d.entry.Some? ==> && d.entry.value.term == term && d.entry.value.id == id
                              && (req.Compact? <==> d.entry.value.op == OpCompact)
                              && (!req.Compact? ==> d.entry.value.revision == rev)
  {
  }

  // --------------------------------------------------------------- transactions

  /** A put always writes, a delete only if the key is live. */
  predicate TakesEffect(v: View, op: TxnOp) {
    op.kind == TxnPut || (op.kind == TxnDelete && op.key in v)
  }

  function Effective(v: View, ops: seq<TxnOp>): (r: set<int>) {
    set i | 0 <= i < |ops| && TakesEffect(v, ops[i])
  }

  ghost predicate OneEach(v: View, ops: seq<TxnOp>) {
    forall i, j :: i in Effective(v, ops) && j in Effective(v, ops) && i != j ==> ops[i].key != ops[j].key
  }

  function Deleted(v: View, ops: seq<TxnOp>): (keys: set<Key>) {
    set i | i in Effective(v, ops) && ops[i].kind == TxnDelete :: ops[i].key
  }

  ghost function Branch(v: View, req: Request): (ops: seq<TxnOp>)
    requires req.Txn?
  {
    if AllHold(v, req.conditions) then req.success else req.failure
  }

  lemma ResolveIs(v: View, rev: int, op: TxnOp)
    ensures |Resolve(v, rev, op)| == if TakesEffect(v, op) then 1 else 0
    ensures TakesEffect(v, op) ==>
              var o := Resolve(v, rev, op)[0];
              && o.key == op.key && (o.op == OpDelete <==> op.kind == TxnDelete)
              && Lookup(ApplySub(map[], rev, o), op.key) ==
                 if op.kind == TxnDelete then None else Some(PutOver(v, rev, op.key, op.value, op.lease))
  {
  }

  lemma EffectiveMore(v: View, ops: seq<TxnOp>)
    requires ops != []
    ensures var init, n := ops[..|ops| - 1], |ops| - 1;
            Effective(v, ops) == (if TakesEffect(v, ops[n]) then Effective(v, init) + {n} else Effective(v, init)) && n !in Effective(v, init)
  {
    var init := ops[..|ops| - 1];
    assert forall i :: 0 <= i < |init| ==> init[i] == ops[i];
  }

  lemma {:induction false} ActiveCount(v: View, rev: int, ops: seq<TxnOp>)
    ensures |Active(v, rev, ops)| == |Effective(v, ops)|
  {
    if ops == [] {
      assert Effective(v, ops) == {};
    } else {
      ActiveCount(v, rev, ops[..|ops| - 1]);
      EffectiveMore(v, ops);
      ResolveIs(v, rev, ops[|ops| - 1]);
    }
  }

  /** The writes of a branch and its effective operations correspond one to one. */
  lemma {:induction false} ActiveAt(v: View, rev: int, ops: seq<TxnOp>, i: int) returns (j: int)
    requires i in Effective(v, ops)
    ensures 0 <= j < |Active(v, rev, ops)| && Resolve(v, rev, ops[i]) == [Active(v, rev, ops)[j]]
    ensures j == |Effective(v, ops[..i])|
  {
    var init := ops[..|ops| - 1];
    ActiveCount(v, rev, init);
    ResolveIs(v, rev, ops[i]);
    if i < |init| {
      EffectiveMore(v, ops);
      assert init[i] == ops[i] && init[..i] == ops[..i];
      j := ActiveAt(v, rev, init, i);
    } else {
      j := |Active(v, rev, init)|;
    }
  }

  lemma SourceMore(v: View, ops: seq<TxnOp>, i: int)
    requires ops != [] && i in Effective(v, ops[..|ops| - 1])
    ensures i in Effective(v, ops) && ops[..|ops| - 1][i] == ops[i] && ops[..|ops| - 1][..i] == ops[..i]
  {
  }

  lemma {:induction false} ActiveSource(v: View, rev: int, ops: seq<TxnOp>, j: int) returns (i: int)
    requires 0 <= j < |Active(v, rev, ops)|
    ensures i in Effective(v, ops) && Resolve(v, rev, ops[i]) == [Active(v, rev, ops)[j]]
    ensures j == |Effective(v, ops[..i])|
  {
    var init := ops[..|ops| - 1];
    EffectiveMore(v, ops);
    ActiveCount(v, rev, init);
    ResolveIs(v, rev, ops[|ops| - 1]);
    if j < |Active(v, rev, init)| {
      assert Active(v, rev, ops)[j] == Active(v, rev, init)[j];
      i := ActiveSource(v, rev, init, j);
      SourceMore(v, ops, i);
    } else {
      i := |ops| - 1;
    }
  }

  lemma {:induction false} FewerBefore(v: View, ops: seq<TxnOp>, i: int, i': int)
    requires i in Effective(v, ops) && i < i' < |ops|
    ensures |Effective(v, ops[..i])| < |Effective(v, ops[..i'])|
    decreases i'
  {
    EffectiveMore(v, ops[..i']);
    assert ops[..i'][..i' - 1] == ops[..i' - 1] && ops[..i'][i' - 1] == ops[i' - 1];
    if i < i' - 1 { FewerBefore(v, ops, i, i' - 1); }
  }

  lemma DistinctIffOneEach(v: View, rev: int, ops: seq<TxnOp>)
    ensures Distinct(Active(v, rev, ops)) <==> OneEach(v, ops)
  {
    var os := Active(v, rev, ops);
    DistinctMeans(os);
    if DistinctKeys(os) {
      forall i, i' | i in Effective(v, ops) && i' in Effective(v, ops) && i < i' ensures ops[i].key != ops[i'].key {
        var j := ActiveAt(v, rev, ops, i);
        var j' := ActiveAt(v, rev, ops, i');
        FewerBefore(v, ops, i, i');
        ResolveIs(v, rev, ops[i]);
        ResolveIs(v, rev, ops[i']);
      }
    }
    if OneEach(v, ops) {
      forall j, j' | 0 <= j < j' < |os| ensures os[j].key != os[j'].key {
        var i := ActiveSource(v, rev, ops, j);
        var i' := ActiveSource(v, rev, ops, j');
        ResolveIs(v, rev, ops[i]);
        ResolveIs(v, rev, ops[i']);
      }
    }
  }

  lemma DeletedIs(v: View, rev: int, ops: seq<TxnOp>)
    ensures DeletedKeys(Active(v, rev, ops)) == Deleted(v, ops)
  {
    var os := Active(v, rev, ops);
    forall key ensures key in DeletedKeys(os) <==> key in Deleted(v, ops) {
      DeletedKeysMeans(os, key);
      if key in DeletedKeys(os) {
        var j :| 0 <= j < |os| && os[j].op == OpDelete && os[j].key == key;
        var i := ActiveSource(v, rev, ops, j);
        ResolveIs(v, rev, ops[i]);
      }
      if key in Deleted(v, ops) {
        var i :| i in Effective(v, ops) && ops[i].kind == TxnDelete && ops[i].key == key;
        var j := ActiveAt(v, rev, ops, i);
        ResolveIs(v, rev, ops[i]);
      }
    }
  }

  /** The branch is chosen by the conditions. It is written, under the given revision,
      exactly when at least one operation takes effect, they are no more than the limit
      and no two of them name one key; otherwise the reply says which failed. */
  lemma TxnDecision(term: nat, v: View, rev: int, id: int, req: Request)
    requires req.Txn?
    ensures var d, ops, ok := Decide(term, v, rev, id, req), Branch(v, req), AllHold(v, req.conditions);
            if Effective(v, ops) == {} then d == Decision(None, Unchanged(None, ok))
            else if |Effective(v, ops)| > 65535 then d == Decision(None, Failed(ErrTooManyOps))
            else if !OneEach(v, ops) then d == Decision(None, Failed(ErrDuplicateKey))
            else d.entry.Some? && d.entry.value.revision == rev && d.entry.value.id == id && d.outcome == Written(rev, None, ok, Deleted(v, ops))
  {
    var ops := Branch(v, req);
    ConditionsMean(v, req.conditions);
    DecideRunsBranch(term, v, rev, id, req, AllMatch(v, req.conditions));
    ActiveCount(v, rev, ops);
    DistinctIffOneEach(v, rev, ops);
    DeletedIs(v, rev, ops);
  }

  lemma TxnOps(term: nat, v: View, rev: int, id: int, req: Request)
    requires req.Txn? && Decide(term, v, rev, id, req).entry.Some?
    ensures var e, os := Decide(term, v, rev, id, req).entry.value, Active(v, rev, Branch(v, req));
            e.op == OpTxn && e.revision == rev && SubOps(e) == os && DistinctKeys(os)
  {
    ConditionsMean(v, req.conditions);
    DecideRunsBranch(term, v, rev, id, req, AllMatch(v, req.conditions));
    DistinctMeans(Active(v, rev, Branch(v, req)));
  }

  /** A written transaction: every effective delete removes its key, every put makes its
      key what a put alone would have made of the state before, and no other key
      changes. */
  lemma TxnMeaning(term: nat, v: View, rev: int, id: int, req: Request, key: Key)
    requires req.Txn? && Decide(term, v, rev, id, req).entry.Some?
    ensures var v', ops := After(v, Decide(term, v, rev, id, req)), Branch(v, req);
            && (forall i :: i in Effective(v, ops) && ops[i].key == key ==>
                  Lookup(v', key) == if ops[i].kind == TxnDelete then None else Some(PutOver(v, rev, key, ops[i].value, ops[i].lease)))
            && ((forall i :: i in Effective(v, ops) ==> ops[i].key != key) ==> Lookup(v', key) == Lookup(v, key))
  {
    var ops := Branch(v, req);
    var os := Active(v, rev, ops);
    TxnOps(term, v, rev, id, req);
    ApplySubsLookup(v, rev, os, key);
    forall i | i in Effective(v, ops) && ops[i].key == key
      ensures Lookup(ApplySubs(v, rev, os), key) ==
              if ops[i].kind == TxnDelete then None else Some(PutOver(v, rev, key, ops[i].value, ops[i].lease))
    {
      var j := ActiveAt(v, rev, ops, i);
      ResolveIs(v, rev, ops[i]);
    }
    if forall i :: i in Effective(v, ops) ==> ops[i].key != key {
      forall j | 0 <= j < |os| ensures os[j].key != key {
        var i := ActiveSource(v, rev, ops, j);
        ResolveIs(v, rev, ops[i]);
      }
    }
  }

  /** After a written transaction a key it deletes is absent, unless the key was absent
      before and the same branch puts it. */
  lemma DeletedAbsentIff(term: nat, v: View, rev: int, id: int, req: Request, i: int)
    requires req.Txn? && Decide(term, v, rev, id, req).entry.Some?
    requires 0 <= i < |Branch(v, req)| && Branch(v, req)[i].kind == TxnDelete
    ensures var v', ops := After(v, Decide(term, v, rev, id, req)), Branch(v, req);
            ops[i].key !in v' <==> ops[i].key in v || forall j :: 0 <= j < |ops| && ops[j].kind == TxnPut ==> ops[j].key != ops[i].key
  {
    var ops := Branch(v, req);
    TxnMeaning(term, v, rev, id, req, ops[i].key);
    if ops[i].key in v {
      assert i in Effective(v, ops);
    } else if j :| 0 <= j < |ops| && ops[j].kind == TxnPut && ops[j].key == ops[i].key {
      assert j in Effective(v, ops);
    }
  }

  // ------------------------------------------------------------ every written record

  /** The record of one write tells where the key comes from: a live key's creation,
      last revision and version, one more for a put; or a creation now. */
  predicate LinksBack(v: View, rev: int, o: SubOp) {
    if o.key in v then
      && o.op in {OpUpdate, OpDelete} && o.createRev == v[o.key].createRev && o.prevRev == v[o.key].revision
      && o.version == (if v[o.key].version > 0 then v[o.key].version else 1) + if o.op == OpDelete then 0 else 1
    else o.op == OpCreate && o.createRev == rev && o.prevRev == 0 && o.version == 1
  }

  lemma ResolvedLinks(v: View, rev: int, op: TxnOp)
    ensures Resolve(v, rev, op) != [] ==> LinksBack(v, rev, Resolve(v, rev, op)[0])
  {
  }

  lemma TxnLinks(term: nat, v: View, rev: int, id: int, req: Request, j: int)
    requires req.Txn? && Decide(term, v, rev, id, req).entry.Some?
    requires 0 <= j < |SubOps(Decide(term, v, rev, id, req).entry.value)|
    ensures LinksBack(v, rev, SubOps(Decide(term, v, rev, id, req).entry.value)[j])
  {
    TxnOps(term, v, rev, id, req);
    var i := ActiveSource(v, rev, Branch(v, req), j);
    ResolvedLinks(v, rev, Branch(v, req)[i]);
  }

  /** So does every record of whatever a request writes. */
  lemma RecordsLinkBack(term: nat, v: View, rev: int, id: int, req: Request, j: int)
    requires Decide(term, v, rev, id, req).entry.Some? && 0 <= j < |SubOps(Decide(term, v, rev, id, req).entry.value)|
    ensures LinksBack(v, rev, SubOps(Decide(term, v, rev, id, req).entry.value)[j])
  {
    if req.Txn? { TxnLinks(term, v, rev, id, req, j); }
  }

  // --------------------------------------------------------------------- versions

  ghost predicate Names(e: Entry, key: Key, deletes: bool) {
    exists i :: 0 <= i < |SubOps(e)| && SubOps(e)[i].key == key && (SubOps(e)[i].op == OpDelete <==> deletes)
  }

  /** How often key was written since it was last deleted. */
  ghost function PutsSinceDelete(es: seq<Entry>, key: Key): (n: nat) {
    if es == [] then 0
    else
      var init, e := es[..|es| - 1], es[|es| - 1];
      if Names(e, key, true) then 0 else PutsSinceDelete(init, key) + if Names(e, key, false) then 1 else 0
  }

  ghost predicate VersionCounts(es: seq<Entry>, v: View, key: Key) {
    PutsSinceDelete(es, key) == (if key in v then v[key].version else 0) && (key in v ==> v[key].version >= 1)
  }

  lemma CountsMore(es: seq<Entry>, v: View, e: Entry, key: Key)
    requires VersionCounts(es, v, key) && ValidEntry(e)
    requires forall j :: 0 <= j < |SubOps(e)| ==> LinksBack(v, e.revision, SubOps(e)[j])
    ensures VersionCounts(es + [e], ApplyEntry(v, e), key)
  {
    var os := SubOps(e);
    assert (es + [e])[..|es|] == es;
    ApplySubsLookup(v, e.revision, os, key);
    if j :| 0 <= j < |os| && os[j].key == key {
      OnlyOne(e, key, j);
      assert LinksBack(v, e.revision, os[j]);
    } else {
      assert !Names(e, key, true) && !Names(e, key, false);
    }
  }

  lemma OnlyOne(e: Entry, key: Key, j: int)
    requires ValidEntry(e) && 0 <= j < |SubOps(e)| && SubOps(e)[j].key == key
    ensures Names(e, key, SubOps(e)[j].op == OpDelete) && !Names(e, key, SubOps(e)[j].op != OpDelete)
  {
    assert forall i :: 0 <= i < |SubOps(e)| && SubOps(e)[i].key == key ==> i == j;
  }

  lemma CountsDecided(term: nat, l: Log, req: Request, key: Key, v: View, d: Decision)
    requires l.rev >= 0 && v == ViewOf(l.entries) && VersionCounts(l.entries, v, key)
    requires d == Decide(term, v, l.rev + 1, l.seqNo + 1, req)
    ensures VersionCounts(Append(l, d.entry).entries, ViewOf(Append(l, d.entry).entries), key)
  {
    if d.entry.Some? {
      var e := d.entry.value;
      DecidedEntryValid(term, v, l.rev + 1, l.seqNo + 1, req);
      DecidedNumbers(term, v, l.rev + 1, l.seqNo + 1, req);
      forall j | 0 <= j < |SubOps(e)| ensures LinksBack(v, e.revision, SubOps(e)[j]) {
        RecordsLinkBack(term, v, l.rev + 1, l.seqNo + 1, req, j);
      }
      CountsMore(l.entries, v, e, key);
      assert (l.entries + [e])[..|l.entries|] == l.entries;
    }
  }

  /** The version of a live key is the number of writes since it was created: no
      request in between loses or repeats a count. */
  lemma {:induction false} VersionsCount(term: nat, log: Log, reqs: seq<Request>, key: Key)
    requires log.rev >= 0 && VersionCounts(log.entries, ViewOf(log.entries), key)
    ensures Execute(term, log, reqs).rev >= 0
    ensures VersionCounts(Execute(term, log, reqs).entries, ViewOf(Execute(term, log, reqs).entries), key)
  {
    if reqs != [] {
      var l, req := Execute(term, log, reqs[..|reqs| - 1]), reqs[|reqs| - 1];
      VersionsCount(term, log, reqs[..|reqs| - 1], key);
      DecidedIs(term, l, req);
      CountsDecided(term, l, req, key, ViewOf(l.entries), Decided(term, l, req));
      ExecutedOne(term, log, reqs, l, Decided(term, l, req));
    }
  }

  lemma ExecutedOne(term: nat, log: Log, reqs: seq<Request>, l: Log, d: Decision)
    requires reqs != [] && l == Execute(term, log, reqs[..|reqs| - 1]) && d == Decided(term, l, reqs[|reqs| - 1]) && l.rev >= 0
    ensures Execute(term, log, reqs) == Append(l, d.entry) && Append(l, d.entry).rev >= 0
  {
  }
}

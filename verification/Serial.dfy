/** What each client request does when requests are executed one at a time. */
module Serial {
  import opened Entries
  import opened Mvcc

  datatype CondTarget = CondMod | CondVersion | CondCreate | CondValue | CondLease | CondOtherTarget
  datatype CondResult = CondEqual | CondNotEqual | CondGreater | CondLess | CondOtherResult
  datatype Condition = Condition(key: Key, target: CondTarget, result: CondResult, modRev: int,
                                 createRev: int, version: int, value: Value, lease: int)

  datatype TxnOpType = TxnPut | TxnDelete | TxnOther
  datatype TxnOp = TxnOp(kind: TxnOpType, key: Key, value: Value, lease: int)

  datatype Request =
    | Put(key: Key, value: Value, lease: int)
    | Create(key: Key, value: Value, lease: int)
    | Update(key: Key, value: Value, revision: int, lease: int)
    | Delete(key: Key)
    | DeleteIfRevision(key: Key, revision: int)
    | Txn(conditions: seq<Condition>, success: seq<TxnOp>, failure: seq<TxnOp>)
    | Compact(revision: int)

  datatype Error = ErrKeyExists | ErrTooManyOps | ErrDuplicateKey

  /** What the caller learns. Unchanged replies carry the store's committed
      revision at that moment, which is not part of the outcome. */
  datatype Outcome =
    | Written(rev: int, prior: Option<KeyValue>, succeeded: bool, deleted: set<Key>)
    | Unchanged(existing: Option<KeyValue>, succeeded: bool)
    | NotFound
    | Compacted
    | Failed(error: Error)

  datatype Decision = Decision(entry: Option<Entry>, outcome: Outcome)

  const MAX_TXN_OPS := 65535

  // ------------------------------------------------------------- single writes

  function KvVersion(existing: Option<KeyValue>): (version: int) {
    if existing.None? then 0 else EntryVersion(existing.value.version)
  }

  function PutOp(existing: Option<KeyValue>, rev: int, key: Key, value: Value, lease: int): (o: SubOp) {
    if existing.None? then SubOp(OpCreate, key, value, lease, rev, 0, 1)
    else SubOp(OpUpdate, key, value, lease, existing.value.createRev, existing.value.revision, KvVersion(existing) + 1)
  }

  function DeleteOp(existing: KeyValue, key: Key): (o: SubOp) {
    SubOp(OpDelete, key, [], 0, existing.createRev, existing.revision, EntryVersion(existing.version))
  }

  function EntryOf(term: nat, rev: int, id: int, o: SubOp): (e: Entry) {
    Entry(id, rev, term, o.op, o.key, o.value, o.lease, o.createRev, o.prevRev, o.version, [])
  }

  // -------------------------------------------------------------- transactions

  function Compare(result: CondResult, lhs: int, rhs: int): (b: bool) {
    match result
    case CondEqual => lhs == rhs
    case CondNotEqual => lhs != rhs
    case CondGreater => lhs > rhs
    case CondLess => lhs < rhs
    case CondOtherResult => false
  }

  /** An absent key compares as revision, version and lease 0 and the empty value. */
  predicate Matches(c: Condition, existing: Option<KeyValue>) {
    match c.target
    case CondMod => Compare(c.result, if existing.Some? then existing.value.revision else 0, c.modRev)
    case CondVersion => Compare(c.result, KvVersion(existing), c.version)
    case CondCreate => Compare(c.result, if existing.Some? then existing.value.createRev else 0, c.createRev)
    case CondLease => Compare(c.result, if existing.Some? then existing.value.lease else 0, c.lease)
    case CondValue =>
      var val := if existing.Some? then existing.value.value else [];
      (c.result == CondEqual && val == c.value) || (c.result == CondNotEqual && val != c.value)
    case CondOtherTarget => false
  }

  predicate AllMatch(v: View, cs: seq<Condition>) {
    cs == [] || (AllMatch(v, cs[..|cs| - 1]) && Matches(cs[|cs| - 1], Lookup(v, cs[|cs| - 1].key)))
  }

  lemma {:induction false} AllMatchMeans(v: View, cs: seq<Condition>)
    ensures AllMatch(v, cs) <==> forall i :: 0 <= i < |cs| ==> Matches(cs[i], Lookup(v, cs[i].key))
  {
    if cs != [] { AllMatchMeans(v, cs[..|cs| - 1]); }
  }

  /** The writes of one branch operation: deleting an absent key writes nothing. */
  function Resolve(v: View, rev: int, op: TxnOp): (os: seq<SubOp>) {
    var existing := Lookup(v, op.key);
    match op.kind
    case TxnPut => [PutOp(existing, rev, op.key, op.value, op.lease)]
    case TxnDelete => if existing.None? then [] else [DeleteOp(existing.value, op.key)]
    case TxnOther => []
  }

  /** Every operation of a branch sees the state before the transaction. */
  function Active(v: View, rev: int, ops: seq<TxnOp>): (os: seq<SubOp>) {
    if ops == [] then [] else Active(v, rev, ops[..|ops| - 1]) + Resolve(v, rev, ops[|ops| - 1])
  }

  predicate DistinctKeys(os: seq<SubOp>) {
    forall i, j :: 0 <= i < j < |os| ==> os[i].key != os[j].key
  }

  function KeysOf(os: seq<SubOp>): (ks: set<Key>) {
    if os == [] then {} else KeysOf(os[..|os| - 1]) + {os[|os| - 1].key}
  }

  predicate Distinct(os: seq<SubOp>) {
    os == [] || (Distinct(os[..|os| - 1]) && os[|os| - 1].key !in KeysOf(os[..|os| - 1]))
  }

  lemma {:induction false} KeysOfMeans(os: seq<SubOp>, key: Key)
    ensures key in KeysOf(os) <==> exists i :: 0 <= i < |os| && os[i].key == key
  {
    if os != [] { KeysOfMeans(os[..|os| - 1], key); }
  }

  lemma {:induction false} DistinctMeans(os: seq<SubOp>)
    ensures Distinct(os) <==> DistinctKeys(os)
  {
    if os != [] {
      DistinctMeans(os[..|os| - 1]);
      KeysOfMeans(os[..|os| - 1], os[|os| - 1].key);
    }
  }

  function DeletedKeys(os: seq<SubOp>): (ks: set<Key>) {
    if os == [] then {}
    else DeletedKeys(os[..|os| - 1]) + if os[|os| - 1].op == OpDelete then {os[|os| - 1].key} else {}
  }

  lemma {:induction false} DeletedKeysMeans(os: seq<SubOp>, key: Key)
    ensures key in DeletedKeys(os) <==> exists i :: 0 <= i < |os| && os[i].op == OpDelete && os[i].key == key
  {
    if os != [] { DeletedKeysMeans(os[..|os| - 1], key); }
  }

  function DecideTxn(term: nat, v: View, rev: int, id: int, succeeded: bool, branch: seq<TxnOp>): (d: Decision) {
    var os := Active(v, rev, branch);
    if os == [] then Decision(None, Unchanged(None, succeeded))
    else if |os| > MAX_TXN_OPS then Decision(None, Failed(ErrTooManyOps))
    else if !Distinct(os) then Decision(None, Failed(ErrDuplicateKey))
    else Decision(Some(Entry(id, rev, term, OpTxn, [], [], 0, 0, 0, 0, os)), Written(rev, None, succeeded, DeletedKeys(os)))
  }

  // ------------------------------------------------------------ the one-at-a-time machine

  /** The entry a request appends to a log with state v, if it is given revision
      rev and sequence id, and what its caller learns. */
  function Decide(term: nat, v: View, rev: int, id: int, req: Request): (d: Decision) {
    match req
    case Put(key, value, lease) =>
      Decision(Some(EntryOf(term, rev, id, PutOp(Lookup(v, key), rev, key, value, lease))), Written(rev, None, true, {}))
    case Create(key, value, lease) =>
      if key in v then Decision(None, Failed(ErrKeyExists))
      else Decision(Some(EntryOf(term, rev, id, PutOp(None, rev, key, value, lease))), Written(rev, None, true, {}))
    case Update(key, value, revision, lease) =>
      if key !in v || v[key].revision != revision then Decision(None, Unchanged(Lookup(v, key), false))
      else Decision(Some(EntryOf(term, rev, id, PutOp(Some(v[key]), rev, key, value, lease))), Written(rev, Some(v[key]), true, {}))
    case Delete(key) =>
      if key !in v then Decision(None, NotFound)
      else Decision(Some(EntryOf(term, rev, id, DeleteOp(v[key], key))), Written(rev, None, true, {}))
    case DeleteIfRevision(key, revision) =>
      if key !in v || (revision != 0 && v[key].revision != revision) then Decision(None, Unchanged(Lookup(v, key), false))
      else Decision(Some(EntryOf(term, rev, id, DeleteOp(v[key], key))), Written(rev, Some(v[key]), true, {}))
    case Txn(conditions, success, failure) =>
      var succeeded := AllMatch(v, conditions);
      DecideTxn(term, v, rev, id, succeeded, if succeeded then success else failure)
    case Compact(revision) =>
      Decision(Some(Entry(id, rev - 1, term, OpCompact, [], [], 0, 0, revision, 0, [])), Compacted)
  }

  lemma DecideRunsBranch(term: nat, v: View, rev: int, id: int, req: Request, succeeded: bool)
    requires req.Txn? && succeeded == AllMatch(v, req.conditions)
    ensures Decide(term, v, rev, id, req) ==
            DecideTxn(term, v, rev, id, succeeded, if succeeded then req.success else req.failure)
  {
  }

  /** The log so far with the last revision and sequence number assigned. */
  datatype Log = Log(entries: seq<Entry>, rev: int, seqNo: int)

  function Decided(term: nat, log: Log, req: Request): (d: Decision) {
    Decide(term, ViewOf(log.entries), log.rev + 1, log.seqNo + 1, req)
  }

  function Append(log: Log, entry: Option<Entry>): (log': Log) {
    if entry.None? then log
    else Log(log.entries + [entry.value], if IsData(entry.value) then log.rev + 1 else log.rev, log.seqNo + 1)
  }

  function Execute(term: nat, log: Log, reqs: seq<Request>): (log': Log) {
    if reqs == [] then log
    else var l := Execute(term, log, reqs[..|reqs| - 1]); Append(l, Decided(term, l, reqs[|reqs| - 1]).entry)
  }

  function Outcomes(term: nat, log: Log, reqs: seq<Request>): (os: seq<Outcome>)
    ensures |os| == |reqs|
  {
    if reqs == [] then []
    else
      Outcomes(term, log, reqs[..|reqs| - 1]) +
      [Decided(term, Execute(term, log, reqs[..|reqs| - 1]), reqs[|reqs| - 1]).outcome]
  }

  // ------------------------------------------------ what the decided entries do

  lemma {:induction false} ActiveOps(v: View, rev: int, ops: seq<TxnOp>)
    ensures forall i :: 0 <= i < |Active(v, rev, ops)| ==> Active(v, rev, ops)[i].op in {OpCreate, OpUpdate, OpDelete}
    ensures |Active(v, rev, ops)| <= |ops|
  {
    if ops != [] { ActiveOps(v, rev, ops[..|ops| - 1]); }
  }

  lemma DecidedNumbers(term: nat, v: View, rev: int, id: int, req: Request)
    ensures var d := Decide(term, v, rev, id, req);
            d.entry.Some? ==> && d.entry.value.id == id && (IsData(d.entry.value) <==> !req.Compact?)
                              && (if IsData(d.entry.value) then d.entry.value.revision == rev else d.entry.value.key == [])
  {
  }

  lemma DecidedTxnValid(term: nat, v: View, rev: int, id: int, succeeded: bool, branch: seq<TxnOp>)
    requires rev > 0
    ensures var d := DecideTxn(term, v, rev, id, succeeded, branch); d.entry.Some? ==> ValidEntry(d.entry.value)
  {
    ActiveOps(v, rev, branch);
    DistinctMeans(Active(v, rev, branch));
  }

  lemma DecidedEntryValid(term: nat, v: View, rev: int, id: int, req: Request)
    requires rev > 0
    ensures var d := Decide(term, v, rev, id, req);
            d.entry.Some? ==> ValidEntry(d.entry.value)
  {
    if req.Txn? {
      var succeeded := AllMatch(v, req.conditions);
      DecidedTxnValid(term, v, rev, id, succeeded, if succeeded then req.success else req.failure);
    }
  }

  lemma SingleWrite(term: nat, v: View, rev: int, id: int, o: SubOp)
    requires o.op in {OpCreate, OpUpdate, OpDelete}
    ensures SubOps(EntryOf(term, rev, id, o)) == [o]
    ensures ApplyEntry(v, EntryOf(term, rev, id, o)) == ApplySub(v, rev, o)
  {
    assert SubOps(EntryOf(term, rev, id, o)) == [o];
    assert [o][..0] == [];
    assert ApplySubs(v, rev, [o]) == ApplySub(ApplySubs(v, rev, []), rev, o);
  }

  // ------------------------------------------------------ properties of the log

  /** l continues log with sequence numbers that have no gap. */
  ghost predicate Continues(log: Log, l: Log) {
    && log.entries <= l.entries && log.rev <= l.rev
    && l.seqNo == log.seqNo + |l.entries| - |log.entries|
    && (forall i :: |log.entries| <= i < |l.entries| ==> l.entries[i].id == log.seqNo + 1 + i - |log.entries|)
  }

  lemma ContinuesMore(log: Log, l: Log, entry: Option<Entry>)
    requires Continues(log, l) && (entry.Some? ==> entry.value.id == l.seqNo + 1)
    ensures Continues(log, Append(l, entry))
  {
  }

  lemma ContinuesDecided(term: nat, log: Log, l: Log, req: Request)
    requires Continues(log, l) && log.rev >= 0
    ensures Continues(log, Append(l, Decided(term, l, req).entry))
  {
    DecidedNumbers(term, ViewOf(l.entries), l.rev + 1, l.seqNo + 1, req);
    ContinuesMore(log, l, Decided(term, l, req).entry);
  }

  lemma {:induction false} SequencesConsecutive(term: nat, log: Log, reqs: seq<Request>)
    requires log.rev >= 0
    ensures Continues(log, Execute(term, log, reqs))
  {
    if reqs != [] {
      SequencesConsecutive(term, log, reqs[..|reqs| - 1]);
      ContinuesDecided(term, log, Execute(term, log, reqs[..|reqs| - 1]), reqs[|reqs| - 1]);
    }
  }

  /** A key has at most one version per revision since its creation. */
  predicate Bounded(kv: KeyValue) {
    1 <= kv.createRev <= kv.revision && 1 <= kv.version <= kv.revision - kv.createRev + 1
  }

  predicate BoundedView(v: View, rev: int) {
    forall key :: key in v ==> Bounded(v[key]) && v[key].revision <= rev
  }

  /** The bound a log record inherits: it counts the versions up to the previous
      revision, and its own unless it is a delete. */
  predicate BoundedOp(o: SubOp, rev: int) {
    if o.op == OpCreate then o.createRev == rev && o.prevRev == 0 && o.version == 1
    else 1 <= o.createRev <= o.prevRev < rev && 1 <= o.version <= o.prevRev - o.createRev + if o.op == OpDelete then 1 else 2
  }

  ghost predicate BoundedEntry(e: Entry) {
    forall i :: 0 <= i < |SubOps(e)| ==> BoundedOp(SubOps(e)[i], e.revision)
  }

  lemma {:induction false} ActiveBounded(v: View, rev: int, ops: seq<TxnOp>)
    requires BoundedView(v, rev - 1) && rev >= 1
    ensures forall i :: 0 <= i < |Active(v, rev, ops)| ==> BoundedOp(Active(v, rev, ops)[i], rev)
  {
    if ops != [] { ActiveBounded(v, rev, ops[..|ops| - 1]); }
  }

  lemma DecidedTxnBounded(term: nat, v: View, rev: int, id: int, succeeded: bool, branch: seq<TxnOp>)
    requires BoundedView(v, rev - 1) && rev >= 1
    ensures var d := DecideTxn(term, v, rev, id, succeeded, branch); d.entry.Some? ==> BoundedEntry(d.entry.value)
  {
    ActiveBounded(v, rev, branch);
  }

  lemma DecidedBounded(term: nat, v: View, rev: int, id: int, req: Request)
    requires BoundedView(v, rev - 1) && rev >= 1
    ensures var d := Decide(term, v, rev, id, req); d.entry.Some? ==> BoundedEntry(d.entry.value)
  {
    if req.Txn? {
      var succeeded := AllMatch(v, req.conditions);
      DecidedTxnBounded(term, v, rev, id, succeeded, if succeeded then req.success else req.failure);
    }
  }

  lemma {:induction false} BoundedAfter(v: View, rev: int, ops: seq<SubOp>)
    requires BoundedView(v, rev) && rev >= 1 && forall i :: 0 <= i < |ops| ==> BoundedOp(ops[i], rev)
    ensures BoundedView(ApplySubs(v, rev, ops), rev)
  {
    if ops != [] { BoundedAfter(v, rev, ops[..|ops| - 1]); }
  }

  ghost predicate BoundedLog(l: Log, from: nat) {
    && l.rev >= 0 && BoundedView(ViewOf(l.entries), l.rev)
    && forall i :: from <= i < |l.entries| ==> BoundedEntry(l.entries[i])
  }

  lemma BoundedMore(l: Log, from: nat, e: Entry)
    requires BoundedLog(l, from) && BoundedEntry(e) && (IsData(e) ==> e.revision == l.rev + 1)
    ensures BoundedLog(Append(l, Some(e)), from)
  {
    assert (l.entries + [e])[..|l.entries|] == l.entries;
    if IsData(e) { BoundedAfter(ViewOf(l.entries), e.revision, SubOps(e)); }
  }

  ghost predicate Fits(l: Log, entry: Option<Entry>) {
    entry.Some? ==> BoundedEntry(entry.value) && (IsData(entry.value) ==> entry.value.revision == l.rev + 1)
  }

  lemma DecideFits(term: nat, v: View, l: Log, req: Request)
    requires l.rev >= 0 && BoundedView(v, l.rev)
    ensures Fits(l, Decide(term, v, l.rev + 1, l.seqNo + 1, req).entry)
  {
    DecidedBounded(term, v, l.rev + 1, l.seqNo + 1, req);
    DecidedNumbers(term, v, l.rev + 1, l.seqNo + 1, req);
  }

  lemma DecidedIs(term: nat, l: Log, req: Request)
    ensures Decided(term, l, req) == Decide(term, ViewOf(l.entries), l.rev + 1, l.seqNo + 1, req)
  {
  }

  lemma DecidedLog(term: nat, l: Log, es: seq<Entry>, rev: int, seqNo: int, req: Request)
    requires l == Log(es, rev, seqNo)
    ensures Decided(term, l, req) == Decide(term, ViewOf(es), rev + 1, seqNo + 1, req)
  {
  }

  lemma SameFits(l: Log, a: Option<Entry>, b: Option<Entry>)
    requires Fits(l, a) && a == b
    ensures Fits(l, b)
  {
  }

  lemma DecidedFits(term: nat, l: Log, req: Request, v: View)
    requires l.rev >= 0 && v == ViewOf(l.entries) && BoundedView(v, l.rev)
    ensures Fits(l, Decided(term, l, req).entry)
  {
    DecideFits(term, v, l, req);
    DecidedIs(term, l, req);
    SameFits(l, Decide(term, v, l.rev + 1, l.seqNo + 1, req).entry, Decided(term, l, req).entry);
  }

  lemma BoundedAppend(l: Log, from: nat, entry: Option<Entry>)
    requires BoundedLog(l, from) && Fits(l, entry)
    ensures BoundedLog(Append(l, entry), from)
  {
    if entry.Some? { BoundedMore(l, from, entry.value); }
  }

  /** Every record a leader writes after a bounded state obeys the bound. */
  lemma {:induction false} RecordsBounded(term: nat, log: Log, reqs: seq<Request>)
    requires BoundedLog(log, |log.entries|)
    ensures BoundedLog(Execute(term, log, reqs), |log.entries|)
  {
    if reqs != [] {
      var l, req := Execute(term, log, reqs[..|reqs| - 1]), reqs[|reqs| - 1];
      RecordsBounded(term, log, reqs[..|reqs| - 1]);
      DecidedFits(term, l, req, ViewOf(l.entries));
      BoundedAppend(l, |log.entries|, Decided(term, l, req).entry);
    }
  }
}

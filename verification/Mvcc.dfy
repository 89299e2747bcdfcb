/** The reference semantics of a sequence of WAL entries: the key-value state
    they produce when applied one after another to a plain map. */
module Mvcc {
  import opened Entries

  type View = map<Key, KeyValue>

  function Lookup(v: View, key: Key): (r: Option<KeyValue>) {
    if key in v then Some(v[key]) else None
  }

  lemma SameLookups(a: View, b: View)
    requires forall key: Key :: Lookup(a, key) == Lookup(b, key)
    ensures a == b
  {
    forall key: Key ensures key in a <==> key in b {
      assert Lookup(a, key) == Lookup(b, key);
    }
    forall key: Key | key in a ensures a[key] == b[key] {
      assert Lookup(a, key) == Lookup(b, key);
    }
  }

  /** Entries written before versions existed carry 0 and count as version 1. */
  function EntryVersion(version: int): (r: int)
    ensures r >= 1
  {
    if version > 0 then version else 1
  }

  /** One write of op at revision rev. */
  function ApplySub(v: View, rev: int, o: SubOp): (v': View) {
    if o.op == OpDelete then v - {o.key}
    else v[o.key := KeyValue(o.key, o.value, rev, o.createRev, o.prevRev, EntryVersion(o.version), o.lease)]
  }

  function ApplySubs(v: View, rev: int, ops: seq<SubOp>): (v': View) {
    if ops == [] then v else ApplySub(ApplySubs(v, rev, ops[..|ops| - 1]), rev, ops[|ops| - 1])
  }

  /** The writes an entry performs: its own, or those of its transaction. */
  function SubOps(e: Entry): (ops: seq<SubOp>) {
    match e.op
    case OpCompact => []
    case OpTxn => e.ops
    case _ => [SubOp(e.op, e.key, e.value, e.lease, e.createRev, e.prevRev, e.version)]
  }

  function ApplyEntry(v: View, e: Entry): (v': View) {
    ApplySubs(v, e.revision, SubOps(e))
  }

  /** The state after all entries. */
  function ViewOf(es: seq<Entry>): (v: View) {
    if es == [] then map[] else ApplyEntry(ViewOf(es[..|es| - 1]), es[|es| - 1])
  }

  predicate IsData(e: Entry) {
    e.op != OpCompact
  }

  /** The state after the entries whose revision is at most rev. */
  function ViewAt(es: seq<Entry>, rev: int): (v: View) {
    if es == [] then map[]
    else if IsData(es[|es| - 1]) && es[|es| - 1].revision <= rev then
      ApplyEntry(ViewAt(es[..|es| - 1], rev), es[|es| - 1])
    else ViewAt(es[..|es| - 1], rev)
  }

  /** The highest revision, sequence and compaction target among entries. */
  function CurrentRev(es: seq<Entry>): (r: int) {
    if es == [] then 0
    else if IsData(es[|es| - 1]) then Max(CurrentRev(es[..|es| - 1]), es[|es| - 1].revision)
    else CurrentRev(es[..|es| - 1])
  }

  function LastSeq(es: seq<Entry>): (r: int) {
    if es == [] then 0 else Max(LastSeq(es[..|es| - 1]), es[|es| - 1].Sequence())
  }

  function MaxCompact(es: seq<Entry>): (r: int) {
    if es == [] then 0
    else if IsData(es[|es| - 1]) then MaxCompact(es[..|es| - 1])
    else Max(MaxCompact(es[..|es| - 1]), es[|es| - 1].prevRev)
  }

  /** The target of the last compaction, or 0. */
  function LastCompact(es: seq<Entry>): (r: int) {
    if es == [] then 0
    else if IsData(es[|es| - 1]) then LastCompact(es[..|es| - 1])
    else es[|es| - 1].prevRev
  }

  function Max(a: int, b: int): (m: int) {
    if a >= b then a else b
  }

  /** A transaction writes each key at most once and fits its 16-bit sub-index. */
  ghost predicate ValidEntry(e: Entry) {
    && (IsData(e) ==> e.revision > 0)
    && |SubOps(e)| <= 0x10000
    && (forall i :: 0 <= i < |SubOps(e)| ==> SubOps(e)[i].op in {OpCreate, OpUpdate, OpDelete})
    && (forall i, j :: 0 <= i < j < |SubOps(e)| ==> SubOps(e)[i].key != SubOps(e)[j].key)
  }

  /** A log as a leader produces it: data revisions ascend from 1. */
  ghost predicate ValidLog(es: seq<Entry>) {
    es == [] ||
    (var init, e := es[..|es| - 1], es[|es| - 1];
     ValidLog(init) && ValidEntry(e) && (IsData(e) ==> e.revision > CurrentRev(init)))
  }

  lemma {:induction false} ViewAtCurrent(es: seq<Entry>, rev: int)
    requires ValidLog(es) && rev >= CurrentRev(es)
    ensures ViewAt(es, rev) == ViewOf(es)
  {
    if es != [] {
      ViewAtCurrent(es[..|es| - 1], rev);
    }
  }

  lemma {:induction false} ApplySubsLookup(v: View, rev: int, ops: seq<SubOp>, key: Key)
    requires forall i, j :: 0 <= i < j < |ops| ==> ops[i].key != ops[j].key
    ensures (forall i :: 0 <= i < |ops| ==> ops[i].key != key) ==> Lookup(ApplySubs(v, rev, ops), key) == Lookup(v, key)
    ensures forall i :: 0 <= i < |ops| && ops[i].key == key ==> Lookup(ApplySubs(v, rev, ops), key) == Lookup(ApplySub(map[], rev, ops[i]), key)
  {
    if ops != [] {
      var init, o := ops[..|ops| - 1], ops[|ops| - 1];
      ApplySubsLookup(v, rev, init, key);
      assert forall i :: 0 <= i < |init| ==> init[i] == ops[i];
      forall i | 0 <= i < |ops| && ops[i].key == key
        ensures Lookup(ApplySubs(v, rev, ops), key) == Lookup(ApplySub(map[], rev, ops[i]), key)
      {
        if i < |init| {
          assert init[i] == ops[i];
          assert o.key != key;
        }
      }
    }
  }

  lemma {:induction false} CompactBelowMax(es: seq<Entry>)
    ensures LastCompact(es) <= MaxCompact(es) && MaxCompact(es) >= 0
  {
    if es != [] { CompactBelowMax(es[..|es| - 1]); }
  }
}

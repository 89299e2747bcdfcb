/** Where each field lies in the stored bytes, and the transactions of segments that
    were written before versions existed. */
module Formats {
  import opened Bytes
  import opened Entries
  import opened StoreState
  import StoreReads
  import EntryCodec
  import RecordCodec

  /** A 64-bit number at a position, most significant byte first. */
  predicate At64(b: seq<Byte>, at: nat, x: int) {
    at + 8 <= |b| && b[at..at + 8] == Big(8, Unsigned64(x))
  }

  predicate At32(b: seq<Byte>, at: nat, x: nat) {
    at + 4 <= |b| && b[at..at + 4] == Big(4, x % TWO32)
  }

  lemma BlockLayout(op: Byte, xs: seq<int>, key: seq<Byte>, value: seq<Byte>, i: nat)
    requires i < |xs|
    ensures At64(EntryCodec.Block(op, xs, key, value), 1 + 8 * i, xs[i])
  {
    var b := EntryCodec.Block(op, xs, key, value);
    EntryCodec.BlockSplit(op, xs, key, value, []);
    assert b + [] == b;
    EntryCodec.BlockFieldAt(op, xs, Big(4, |key| % TWO32) + Big(4, |value| % TWO32) + (key + value + []), i);
  }

  lemma BlockEnds(op: Byte, xs: seq<int>, key: seq<Byte>, value: seq<Byte>)
    ensures var b, n := EntryCodec.Block(op, xs, key, value), 1 + 8 * |xs|;
            && |b| == n + 8 + |key| + |value| && b[0] == op && At32(b, n, |key|) && At32(b, n + 4, |value|) && b[n + 8..] == key + value
  {
    var b := EntryCodec.Block(op, xs, key, value);
    EntryCodec.BlockTailBytes(op, xs, key, value, []);
    assert b + [] == b && key + value + [] == key + value;
  }

  /** A WAL entry: operation, revision, term, lease, creation and previous revision, ID,
      version, the lengths of key and value, and both. */
  lemma EntryLayout(e: EntryCodec.Wire)
    ensures var b := EntryCodec.Payload(e);
            && b[..1] == [e.op] && At64(b, 1, e.revision) && At64(b, 9, e.term) && At64(b, 17, e.lease) && At64(b, 25, e.createRev)
            && At64(b, 33, e.prevRev) && At64(b, 41, if e.id != 0 then e.id else e.revision) && At64(b, 49, e.version)
            && At32(b, 57, |e.key|) && At32(b, 61, |e.value|) && b[65..] == e.key + e.value
  {
    var xs := EntryCodec.EntryFields(e);
    BlockLayout(e.op, xs, e.key, e.value, 0);
    BlockLayout(e.op, xs, e.key, e.value, 1);
    BlockLayout(e.op, xs, e.key, e.value, 2);
    BlockLayout(e.op, xs, e.key, e.value, 3);
    BlockLayout(e.op, xs, e.key, e.value, 4);
    BlockLayout(e.op, xs, e.key, e.value, 5);
    BlockLayout(e.op, xs, e.key, e.value, 6);
    BlockEnds(e.op, xs, e.key, e.value);
  }

  /** One write of a transaction: operation, lease, creation and previous revision,
      version, lengths, key and value. */
  lemma TxnOpLayout(o: EntryCodec.WireOp)
    ensures var b := EntryCodec.OpBlock(o);
            && b[..1] == [o.op] && At64(b, 1, o.lease) && At64(b, 9, o.createRev) && At64(b, 17, o.prevRev) && At64(b, 25, o.version)
            && At32(b, 33, |o.key|) && At32(b, 37, |o.value|) && b[41..] == o.key + o.value
  {
    var xs := [o.lease, o.createRev, o.prevRev, o.version];
    BlockLayout(o.op, xs, o.key, o.value, 0);
    BlockLayout(o.op, xs, o.key, o.value, 1);
    BlockLayout(o.op, xs, o.key, o.value, 2);
    BlockLayout(o.op, xs, o.key, o.value, 3);
    BlockEnds(o.op, xs, o.key, o.value);
  }

  /** A segment starts with T4, the version and a newline, its term and its first
      sequence. */
  lemma SegmentLayout(term: nat, first: int)
    ensures var b := EntryCodec.SegmentHeader(term, first); b[..4] == [84, 52, 2, 10] && At64(b, 4, term) && At64(b, 12, first)
  {
    EntryCodec.HeaderParts([84, 52, 2, 10], Big(8, Unsigned64(term)), Big(8, Unsigned64(first)), []);
    assert EntryCodec.SegmentHeader(term, first) + [] == EntryCodec.SegmentHeader(term, first);
  }

  /** A log row: bit 0 for a creation and bit 1 for a delete, creation and previous
      revision, lease, version, the length of the key, key and value. */
  lemma RecordLayout(r: Record)
    ensures var b := RecordCodec.Marshal(r);
            && |b| == 37 + |r.key| + |r.value|
            && b[0] == (if r.create then 1 else 0) + (if r.delete then 2 else 0)
            && At64(b, 1, r.createRev) && At64(b, 9, r.prevRev) && At64(b, 17, r.lease) && At64(b, 25, r.version)
            && At32(b, 33, |r.key|) && b[37..37 + |r.key|] == r.key && b[37 + |r.key|..] == r.value
  {
    RecordCodec.FrontAt(r, Big(8, Unsigned64(r.version)) + Big(4, |r.key| % TWO32) + r.key + r.value);
    RecordCodec.NewSlices(RecordCodec.Front(r), Big(8, Unsigned64(r.version)), Big(4, |r.key| % TWO32), r.key, r.value);
  }

  /** The write a log row stands for. */
  function WriteOf(r: Record): (o: SubOp) {
    SubOp(if r.delete then OpDelete else if r.create then OpCreate else OpUpdate, r.key, r.value, r.lease, r.createRev, r.prevRev, r.version)
  }

  /** A log row loses nothing of a write, except that no version counts as the first. */
  lemma RowKeepsWrite(o: SubOp)
    requires o.op in {OpCreate, OpUpdate, OpDelete}
    ensures WriteOf(RecordOf(o)) == o.(version := if o.version > 0 then o.version else 1)
  {
  }

  /** A row from before versions is read as the first version of its key. */
  lemma OldRowVersion(key: Key, rev: int, r: Record)
    requires r.version <= 0 && !r.delete
    ensures StoreReads.RecordToKV(key, rev, r) == KeyValue(key, r.value, rev, r.createRev, r.prevRev, 1, r.lease)
  {
  }

  // ------------------------------------------------- transactions without versions

  function OldOpBlock(o: EntryCodec.WireOp): (bs: seq<Byte>) {
    EntryCodec.Block(o.op, [o.lease, o.createRev, o.prevRev], o.key, o.value)
  }

  function OldOpBlocks(os: seq<EntryCodec.WireOp>): (bs: seq<Byte>) {
    if os == [] then [] else OldOpBlock(os[0]) + OldOpBlocks(os[1..])
  }

  /** A plain count and writes without a version. */
  function OldTxn(os: seq<EntryCodec.WireOp>): (bs: seq<Byte>) {
    Big(4, |os| % TWO32) + OldOpBlocks(os)
  }

  function Unversioned(os: seq<EntryCodec.WireOp>): (r: seq<EntryCodec.WireOp>) {
    seq(|os|, i requires 0 <= i < |os| => os[i].(version := 0))
  }

  lemma OldOpBack(o: EntryCodec.WireOp, rest: seq<Byte>)
    requires EntryCodec.EncodableOp(o)
    ensures var r := EntryCodec.ReadBlock(OldOpBlock(o) + rest, 3);
            r.Some? && EntryCodec.OpFrom(r.value, false) == o.(version := 0) && r.value.rest == rest
  {
    EntryCodec.ReadBlockBack(o.op, [o.lease, o.createRev, o.prevRev], o.key, o.value, rest);
    SignedUnsigned(o.lease);
    SignedUnsigned(o.createRev);
    SignedUnsigned(o.prevRev);
  }

  lemma OldOneOp(o: EntryCodec.WireOp, rest: seq<Byte>, count: nat, more: seq<EntryCodec.WireOp>)
    requires EntryCodec.EncodableOp(o) && count > 0 && EntryCodec.ReadOps(rest, count - 1, false) == Some(more)
    ensures EntryCodec.ReadOps(OldOpBlock(o) + rest, count, false) == Some([o.(version := 0)] + more)
  {
    OldOpBack(o, rest);
  }

  lemma UnversionedMore(o: EntryCodec.WireOp, more: seq<EntryCodec.WireOp>, os: seq<EntryCodec.WireOp>)
    requires os == [o] + more
    ensures [o.(version := 0)] + Unversioned(more) == Unversioned(os)
  {
  }

  lemma {:induction false} OldOpsBack(os: seq<EntryCodec.WireOp>)
    requires forall i :: 0 <= i < |os| ==> EntryCodec.EncodableOp(os[i])
    ensures EntryCodec.ReadOps(OldOpBlocks(os), |os|, false) == Some(Unversioned(os))
  {
    if os == [] {
      assert Unversioned(os) == [];
    } else {
      var o, more := os[0], os[1..];
      assert os == [o] + more && EntryCodec.EncodableOp(o);
      OldOpsBack(more);
      OldOneOp(o, OldOpBlocks(more), |os|, Unversioned(more));
      UnversionedMore(o, more, os);
      assert OldOpBlocks(os) == OldOpBlock(o) + OldOpBlocks(more);
    }
  }

  /** They decode to what was written, with version 0. */
  lemma OldTxnRoundTrip(os: seq<EntryCodec.WireOp>)
    requires |os| < EntryCodec.VERSIONED && forall i :: 0 <= i < |os| ==> EntryCodec.EncodableOp(os[i])
    ensures EntryCodec.DecodedTxnOps(OldTxn(os)) == Some(Unversioned(os))
  {
    OldCountBack(|os|, OldOpBlocks(os));
    OldOpsBack(os);
  }

  lemma OldCountBack(n: nat, b: seq<Byte>)
    requires n < EntryCodec.VERSIONED
    ensures var raw := Num((Big(4, n % TWO32) + b)[..4]); raw % EntryCodec.VERSIONED == n && (raw / EntryCodec.VERSIONED) % 2 == 0
    ensures (Big(4, n % TWO32) + b)[4..] == b
  {
    assert (Big(4, n % TWO32) + b)[..4] == Big(4, n % TWO32);
    Num32Mod(n);
    SmallCount(n);
  }

  lemma SmallCount(n: nat)
    requires n < EntryCodec.VERSIONED
    ensures n < TWO32 && n % EntryCodec.VERSIONED == n && n / EntryCodec.VERSIONED == 0
  {
  }
}

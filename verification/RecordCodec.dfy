/** The bytes of a change-log row, in the current format and in the older one
    without a version, which a reader must tell apart by guessing. */
module RecordCodec {
  import Lex
  import opened Bytes
  import opened Entries
  import opened Mvcc
  import opened Serial
  import opened StoreState

  const OLD_HEADER := 29
  const HEADER := 37

  // ---------------------------------------------------------------- encoding

  function Flags(r: Record): (b: Byte) {
    (if r.create then 1 else 0) + (if r.delete then 2 else 0)
  }

  /** Flags, creation revision, previous revision and lease: 25 bytes. */
  function Front(r: Record): (bs: seq<Byte>)
    ensures |bs| == 25
  {
    [Flags(r)] + Big(8, Unsigned64(r.createRev)) + Big(8, Unsigned64(r.prevRev)) + Big(8, Unsigned64(r.lease))
  }

  function Marshal(r: Record): (bs: seq<Byte>) {
    Front(r) + (Big(8, Unsigned64(r.version)) + Big(4, |r.key| % TWO32) + r.key + r.value)
  }

  /** The format before versions. */
  function MarshalOld(r: Record): (bs: seq<Byte>) {
    Front(r) + (Big(4, |r.key| % TWO32) + r.key + r.value)
  }

  // ---------------------------------------------------------------- decoding

  /** versionRecordHeaderLooksValid, in 64-bit arithmetic. */
  function MaxVersion(createRev: int, prevRev: int, deleted: bool): (m: int) {
    Signed64(Unsigned64(prevRev - createRev + if deleted then 1 else 2))
  }

  predicate LooksValid(version: int, createRev: int, prevRev: int, deleted: bool) {
    version > 0 &&
    if prevRev == 0 then version == 1
    else MaxVersion(createRev, prevRev, deleted) > 0 && version <= MaxVersion(createRev, prevRev, deleted)
  }

  function I64(bs: seq<Byte>): (x: int) {
    Signed64(Num(bs))
  }

  /** What follows the header of the given size, whose last four bytes are the key length. */
  function Tail(b: seq<Byte>, header: nat): (r: Option<(Key, Value)>)
    requires 4 <= header <= |b|
  {
    var n := Num(b[header - 4..header]);
    if |b| < header + n then None else Some((b[header..header + n], b[header + n..]))
  }

  /** The bytes can be read in the current format. */
  predicate ReadsAsNew(b: seq<Byte>)
    requires |b| >= OLD_HEADER
  {
    && |b| >= HEADER
    && LooksValid(I64(b[25..33]), I64(b[1..9]), I64(b[9..17]), (b[0] / 2) % 2 == 1)
    && |b| >= HEADER + Num(b[33..37])
  }

  function Unmarshal(b: seq<Byte>): (r: Option<Record>) {
    if |b| < OLD_HEADER then None
    else
      var header := if ReadsAsNew(b) then HEADER else OLD_HEADER;
      var t := Tail(b, header);
      if t.None? then None
      else Some(Record(t.value.0, t.value.1, I64(b[1..9]), I64(b[9..17]), if header == HEADER then I64(b[25..33]) else 0,
                       I64(b[17..25]), b[0] % 2 == 1, (b[0] / 2) % 2 == 1))
  }

  /** A record whose fields fit their encodings. */
  predicate Encodable(r: Record) {
    Int64(r.createRev) && Int64(r.prevRev) && Int64(r.version) && Int64(r.lease) && |r.key| < TWO32
  }

  // ---------------------------------------------------------------- the front

  lemma FrontAt(r: Record, rest: seq<Byte>)
    ensures var b := Front(r) + rest;
            && b[0] == Flags(r) && b[1..9] == Big(8, Unsigned64(r.createRev))
            && b[9..17] == Big(8, Unsigned64(r.prevRev)) && b[17..25] == Big(8, Unsigned64(r.lease)) && b[25..] == rest
  {
    var f, c, p, l := [Flags(r)], Big(8, Unsigned64(r.createRev)), Big(8, Unsigned64(r.prevRev)), Big(8, Unsigned64(r.lease));
    var b := Front(r) + rest;
    assert b == f + c + (p + l + rest);
    Middle(f, c, p + l + rest);
    assert b == (f + c) + p + (l + rest);
    Middle(f + c, p, l + rest);
    assert b == (f + c + p) + l + rest;
    Middle(f + c + p, l, rest);
  }

  lemma FrontReads(r: Record, rest: seq<Byte>)
    requires Encodable(r)
    ensures var b := Front(r) + rest;
            && I64(b[1..9]) == r.createRev && I64(b[9..17]) == r.prevRev && I64(b[17..25]) == r.lease
            && (b[0] % 2 == 1) == r.create && ((b[0] / 2) % 2 == 1) == r.delete
  {
    FrontAt(r, rest);
    Num64(r.createRev);
    Num64(r.prevRev);
    Num64(r.lease);
    FlagsBack(r);
  }

  lemma FlagsBack(r: Record)
    ensures (Flags(r) % 2 == 1) == r.create && ((Flags(r) / 2) % 2 == 1) == r.delete
  {
  }

  // ------------------------------------------------------------- the new format

  lemma NewSlices(f: seq<Byte>, v: seq<Byte>, n: seq<Byte>, key: seq<Byte>, value: seq<Byte>)
    requires |f| == 25 && |v| == 8 && |n| == 4
    ensures var b := f + (v + n + key + value);
            && |b| == HEADER + |key| + |value| && b[25..33] == v && b[33..37] == n
            && b[37..37 + |key|] == key && b[37 + |key|..] == value
  {
    var b := f + (v + n + key + value);
    assert b == f + v + (n + key + value);
    Middle(f, v, n + key + value);
    assert b == (f + v) + n + (key + value);
    Middle(f + v, n, key + value);
    assert b == (f + v + n) + key + value;
    Middle(f + v + n, key, value);
  }

  lemma NewAt(r: Record)
    requires Encodable(r)
    ensures var b := Marshal(r);
            && |b| == HEADER + |r.key| + |r.value| && I64(b[25..33]) == r.version && Num(b[33..37]) == |r.key|
            && b[37..37 + |r.key|] == r.key && b[37 + |r.key|..] == r.value
  {
    NewSlices(Front(r), Big(8, Unsigned64(r.version)), Big(4, |r.key| % TWO32), r.key, r.value);
    Num64(r.version);
    Num32Mod(|r.key|);
  }

  lemma NewReadsAsNew(r: Record)
    requires Encodable(r)
    ensures ReadsAsNew(Marshal(r)) <==> LooksValid(r.version, r.createRev, r.prevRev, r.delete)
  {
    FrontReads(r, Big(8, Unsigned64(r.version)) + Big(4, |r.key| % TWO32) + r.key + r.value);
    NewAt(r);
  }

  /** A versioned record decodes to itself exactly when its version looks valid. */
  lemma RoundTripIff(r: Record)
    requires Encodable(r) && r.version != 0
    ensures Unmarshal(Marshal(r)) == Some(r) <==> LooksValid(r.version, r.createRev, r.prevRev, r.delete)
  {
    FrontReads(r, Big(8, Unsigned64(r.version)) + Big(4, |r.key| % TWO32) + r.key + r.value);
    NewAt(r);
    NewReadsAsNew(r);
  }

  /** Every record the write path produces has a version that looks valid. */
  lemma WrittenLooksValid(o: SubOp, rev: int)
    requires BoundedOp(o, rev) && 1 <= rev < TWO63
    ensures LooksValid(EntryVersion(o.version), o.createRev, o.prevRev, o.op == OpDelete)
  {
  }

  lemma WrittenRoundTrips(o: SubOp, rev: int)
    requires BoundedOp(o, rev) && 1 <= rev < TWO63 && Int64(o.lease) && |o.key| < TWO32
    ensures Unmarshal(Marshal(RecordOf(o))) == Some(RecordOf(o))
  {
    WrittenLooksValid(o, rev);
    RoundTripIff(RecordOf(o));
  }

  /** Whatever requests a leader executes on a bounded log, every row it stores
      decodes to what was written. */
  lemma LeaderRowsRoundTrip(term: nat, log: Serial.Log, reqs: seq<Request>, i: nat, j: nat)
    requires BoundedLog(log, |log.entries|)
    requires var es := Execute(term, log, reqs).entries;
             && |log.entries| <= i < |es| && j < |SubOps(es[i])| && 1 <= es[i].revision < TWO63
             && Int64(SubOps(es[i])[j].lease) && |SubOps(es[i])[j].key| < TWO32
    ensures var o := SubOps(Execute(term, log, reqs).entries[i])[j];
            Unmarshal(Marshal(RecordOf(o))) == Some(RecordOf(o))
  {
    RecordsBounded(term, log, reqs);
    var e := Execute(term, log, reqs).entries[i];
    assert BoundedEntry(e);
    WrittenRoundTrips(SubOps(e)[j], e.revision);
  }

  // ------------------------------------------------------------- the old format

  lemma OldSlices(f: seq<Byte>, n: seq<Byte>, key: seq<Byte>, value: seq<Byte>)
    requires |f| == 25 && |n| == 4
    ensures var b := f + (n + key + value);
            && |b| == OLD_HEADER + |key| + |value| && b[25..29] == n
            && b[29..29 + |key|] == key && b[29 + |key|..] == value && b[29..] == key + value
  {
    var b := f + (n + key + value);
    assert b == f + n + (key + value);
    Middle(f, n, key + value);
    assert b == (f + n) + key + value;
    Middle(f + n, key, value);
  }

  lemma OldAt(r: Record)
    requires Encodable(r)
    ensures var b := MarshalOld(r);
            && |b| == OLD_HEADER + |r.key| + |r.value| && b[25..29] == Big(4, |r.key| % TWO32) && Num(b[25..29]) == |r.key|
            && b[29..29 + |r.key|] == r.key && b[29 + |r.key|..] == r.value && b[29..] == r.key + r.value
  {
    OldSlices(Front(r), Big(4, |r.key| % TWO32), r.key, r.value);
    Num32Mod(|r.key|);
  }

  /** An old record decodes to itself exactly when it cannot be read as a new one. */
  lemma OldRoundTripIff(r: Record)
    requires Encodable(r) && r.version == 0
    ensures Unmarshal(MarshalOld(r)) == Some(r) <==> !ReadsAsNew(MarshalOld(r))
  {
    FrontReads(r, Big(4, |r.key| % TWO32) + r.key + r.value);
    OldAt(r);
    var b := MarshalOld(r);
    if ReadsAsNew(b) { assert I64(b[25..33]) > 0; }
  }

  /** Read as a version, the length of a non-empty key is at least 2^32 or negative. */
  lemma OldVersionLarge(r: Record)
    requires Encodable(r) && |r.key| > 0 && |MarshalOld(r)| >= HEADER
    ensures var v := I64(MarshalOld(r)[25..33]); v >= TWO32 || v < 0
  {
    var b := MarshalOld(r);
    OldAt(r);
    assert b[25..33] == b[25..29] + b[29..33];
    HighLow(b[25..29], b[29..33]);
    LargeSigned(|r.key|, Num(b[29..33]));
  }

  lemma HighLow(hi: seq<Byte>, lo: seq<Byte>)
    requires |lo| == 4
    ensures Num(hi + lo) == Num(hi) * TWO32 + Num(lo) && Num(lo) < TWO32
  {
    Pows();
    NumConcat(hi, lo);
    NumBound(lo);
  }

  lemma LargeSigned(hi: nat, lo: nat)
    requires 0 < hi < TWO32 && lo < TWO32
    ensures var v := Signed64(hi * TWO32 + lo); v >= TWO32 || v < 0
  {
  }

  /** The versions that could be read out of the revisions stay below 2^32. */
  predicate SmallSpan(createRev: int, prevRev: int, deleted: bool) {
    prevRev == 0 || MaxVersion(createRev, prevRev, deleted) < TWO32
  }

  lemma OldDecodes(r: Record)
    requires Encodable(r) && r.version == 0 && |r.key| > 0 && SmallSpan(r.createRev, r.prevRev, r.delete)
    ensures Unmarshal(MarshalOld(r)) == Some(r)
  {
    FrontReads(r, Big(4, |r.key| % TWO32) + r.key + r.value);
    if |MarshalOld(r)| >= HEADER { OldVersionLarge(r); }
    OldRoundTripIff(r);
  }

  const ZEROS: seq<Byte> := [0, 0, 0, 0, 0, 0, 0, 0]

  /** A one-byte key followed by zeros reads as version 2^32. */
  lemma OldMisread(r: Record)
    requires Encodable(r) && r.version == 0 && r.key == [0] && r.value == ZEROS
    requires !SmallSpan(r.createRev, r.prevRev, r.delete)
    ensures Unmarshal(MarshalOld(r)) != Some(r)
  {
    var b := MarshalOld(r);
    FrontReads(r, Big(4, |r.key| % TWO32) + r.key + r.value);
    OldAt(r);
    var hi, lo := b[25..29], b[29..33];
    assert b[25..33] == hi + lo;
    assert b[29..] == [0] + ZEROS;
    assert lo == b[29..][0..4] && b[33..37] == b[29..][4..8];
    ZeroNum(lo);
    ZeroNum(b[33..37]);
    HighLow(hi, lo);
    assert Num(b[25..33]) == TWO32;
    OldRoundTripIff(r);
  }

  lemma {:induction false} ZeroNum(bs: seq<Byte>)
    requires forall i :: 0 <= i < |bs| ==> bs[i] == 0
    ensures Num(bs) == 0
  {
    if bs != [] { ZeroNum(bs[..|bs| - 1]); }
  }

  /** An old record with a non-empty key and the given revisions. */
  predicate OldRecord(r: Record, createRev: int, prevRev: int, deleted: bool) {
    Encodable(r) && r.version == 0 && |r.key| > 0 && r.createRev == createRev && r.prevRev == prevRev && r.delete == deleted
  }

  /** For given revisions, every old record with a non-empty key decodes to itself
      if and only if those revisions leave no room for a version of 2^32. */
  lemma OldDecodesIff(createRev: int, prevRev: int, deleted: bool)
    requires Int64(createRev) && Int64(prevRev)
    ensures (forall r :: OldRecord(r, createRev, prevRev, deleted) ==> Unmarshal(MarshalOld(r)) == Some(r))
            <==> SmallSpan(createRev, prevRev, deleted)
  {
    if SmallSpan(createRev, prevRev, deleted) {
      forall r | OldRecord(r, createRev, prevRev, deleted) ensures Unmarshal(MarshalOld(r)) == Some(r) {
        OldDecodes(r);
      }
    } else {
      var r := Record([0], ZEROS, createRev, prevRev, 0, 0, false, deleted);
      OldMisread(r);
      assert OldRecord(r, createRev, prevRev, deleted);
    }
  }

  /** A span under 2^32 alone is not enough: two below it there is still room. */
  lemma SpanJustUnderMisreads(createRev: int)
    requires 1 <= createRev < TWO63 - TWO32
    ensures !SmallSpan(createRev, createRev + TWO32 - 2, false)
  {
  }

  /** The first eight bytes of the value of an old record with an empty key stand
      where a version's low half and a key length would. */
  lemma EmptyKeyReads(r: Record, lo: seq<Byte>, len: seq<Byte>, rest: seq<Byte>)
    requires Encodable(r) && r.key == [] && r.value == lo + len + rest && |lo| == 4 && |len| == 4
    ensures var b := MarshalOld(r); |b| == HEADER + |rest| && Num(b[25..33]) == Num(lo) && Num(b[33..37]) == Num(len)
  {
    var b := MarshalOld(r);
    OldAt(r);
    assert r.key + r.value == r.value;
    EightAt(b, lo, len, rest);
  }

  lemma EightAt(b: seq<Byte>, lo: seq<Byte>, len: seq<Byte>, rest: seq<Byte>)
    requires |b| >= 29 && b[29..] == lo + len + rest && |lo| == 4 && |len| == 4 && Num(b[25..29]) == 0
    ensures |b| == HEADER + |rest| && Num(b[25..33]) == Num(lo) && Num(b[33..37]) == Num(len)
  {
    Eight(b[29..], lo, len, rest);
    assert b[29..33] == b[29..][0..4] && b[33..37] == b[29..][4..8];
    assert b[25..33] == b[25..29] + lo;
    HighLow(b[25..29], lo);
  }

  lemma Eight(t: seq<Byte>, lo: seq<Byte>, len: seq<Byte>, rest: seq<Byte>)
    requires t == lo + len + rest && |lo| == 4 && |len| == 4
    ensures t[0..4] == lo && t[4..8] == len
  {
  }

  /** So a first write whose value begins with the number 1 and an in-range length
      is misread. */
  lemma EmptyKeyMisread(r: Record, lo: seq<Byte>, len: seq<Byte>, rest: seq<Byte>)
    requires Encodable(r) && r.version == 0 && r.prevRev == 0 && r.key == [] && r.value == lo + len + rest
    requires |lo| == 4 && |len| == 4 && Num(lo) == 1 && Num(len) <= |rest|
    ensures Unmarshal(MarshalOld(r)) != Some(r)
  {
    FrontReads(r, Big(4, |r.key| % TWO32) + r.key + r.value);
    EmptyKeyReads(r, lo, len, rest);
    OldRoundTripIff(r);
  }

  // ---------------------------------------------------------------- log keys

  /** logKey and logKeyWithSub: 'l', the revision, and two bytes of sub-index. */
  function LogKey(k: Lex.Key): (bs: seq<Byte>)
    requires 1 <= |k| <= 2
  {
    [108] + Big(8, Unsigned64(k[0])) + if |k| == 2 then Big(2, k[1] % 0x1_0000) else []
  }

  predicate LogPosition(k: Lex.Key) {
    1 <= |k| <= 2 && 0 <= k[0] < TWO63 && (|k| == 2 ==> 0 <= k[1] < 0x1_0000)
  }

  function SubBytes(k: Lex.Key): (bs: seq<Byte>)
    requires LogPosition(k)
  {
    if |k| == 2 then Big(2, k[1] % 0x1_0000) else []
  }

  lemma LogKeyIs(k: Lex.Key)
    requires LogPosition(k)
    ensures LogKey(k) == [108] + (Big(8, k[0]) + SubBytes(k))
  {
  }

  lemma PairOrder(x: nat, y: nat)
    requires x < 0x1_0000 && y < 0x1_0000
    ensures Lex.Less(Big(2, x), Big(2, y)) <==> x < y
    ensures Lex.Less([x], [y]) <==> x < y
  {
    Pows();
    BigOrder(2, x, y, [], []);
    assert Big(2, x) + [] == Big(2, x) && Big(2, y) + [] == Big(2, y);
    assert !Lex.Less([x][1..], [y][1..]);
  }

  lemma EmptyOrder(s: seq<int>)
    ensures !Lex.Less(s, []) && (Lex.Less([], s) <==> s != [])
  {
  }

  lemma SubOrder(a: Lex.Key, b: Lex.Key)
    requires LogPosition(a) && LogPosition(b)
    ensures Lex.Less(SubBytes(a), SubBytes(b)) <==> Lex.Less(a[1..], b[1..])
  {
    if |a| == 2 && |b| == 2 {
      PairOrder(a[1], b[1]);
      assert a[1..] == [a[1]] && b[1..] == [b[1]];
      assert a[1] % 0x1_0000 == a[1] && b[1] % 0x1_0000 == b[1];
    } else if |a| == 1 {
      EmptyOrder(SubBytes(b));
      EmptyOrder(b[1..]);
      assert a[1..] == [];
    } else {
      EmptyOrder(SubBytes(a));
      EmptyOrder(a[1..]);
      assert b[1..] == [];
    }
  }

  /** The bytes of log keys sort as (revision, sub-index) does. */
  lemma LogKeyOrder(a: Lex.Key, b: Lex.Key)
    requires LogPosition(a) && LogPosition(b)
    ensures Lex.Less(LogKey(a), LogKey(b)) <==> Lex.Less(a, b)
  {
    LogKeyIs(a);
    LogKeyIs(b);
    LogBytesOrder(a[0], b[0], SubBytes(a), SubBytes(b));
    SubOrder(a, b);
  }

  lemma LogBytesOrder(x: nat, y: nat, s: seq<Byte>, t: seq<Byte>)
    requires x < TWO63 && y < TWO63
    ensures Lex.Less([108] + (Big(8, x) + s), [108] + (Big(8, y) + t)) <==> x < y || (x == y && Lex.Less(s, t))
  {
    Pows();
    LessPrefix([108], Big(8, x) + s, Big(8, y) + t);
    BigOrder(8, x, y, s, t);
  }
}

/** The bytes of WAL entries and segments, and what a reader makes of a segment
    that was cut short by a crash. */
module EntryCodec {
  import opened Bytes
  import opened Entries

  /** An entry as it is stored: a transaction's writes are packed into the value. */
  datatype Wire = Wire(id: int, revision: int, term: nat, op: Byte, key: Key, value: Value,
                       lease: int, createRev: int, prevRev: int, version: int)
  {
    function Sequence(): (s: int) {
      if id != 0 then id else revision
    }
  }

  datatype WireOp = WireOp(op: Byte, key: Key, value: Value, lease: int, createRev: int, prevRev: int, version: int)

  // ------------------------------------------------------ blocks of fixed fields

  function Fields(xs: seq<int>): (bs: seq<Byte>)
    ensures |bs| == 8 * |xs|
  {
    if xs == [] then [] else Fields(xs[..|xs| - 1]) + Big(8, Unsigned64(xs[|xs| - 1]))
  }

  /** One byte, some 64-bit fields, two 32-bit lengths, and the key and value. */
  function Block(op: Byte, xs: seq<int>, key: seq<Byte>, value: seq<Byte>): (bs: seq<Byte>) {
    [op] + Fields(xs) + Big(4, |key| % TWO32) + Big(4, |value| % TWO32) + key + value
  }

  datatype Read = Read(op: Byte, fields: seq<nat>, key: seq<Byte>, value: seq<Byte>, rest: seq<Byte>)

  function Header(n: nat): (size: nat) {
    1 + 8 * n + 8
  }

  /** Reads a block with n fields from the front of b. */
  function ReadBlock(b: seq<Byte>, n: nat): (r: Option<Read>)
    ensures r.Some? ==> |r.value.fields| == n && |b| == Header(n) + |r.value.key| + |r.value.value| + |r.value.rest|
  {
    if |b| < Header(n) then None
    else
      var k := Num(b[1 + 8 * n..5 + 8 * n]);
      var v := Num(b[5 + 8 * n..9 + 8 * n]);
      var tail := b[Header(n)..];
      if |tail| < k + v then None
      else Some(Read(b[0], seq(n, i requires 0 <= i < n => Num(b[1 + 8 * i..9 + 8 * i])), tail[..k], tail[k..k + v], tail[k + v..]))
  }

  lemma {:induction false} FieldAt(xs: seq<int>, i: nat)
    requires i < |xs|
    ensures Fields(xs)[8 * i..8 * i + 8] == Big(8, Unsigned64(xs[i]))
  {
    var init := xs[..|xs| - 1];
    if i < |init| {
      FieldAt(init, i);
      assert Fields(xs)[8 * i..8 * i + 8] == Fields(init)[8 * i..8 * i + 8];
    } else {
      assert Fields(xs)[8 * i..8 * i + 8] == Big(8, Unsigned64(xs[i]));
    }
  }

  lemma FieldInside(op: Byte, fields: seq<Byte>, more: seq<Byte>, at: nat, x: seq<Byte>)
    requires at + 8 <= |fields| && fields[at..at + 8] == x
    ensures ([op] + fields + more)[1 + at..9 + at] == x
  {
    Inside([op], fields, more, at, at + 8);
  }

  lemma BlockFieldAt(op: Byte, xs: seq<int>, more: seq<Byte>, i: nat)
    requires i < |xs|
    ensures 9 + 8 * i <= |[op] + Fields(xs) + more|
    ensures ([op] + Fields(xs) + more)[1 + 8 * i..9 + 8 * i] == Big(8, Unsigned64(xs[i]))
  {
    FieldAt(xs, i);
    FieldInside(op, Fields(xs), more, 8 * i, Big(8, Unsigned64(xs[i])));
  }

  lemma TwoLengths(front: seq<Byte>, k: seq<Byte>, v: seq<Byte>, tail: seq<Byte>)
    requires |k| == 4 && |v| == 4
    ensures var b, n := front + (k + v + tail), |front|; b[n..n + 4] == k && b[n + 4..n + 8] == v && b[n + 8..] == tail
  {
    var b := front + (k + v + tail);
    assert b == front + k + (v + tail);
    Middle(front, k, v + tail);
    assert b == (front + k) + v + tail;
    Middle(front + k, v, tail);
  }

  lemma Regroup(a: seq<Byte>, k: seq<Byte>, v: seq<Byte>, key: seq<Byte>, value: seq<Byte>, rest: seq<Byte>)
    ensures a + k + v + key + value + rest == a + (k + v + (key + value + rest))
  {
  }

  lemma BlockSplit(op: Byte, xs: seq<int>, key: seq<Byte>, value: seq<Byte>, rest: seq<Byte>)
    ensures Block(op, xs, key, value) + rest ==
            ([op] + Fields(xs)) + (Big(4, |key| % TWO32) + Big(4, |value| % TWO32) + (key + value + rest))
  {
    Regroup([op] + Fields(xs), Big(4, |key| % TWO32), Big(4, |value| % TWO32), key, value, rest);
  }

  lemma Tailed(front: seq<Byte>, k: seq<Byte>, v: seq<Byte>, tail: seq<Byte>, b: seq<Byte>, n: nat)
    requires b == front + (k + v + tail) && |front| == 1 + 8 * n && |k| == 4 && |v| == 4
    ensures |b| == Header(n) + |tail| && b[1 + 8 * n..5 + 8 * n] == k && b[5 + 8 * n..9 + 8 * n] == v && b[Header(n)..] == tail
  {
    TwoLengths(front, k, v, tail);
  }

  lemma BlockTailBytes(op: Byte, xs: seq<int>, key: seq<Byte>, value: seq<Byte>, rest: seq<Byte>)
    ensures var b, n := Block(op, xs, key, value) + rest, |xs|;
            && |b| == Header(n) + |key| + |value| + |rest|
            && b[1 + 8 * n..5 + 8 * n] == Big(4, |key| % TWO32) && b[5 + 8 * n..9 + 8 * n] == Big(4, |value| % TWO32)
            && b[Header(n)..] == key + value + rest
  {
    BlockSplit(op, xs, key, value, rest);
    Tailed([op] + Fields(xs), Big(4, |key| % TWO32), Big(4, |value| % TWO32), key + value + rest,
           Block(op, xs, key, value) + rest, |xs|);
  }

  /** The lengths and the tail of a block. */
  lemma BlockTail(op: Byte, xs: seq<int>, key: seq<Byte>, value: seq<Byte>, rest: seq<Byte>)
    requires |key| < TWO32 && |value| < TWO32
    ensures var b, n := Block(op, xs, key, value) + rest, |xs|;
            && |b| == Header(n) + |key| + |value| + |rest|
            && Num(b[1 + 8 * n..5 + 8 * n]) == |key| && Num(b[5 + 8 * n..9 + 8 * n]) == |value|
            && b[Header(n)..] == key + value + rest
  {
    Num32Mod(|key|);
    Num32Mod(|value|);
    BlockTailBytes(op, xs, key, value, rest);
  }

  lemma BlockFields(op: Byte, xs: seq<int>, key: seq<Byte>, value: seq<Byte>, rest: seq<Byte>, i: nat)
    requires i < |xs|
    ensures var b := Block(op, xs, key, value) + rest;
            9 + 8 * i <= |b| && Num(b[1 + 8 * i..9 + 8 * i]) == Unsigned64(xs[i])
  {
    BlockSplit(op, xs, key, value, rest);
    BlockFieldAt(op, xs, Big(4, |key| % TWO32) + Big(4, |value| % TWO32) + (key + value + rest), i);
    NumField(xs[i]);
  }

  /** Reading back what was written, with anything behind it. */
  lemma ReadBlockBack(op: Byte, xs: seq<int>, key: seq<Byte>, value: seq<Byte>, rest: seq<Byte>)
    requires |key| < TWO32 && |value| < TWO32
    ensures ReadBlock(Block(op, xs, key, value) + rest, |xs|) ==
            Some(Read(op, seq(|xs|, i requires 0 <= i < |xs| => Unsigned64(xs[i])), key, value, rest))
  {
    BlockTail(op, xs, key, value, rest);
    BlockFieldsBack(op, xs, key, value, rest);
    TailParts(key, value, rest);
  }

  lemma BlockFieldsBack(op: Byte, xs: seq<int>, key: seq<Byte>, value: seq<Byte>, rest: seq<Byte>)
    requires Header(|xs|) <= |Block(op, xs, key, value) + rest|
    ensures var b, n := Block(op, xs, key, value) + rest, |xs|;
            seq(n, i requires 0 <= i < n => Num(b[1 + 8 * i..9 + 8 * i])) == seq(n, i requires 0 <= i < n => Unsigned64(xs[i]))
  {
    forall i | 0 <= i < |xs| ensures Num((Block(op, xs, key, value) + rest)[1 + 8 * i..9 + 8 * i]) == Unsigned64(xs[i]) {
      BlockFields(op, xs, key, value, rest, i);
    }
  }

  lemma TailParts(key: seq<Byte>, value: seq<Byte>, rest: seq<Byte>)
    ensures var t := key + value + rest; t[..|key|] == key && t[|key|..|key| + |value|] == value && t[|key| + |value|..] == rest
  {
  }

  // --------------------------------------------------------------------- entries

  function Payload(e: Wire): (bs: seq<Byte>) {
    Block(e.op, EntryFields(e), e.key, e.value)
  }

  function EntryFrom(r: Read, version: nat): (e: Wire)
    requires |r.fields| == if version >= 2 then 7 else 5
  {
    var f := r.fields;
    Wire(if version >= 2 then Signed64(f[5]) else 0, Signed64(f[0]), f[1], r.op, r.key, r.value,
         Signed64(f[2]), Signed64(f[3]), Signed64(f[4]), if version >= 2 then Signed64(f[6]) else 0)
  }

  /** unmarshalEntryVersion: segments of version 1 carry neither ID nor version. */
  function ParsePayload(b: seq<Byte>, version: nat): (r: Option<Wire>) {
    var r := ReadBlock(b, if version >= 2 then 7 else 5);
    if r.None? then None else Some(EntryFrom(r.value, version))
  }

  predicate Encodable(e: Wire) {
    && Int64(e.id) && Int64(e.revision) && e.term < TWO64 && Int64(e.lease) && Int64(e.createRev) && Int64(e.prevRev)
    && Int64(e.version) && Header(7) + |e.key| + |e.value| < TWO32
  }

  /** The ID of an entry is its sequence once it has been stored. */
  function Normal(e: Wire): (r: Wire) {
    e.(id := e.Sequence())
  }

  function EntryFields(e: Wire): (xs: seq<int>)
    ensures |xs| == 7
  {
    [e.revision, e.term, e.lease, e.createRev, e.prevRev, e.Sequence(), e.version]
  }

  lemma PayloadRead(e: Wire)
    requires |e.key| < TWO32 && |e.value| < TWO32
    ensures var r := ReadBlock(Payload(e), 7);
            && r.Some? && r.value.op == e.op && r.value.key == e.key && r.value.value == e.value
            && forall i :: 0 <= i < 7 ==> r.value.fields[i] == Unsigned64(EntryFields(e)[i])
  {
    ReadBlockBack(e.op, EntryFields(e), e.key, e.value, []);
    assert Payload(e) + [] == Payload(e);
  }

  lemma FieldsBack(e: Wire, r: Read)
    requires Encodable(e) && |r.fields| == 7 && r.op == e.op && r.key == e.key && r.value == e.value
    requires forall i :: 0 <= i < 7 ==> r.fields[i] == Unsigned64(EntryFields(e)[i])
    ensures EntryFrom(r, 2) == Normal(e)
  {
    var xs := EntryFields(e);
    assert r.fields[0] == Unsigned64(xs[0]) && r.fields[1] == Unsigned64(xs[1]) && r.fields[2] == Unsigned64(xs[2]);
    assert r.fields[3] == Unsigned64(xs[3]) && r.fields[4] == Unsigned64(xs[4]);
    assert r.fields[5] == Unsigned64(xs[5]) && r.fields[6] == Unsigned64(xs[6]);
    SignedUnsigned(e.revision);
    SignedUnsigned(e.lease);
    SignedUnsigned(e.createRev);
    SignedUnsigned(e.prevRev);
    SignedUnsigned(e.Sequence());
    SignedUnsigned(e.version);
    UnsignedSmall(e.term);
  }

  lemma PayloadBack(e: Wire)
    requires Encodable(e)
    ensures ParsePayload(Payload(e), 2) == Some(Normal(e))
  {
    PayloadRead(e);
    FieldsBack(e, ReadBlock(Payload(e), 7).value);
  }

  /** What a writer of version 1 stored: no ID and no version. */
  function OldPayload(e: Wire): (bs: seq<Byte>) {
    Block(e.op, OldFields(e), e.key, e.value)
  }

  function OldFields(e: Wire): (xs: seq<int>)
    ensures |xs| == 5
  {
    [e.revision, e.term, e.lease, e.createRev, e.prevRev]
  }

  lemma OldPayloadRead(e: Wire)
    requires |e.key| < TWO32 && |e.value| < TWO32
    ensures var r := ReadBlock(OldPayload(e), 5);
            && r.Some? && r.value.op == e.op && r.value.key == e.key && r.value.value == e.value
            && forall i :: 0 <= i < 5 ==> r.value.fields[i] == Unsigned64(OldFields(e)[i])
  {
    ReadBlockBack(e.op, OldFields(e), e.key, e.value, []);
    assert OldPayload(e) + [] == OldPayload(e);
  }

  /** An entry of a version 1 segment decodes to what was written, with neither ID nor
      version, so that its revision is its sequence. */
  lemma OldPayloadBack(e: Wire)
    requires Encodable(e)
    ensures ParsePayload(OldPayload(e), 1) == Some(e.(id := 0, version := 0))
    ensures ParsePayload(OldPayload(e), 1).value.Sequence() == e.revision
  {
    OldPayloadRead(e);
    var f, xs := ReadBlock(OldPayload(e), 5).value.fields, OldFields(e);
    assert f[0] == Unsigned64(xs[0]) && f[1] == Unsigned64(xs[1]) && f[2] == Unsigned64(xs[2]);
    assert f[3] == Unsigned64(xs[3]) && f[4] == Unsigned64(xs[4]);
    SignedUnsigned(e.revision);
    SignedUnsigned(e.lease);
    SignedUnsigned(e.createRev);
    SignedUnsigned(e.prevRev);
    UnsignedSmall(e.term);
  }

  // --------------------------------------------------------------------- frames

  type Crc = seq<Byte> -> nat

  /** Length and checksum of a payload, and the payload. */
  function FrameOf(crc: Crc, p: seq<Byte>): (bs: seq<Byte>)
    ensures |bs| == 8 + |p|
  {
    Big(4, |p| % TWO32) + Big(4, crc(p) % TWO32) + p
  }

  function Frame(crc: Crc, e: Wire): (bs: seq<Byte>) {
    FrameOf(crc, Payload(e))
  }

  datatype Framed = Eof | Corrupt | Got(e: Wire, rest: seq<Byte>)

  /** ReadEntryVersion on the bytes that are left: a frame cut short is the end. */
  function ReadFrame(crc: Crc, b: seq<Byte>, version: nat): (r: Framed)
    ensures r.Got? ==> |r.rest| < |b|
  {
    if |b| < 8 then Eof
    else
      var n := Num(b[..4]);
      if |b| - 8 < n then Eof
      else
        var payload := b[8..8 + n];
        if crc(payload) % TWO32 != Num(b[4..8]) then Corrupt
        else
          var e := ParsePayload(payload, version);
          if e.None? then Corrupt else Got(e.value, b[8 + n..])
  }

  /** ReadAll: the entries read, and whether it stopped at the end. */
  function ReadFrames(crc: Crc, b: seq<Byte>, version: nat): (r: (seq<Wire>, bool))
    decreases |b|
  {
    match ReadFrame(crc, b, version)
    case Eof => ([], true)
    case Corrupt => ([], false)
    case Got(e, rest) => var (es, ok) := ReadFrames(crc, rest, version); ([e] + es, ok)
  }

  method ReadAll(crc: Crc, bytes: seq<Byte>, version: nat) returns (entries: seq<Wire>, ok: bool)
    ensures (entries, ok) == ReadFrames(crc, bytes, version)
  {
    entries := [];
    var b := bytes;
    assert [] + ReadFrames(crc, b, version).0 == ReadFrames(crc, b, version).0;
    while true
      invariant ReadFrames(crc, bytes, version) == (entries + ReadFrames(crc, b, version).0, ReadFrames(crc, b, version).1)
      decreases |b|
    {
      match ReadFrame(crc, b, version)
      case Eof =>
        assert entries + [] == entries;
        return entries, true;
      case Corrupt =>
        assert entries + [] == entries;
        return entries, false;
      case Got(e, rest) =>
        assert entries + ([e] + ReadFrames(crc, rest, version).0) == entries + [e] + ReadFrames(crc, rest, version).0;
        entries := entries + [e];
        b := rest;
    }
  }

  function Frames(crc: Crc, es: seq<Wire>): (bs: seq<Byte>) {
    if es == [] then [] else Frame(crc, es[0]) + Frames(crc, es[1..])
  }

  function Normals(es: seq<Wire>): (r: seq<Wire>) {
    seq(|es|, i requires 0 <= i < |es| => Normal(es[i]))
  }

  // -------------------------------------------------------------- reading a cut

  lemma PayloadSize(e: Wire)
    ensures |Payload(e)| == Header(7) + |e.key| + |e.value|
  {
    BlockTailBytes(e.op, EntryFields(e), e.key, e.value, []);
    assert Payload(e) + [] == Payload(e);
  }

  lemma FrameParts(n: seq<Byte>, c: seq<Byte>, payload: seq<Byte>, rest: seq<Byte>)
    requires |n| == 4 && |c| == 4
    ensures var b := n + c + payload + rest;
            b[..4] == n && b[4..8] == c && b[8..8 + |payload|] == payload && b[8 + |payload|..] == rest
  {
  }

  lemma FrameOfParts(crc: Crc, p: seq<Byte>, rest: seq<Byte>)
    requires |p| < TWO32
    ensures var b := FrameOf(crc, p) + rest;
            && Num(b[..4]) == |p| && Num(b[4..8]) == crc(p) % TWO32 && b[8..8 + |p|] == p && b[8 + |p|..] == rest
  {
    FrameParts(Big(4, |p| % TWO32), Big(4, crc(p) % TWO32), p, rest);
    Num32Mod(|p|);
    Num32(crc(p) % TWO32);
  }

  lemma ReadFrameOf(crc: Crc, p: seq<Byte>, w: Wire, rest: seq<Byte>)
    requires |p| < TWO32 && ParsePayload(p, 2) == Some(w)
    ensures ReadFrame(crc, FrameOf(crc, p) + rest, 2) == Got(w, rest)
  {
    FrameOfParts(crc, p, rest);
  }

  lemma ReadFrameBack(crc: Crc, e: Wire, rest: seq<Byte>)
    requires Encodable(e)
    ensures ReadFrame(crc, Frame(crc, e) + rest, 2) == Got(Normal(e), rest)
  {
    PayloadSize(e);
    PayloadBack(e);
    ReadFrameOf(crc, Payload(e), Normal(e), rest);
  }

  lemma CutFrameOf(crc: Crc, p: seq<Byte>, cut: nat)
    requires |p| < TWO32 && cut < 8 + |p|
    ensures ReadFrame(crc, FrameOf(crc, p)[..cut], 2) == Eof
  {
    if cut >= 8 {
      FrameOfParts(crc, p, []);
      var b := FrameOf(crc, p);
      assert b + [] == b;
      assert b[..cut][..4] == b[..4];
    }
  }

  /** Any proper prefix of a frame reads as the end. */
  lemma ReadFrameCut(crc: Crc, e: Wire, cut: nat)
    requires Encodable(e) && cut < |Frame(crc, e)|
    ensures ReadFrame(crc, Frame(crc, e)[..cut], 2) == Eof
  {
    PayloadSize(e);
    CutFrameOf(crc, Payload(e), cut);
  }

  /** The number of frames that lie wholly within the first cut bytes. */
  function Whole(crc: Crc, es: seq<Wire>, cut: nat): (k: nat)
    ensures k <= |es|
  {
    if es == [] || cut < |Frame(crc, es[0])| then 0 else 1 + Whole(crc, es[1..], cut - |Frame(crc, es[0])|)
  }

  lemma {:induction false} WholeMeans(crc: Crc, es: seq<Wire>, cut: nat)
    ensures var k := Whole(crc, es, cut);
            |Frames(crc, es[..k])| <= cut && (k < |es| ==> cut < |Frames(crc, es[..k + 1])|)
  {
    if es != [] && cut >= |Frame(crc, es[0])| {
      WholeMeans(crc, es[1..], cut - |Frame(crc, es[0])|);
      var k := Whole(crc, es, cut);
      assert es[..k][1..] == es[1..][..k - 1];
      assert k < |es| ==> es[..k + 1][1..] == es[1..][..k];
    } else if es != [] {
      assert es[..1][1..] == [];
      assert |Frames(crc, es[..1])| == |Frame(crc, es[0])| + |Frames(crc, [])|;
    }
  }

  type Reader = seq<Byte> -> (seq<Wire>, bool)

  /** What is needed of a reader: a whole frame gives its entry, and a frame that is
      cut off, or nothing, ends the reading without an error. */
  ghost predicate ReadsFrames(crc: Crc, read: Reader) {
    && (forall e, rest :: Encodable(e) ==> FrameRead(crc, read, e, rest))
    && (forall e, cut :: Encodable(e) ==> CutRead(crc, read, e, cut))
    && read([]) == ([], true)
  }

  ghost predicate FrameRead(crc: Crc, read: Reader, e: Wire, rest: seq<Byte>) {
    read(Frame(crc, e) + rest) == ([Normal(e)] + read(rest).0, read(rest).1)
  }

  ghost predicate CutRead(crc: Crc, read: Reader, e: Wire, cut: int) {
    0 <= cut < |Frame(crc, e)| ==> read(Frame(crc, e)[..cut]) == ([], true)
  }

  lemma ReadFramesReads(crc: Crc)
    ensures ReadsFrames(crc, b => ReadFrames(crc, b, 2))
  {
    var read: Reader := b => ReadFrames(crc, b, 2);
    forall e, rest | Encodable(e) ensures FrameRead(crc, read, e, rest) {
      ReadOneFrame(crc, e, rest);
    }
    forall e, cut | Encodable(e) ensures CutRead(crc, read, e, cut) {
      if 0 <= cut < |Frame(crc, e)| { ReadFrameCut(crc, e, cut); }
    }
  }

  /** Reading the first cut bytes gives the first k entries, and no error. */
  ghost predicate CutReads(crc: Crc, read: Reader, es: seq<Wire>, cut: nat, k: nat)
    requires k <= |es| && cut <= |Frames(crc, es)|
  {
    read(Frames(crc, es)[..cut]) == (Normals(es[..k]), true)
  }

  lemma CutBeforeFirst(crc: Crc, read: Reader, es: seq<Wire>, cut: nat)
    requires ReadsFrames(crc, read) && (es != [] ==> Encodable(es[0]))
    requires cut <= |Frames(crc, es)| && (es == [] || cut < |Frame(crc, es[0])|)
    ensures CutReads(crc, read, es, cut, 0)
  {
    assert Normals(es[..0]) == [];
    if es == [] {
      assert Frames(crc, es)[..cut] == [];
    } else {
      assert Frames(crc, es)[..cut] == Frame(crc, es[0])[..cut];
      assert CutRead(crc, read, es[0], cut);
    }
  }

  lemma FramesCut(crc: Crc, es: seq<Wire>, cut: nat)
    requires es != [] && |Frame(crc, es[0])| <= cut <= |Frames(crc, es)|
    ensures cut - |Frame(crc, es[0])| <= |Frames(crc, es[1..])|
    ensures Frames(crc, es)[..cut] == Frame(crc, es[0]) + Frames(crc, es[1..])[..cut - |Frame(crc, es[0])|]
  {
  }

  lemma CutAfterFirst(crc: Crc, read: Reader, es: seq<Wire>, cut: nat, k: nat)
    requires ReadsFrames(crc, read) && es != [] && Encodable(es[0])
    requires |Frame(crc, es[0])| <= cut <= |Frames(crc, es)| && k <= |es| - 1
    requires cut - |Frame(crc, es[0])| <= |Frames(crc, es[1..])| && CutReads(crc, read, es[1..], cut - |Frame(crc, es[0])|, k)
    ensures CutReads(crc, read, es, cut, k + 1)
  {
    FramesCut(crc, es, cut);
    assert FrameRead(crc, read, es[0], Frames(crc, es[1..])[..cut - |Frame(crc, es[0])|]);
    NormalsMore(es, k + 1);
  }

  lemma {:induction false} CutReadsWhole(crc: Crc, read: Reader, es: seq<Wire>, cut: nat)
    requires ReadsFrames(crc, read) && (forall i :: 0 <= i < |es| ==> Encodable(es[i])) && cut <= |Frames(crc, es)|
    ensures CutReads(crc, read, es, cut, Whole(crc, es, cut))
  {
    if es == [] || cut < |Frame(crc, es[0])| {
      CutBeforeFirst(crc, read, es, cut);
    } else {
      var rest := cut - |Frame(crc, es[0])|;
      FramesCut(crc, es, cut);
      CutReadsWhole(crc, read, es[1..], rest);
      CutAfterFirst(crc, read, es, cut, Whole(crc, es[1..], rest));
    }
  }

  /** A crash: whatever the cut, reading the segment gives exactly the entries whose
      frames were written whole, each with its ID set to its sequence, and no error. */
  lemma CutGivesPrefix(crc: Crc, es: seq<Wire>, cut: nat)
    requires (forall i :: 0 <= i < |es| ==> Encodable(es[i])) && cut <= |Frames(crc, es)|
    ensures ReadFrames(crc, Frames(crc, es)[..cut], 2) == (Normals(es[..Whole(crc, es, cut)]), true)
  {
    ReadFramesReads(crc);
    CutReadsWhole(crc, b => ReadFrames(crc, b, 2), es, cut);
  }

  /** The bytes start with a whole frame whose checksum is not that of its payload, or
      whose payload is no entry. */
  predicate Damaged(crc: Crc, b: seq<Byte>) {
    && |b| >= 8 && |b| - 8 >= Num(b[..4])
    && var payload := b[8..8 + Num(b[..4])];
       crc(payload) % TWO32 != Num(b[4..8]) || ParsePayload(payload, 2).None?
  }

  /** Damage behind any number of good frames is reported, after the entries before it. */
  lemma {:induction false} DamageIsReported(crc: Crc, es: seq<Wire>, b: seq<Byte>)
    requires (forall i :: 0 <= i < |es| ==> Encodable(es[i])) && Damaged(crc, b)
    ensures ReadFrames(crc, Frames(crc, es) + b, 2) == (Normals(es), false)
  {
    if es == [] {
      assert Frames(crc, es) + b == b && Normals(es) == [];
    } else {
      DamageIsReported(crc, es[1..], b);
      Associative(Frame(crc, es[0]), Frames(crc, es[1..]), b);
      ReadOneFrame(crc, es[0], Frames(crc, es[1..]) + b);
      assert [Normal(es[0])] + Normals(es[1..]) == Normals(es);
    }
  }

  lemma ReadOneFrame(crc: Crc, e: Wire, rest: seq<Byte>)
    requires Encodable(e)
    ensures var r := ReadFrames(crc, rest, 2); ReadFrames(crc, Frame(crc, e) + rest, 2) == ([Normal(e)] + r.0, r.1)
  {
    ReadFrameBack(crc, e, rest);
  }

  lemma NormalsMore(es: seq<Wire>, k: nat)
    requires 0 < k <= |es|
    ensures Normals(es[..k]) == [Normal(es[0])] + Normals(es[1..][..k - 1])
  {
  }

  // ------------------------------------------------------------------- segments

  /** "T4", the format version 2 and a newline, then term and first sequence. */
  function SegmentHeader(term: nat, first: int): (bs: seq<Byte>)
    ensures |bs| == 20
  {
    [84, 52, 2, 10] + Big(8, Unsigned64(term)) + Big(8, Unsigned64(first))
  }

  datatype Opened = Opened(term: nat, first: int, version: nat, body: seq<Byte>)

  function OpenSegment(b: seq<Byte>): (r: Option<Opened>) {
    if |b| < 20 || b[..2] != [84, 52] || b[3] != 10 || b[2] < 1 || b[2] > 2 then None
    else Some(Opened(Num(b[4..12]), Signed64(Num(b[12..20])), b[2], b[20..]))
  }

  /** A segment cut anywhere after its header opens and reads as the whole entries
      before the cut. */
  lemma CutSegment(crc: Crc, term: nat, first: int, es: seq<Wire>, cut: nat)
    requires term < TWO64 && Int64(first) && forall i :: 0 <= i < |es| ==> Encodable(es[i])
    requires cut <= |Frames(crc, es)|
    ensures var o := OpenSegment((SegmentHeader(term, first) + Frames(crc, es))[..20 + cut]);
            && o == Some(Opened(term, first, 2, Frames(crc, es)[..cut]))
            && ReadFrames(crc, o.value.body, o.value.version) == (Normals(es[..Whole(crc, es, cut)]), true)
  {
    var body := Frames(crc, es)[..cut];
    assert (SegmentHeader(term, first) + Frames(crc, es))[..20 + cut] == SegmentHeader(term, first) + body;
    OpenBack(term, first, body);
    CutGivesPrefix(crc, es, cut);
  }

  lemma OpenBack(term: nat, first: int, body: seq<Byte>)
    requires term < TWO64 && Int64(first)
    ensures OpenSegment(SegmentHeader(term, first) + body) == Some(Opened(term, first, 2, body))
  {
    HeaderParts([84, 52, 2, 10], Big(8, Unsigned64(term)), Big(8, Unsigned64(first)), body);
    NumField(term);
    NumField(first);
    SignedUnsigned(first);
  }

  lemma HeaderParts(m: seq<Byte>, t: seq<Byte>, f: seq<Byte>, body: seq<Byte>)
    requires |m| == 4 && |t| == 8 && |f| == 8
    ensures var b := m + t + f + body;
            b[..2] == m[..2] && b[2] == m[2] && b[3] == m[3] && b[4..12] == t && b[12..20] == f && b[20..] == body
  {
  }

  // ---------------------------------------------------------------- transactions

  const VERSIONED := 0x8000_0000

  function OpBlock(o: WireOp): (bs: seq<Byte>) {
    Block(o.op, [o.lease, o.createRev, o.prevRev, o.version], o.key, o.value)
  }

  function OpBlocks(os: seq<WireOp>): (bs: seq<Byte>) {
    if os == [] then [] else OpBlock(os[0]) + OpBlocks(os[1..])
  }

  /** EncodeTxnOps: a count with the versioned flag set, then the writes. */
  function EncodeTxnOps(os: seq<WireOp>): (bs: seq<Byte>) {
    Big(4, (VERSIONED + |os|) % TWO32) + OpBlocks(os)
  }

  function OpFrom(r: Read, versioned: bool): (o: WireOp)
    requires |r.fields| == if versioned then 4 else 3
  {
    WireOp(r.op, r.key, r.value, Signed64(r.fields[0]), Signed64(r.fields[1]), Signed64(r.fields[2]),
           if versioned then Signed64(r.fields[3]) else 0)
  }

  function ReadOps(b: seq<Byte>, count: nat, versioned: bool): (r: Option<seq<WireOp>>)
    decreases count
  {
    if count == 0 then Some([])
    else
      var r := ReadBlock(b, if versioned then 4 else 3);
      if r.None? then None
      else
        var more := ReadOps(r.value.rest, count - 1, versioned);
        Prepend([OpFrom(r.value, versioned)], more)
  }

  function DecodedTxnOps(b: seq<Byte>): (r: Option<seq<WireOp>>) {
    if |b| < 4 then None
    else var raw := Num(b[..4]); ReadOps(b[4..], raw % VERSIONED, (raw / VERSIONED) % 2 == 1)
  }

  function Prepend(read: seq<WireOp>, more: Option<seq<WireOp>>): (r: Option<seq<WireOp>>) {
    if more.None? then None else Some(read + more.value)
  }

  lemma PrependMore(read: seq<WireOp>, o: WireOp, more: Option<seq<WireOp>>)
    ensures Prepend(read, Prepend([o], more)) == Prepend(read + [o], more)
    ensures Prepend([], more) == more
  {
    if more.Some? {
      assert read + ([o] + more.value) == read + [o] + more.value;
      assert [] + more.value == more.value;
    }
  }

  lemma ReadOpsStep(b: seq<Byte>, count: nat, versioned: bool)
    requires count > 0
    ensures var r := ReadBlock(b, if versioned then 4 else 3);
            ReadOps(b, count, versioned) ==
            if r.None? then None else Prepend([OpFrom(r.value, versioned)], ReadOps(r.value.rest, count - 1, versioned))
  {
  }

  method DecodeOps(bytes: seq<Byte>, count: nat, versioned: bool) returns (ops: Option<seq<WireOp>>)
    ensures ops == ReadOps(bytes, count, versioned)
  {
    var b, read := bytes, [];
    ghost var more := ReadOps(bytes, count, versioned);
    assert Prepend([], more) == more by { if more.Some? { assert [] + more.value == more.value; } }
    for i := 0 to count
      invariant more == ReadOps(b, count - i, versioned)
      invariant ReadOps(bytes, count, versioned) == Prepend(read, more)
    {
      ReadOpsStep(b, count - i, versioned);
      var r := ReadBlock(b, if versioned then 4 else 3);
      if r.None? {
        return None;
      }
      var o := OpFrom(r.value, versioned);
      more := ReadOps(r.value.rest, count - i - 1, versioned);
      PrependMore(read, o, more);
      read := read + [o];
      b := r.value.rest;
    }
    assert more == Some([]) && read + [] == read;
    return Some(read);
  }

  method DecodeTxnOps(bytes: seq<Byte>) returns (ops: Option<seq<WireOp>>)
    ensures ops == DecodedTxnOps(bytes)
  {
    if |bytes| < 4 {
      return None;
    }
    var raw := Num(bytes[..4]);
    ops := DecodeOps(bytes[4..], raw % VERSIONED, (raw / VERSIONED) % 2 == 1);
  }

  predicate EncodableOp(o: WireOp) {
    Int64(o.lease) && Int64(o.createRev) && Int64(o.prevRev) && Int64(o.version) && |o.key| < TWO32 && |o.value| < TWO32
  }

  lemma OpBlockBack(o: WireOp, rest: seq<Byte>)
    requires EncodableOp(o)
    ensures var r := ReadBlock(OpBlock(o) + rest, 4); r.Some? && OpFrom(r.value, true) == o && r.value.rest == rest
  {
    ReadBlockBack(o.op, [o.lease, o.createRev, o.prevRev, o.version], o.key, o.value, rest);
    SignedUnsigned(o.lease);
    SignedUnsigned(o.createRev);
    SignedUnsigned(o.prevRev);
    SignedUnsigned(o.version);
  }

  lemma ReadOneOp(o: WireOp, rest: seq<Byte>, count: nat, more: seq<WireOp>)
    requires EncodableOp(o) && count > 0 && ReadOps(rest, count - 1, true) == Some(more)
    ensures ReadOps(OpBlock(o) + rest, count, true) == Some([o] + more)
  {
    OpBlockBack(o, rest);
  }

  lemma {:induction false} ReadOpsBack(os: seq<WireOp>)
    requires forall i :: 0 <= i < |os| ==> EncodableOp(os[i])
    ensures ReadOps(OpBlocks(os), |os|, true) == Some(os)
  {
    if os != [] {
      var o, more := os[0], os[1..];
      assert os == [o] + more && EncodableOp(o);
      ReadOpsBack(more);
      ReadOneOp(o, OpBlocks(more), |os|, more);
      assert OpBlocks(os) == OpBlock(o) + OpBlocks(more);
    }
  }

  lemma CountBack(n: nat, b: seq<Byte>)
    requires n < VERSIONED
    ensures var raw := Num((Big(4, (VERSIONED + n) % TWO32) + b)[..4]); raw % VERSIONED == n && (raw / VERSIONED) % 2 == 1
    ensures (Big(4, (VERSIONED + n) % TWO32) + b)[4..] == b
  {
    assert (Big(4, (VERSIONED + n) % TWO32) + b)[..4] == Big(4, (VERSIONED + n) % TWO32);
    Num32(VERSIONED + n);
  }

  /** Transactions read back as they were written. */
  lemma TxnRoundTrip(os: seq<WireOp>)
    requires |os| < VERSIONED && forall i :: 0 <= i < |os| ==> EncodableOp(os[i])
    ensures DecodedTxnOps(EncodeTxnOps(os)) == Some(os)
  {
    CountBack(|os|, OpBlocks(os));
    ReadOpsBack(os);
  }

  // ------------------------------------------------------------ the log's entries

  function OpByte(op: Op): (b: Byte) {
    match op
    case OpCreate => 1
    case OpUpdate => 2
    case OpDelete => 3
    case OpCompact => 4
    case OpTxn => 5
  }

  function OpOf(b: Byte): (op: Option<Op>) {
    if b == 1 then Some(OpCreate)
    else if b == 2 then Some(OpUpdate)
    else if b == 3 then Some(OpDelete)
    else if b == 4 then Some(OpCompact)
    else if b == 5 then Some(OpTxn)
    else None
  }

  function WireOpOf(o: SubOp): (w: WireOp) {
    WireOp(OpByte(o.op), o.key, o.value, o.lease, o.createRev, o.prevRev, o.version)
  }

  function WireOps(os: seq<SubOp>): (ws: seq<WireOp>)
    ensures |ws| == |os|
  {
    seq(|os|, i requires 0 <= i < |os| => WireOpOf(os[i]))
  }

  function Stored(e: Entry): (w: Wire) {
    Wire(e.id, e.revision, e.term, OpByte(e.op), e.key, if e.op == OpTxn then EncodeTxnOps(WireOps(e.ops)) else e.value,
         e.lease, e.createRev, e.prevRev, e.version)
  }

  function SubOpsOf(ws: seq<WireOp>): (os: Option<seq<SubOp>>) {
    if ws == [] then Some([])
    else
      var init, w := SubOpsOf(ws[..|ws| - 1]), ws[|ws| - 1];
      if init.None? || OpOf(w.op).None? then None
      else Some(init.value + [SubOp(OpOf(w.op).value, w.key, w.value, w.lease, w.createRev, w.prevRev, w.version)])
  }

  /** The entry a reader of the log works with; a transaction is unpacked. */
  function Loaded(w: Wire): (e: Option<Entry>) {
    var op := OpOf(w.op);
    if op.None? then None
    else if op.value != OpTxn then
      Some(Entry(w.id, w.revision, w.term, op.value, w.key, w.value, w.lease, w.createRev, w.prevRev, w.version, []))
    else
      var ws := DecodedTxnOps(w.value);
      var os := if ws.None? then None else SubOpsOf(ws.value);
      if os.None? then None
      else Some(Entry(w.id, w.revision, w.term, OpTxn, w.key, [], w.lease, w.createRev, w.prevRev, w.version, os.value))
  }

  /** An entry as the write path builds it, with fields that fit their encodings. */
  predicate Writable(e: Entry) {
    && Encodable(Stored(e))
    && (if e.op == OpTxn then e.value == [] else e.ops == [])
    && |e.ops| < VERSIONED && forall i :: 0 <= i < |e.ops| ==> EncodableOp(WireOpOf(e.ops[i]))
  }

  lemma {:induction false} SubOpsBack(os: seq<SubOp>)
    ensures SubOpsOf(WireOps(os)) == Some(os)
  {
    if os != [] {
      var init := os[..|os| - 1];
      SubOpsBack(init);
      assert WireOps(os)[..|os| - 1] == WireOps(init);
      assert init + [os[|os| - 1]] == os;
    }
  }

  lemma TxnOpsBack(os: seq<SubOp>)
    requires |os| < VERSIONED && forall i :: 0 <= i < |os| ==> EncodableOp(WireOpOf(os[i]))
    ensures var ws := DecodedTxnOps(EncodeTxnOps(WireOps(os))); ws.Some? && SubOpsOf(ws.value) == Some(os)
  {
    assert forall i :: 0 <= i < |os| ==> WireOps(os)[i] == WireOpOf(os[i]);
    TxnRoundTrip(WireOps(os));
    SubOpsBack(os);
  }

  lemma LoadedTxn(w: Wire, os: seq<SubOp>)
    requires w.op == 5 && DecodedTxnOps(w.value).Some? && SubOpsOf(DecodedTxnOps(w.value).value) == Some(os)
    ensures Loaded(w) == Some(Entry(w.id, w.revision, w.term, OpTxn, w.key, [], w.lease, w.createRev, w.prevRev, w.version, os))
  {
  }

  lemma LoadedBack(e: Entry)
    requires Writable(e)
    ensures Loaded(Normal(Stored(e))) == Some(e.(id := e.Sequence()))
  {
    if e.op == OpTxn {
      TxnOpsBack(e.ops);
      LoadedTxn(Normal(Stored(e)), e.ops);
    }
  }

  function StoredAll(es: seq<Entry>): (ws: seq<Wire>)
    ensures |ws| == |es|
  {
    seq(|es|, i requires 0 <= i < |es| => Stored(es[i]))
  }

  /** From log to bytes and back through a crash: the reader recovers exactly the
      entries written whole, transactions included, and nothing else. */
  lemma CrashRecoversPrefix(crc: Crc, term: nat, first: int, es: seq<Entry>, cut: nat)
    requires term < TWO64 && Int64(first) && forall i :: 0 <= i < |es| ==> Writable(es[i])
    requires cut <= |Frames(crc, StoredAll(es))|
    ensures var k := Whole(crc, StoredAll(es), cut);
            var o := OpenSegment((SegmentHeader(term, first) + Frames(crc, StoredAll(es)))[..20 + cut]);
            && o.Some? && o.value.term == term && o.value.first == first
            && (var (ws, ok) := ReadFrames(crc, o.value.body, o.value.version);
                ok && |ws| == k <= |es| && forall i :: 0 <= i < k ==> Loaded(ws[i]) == Some(es[i].(id := es[i].Sequence())))
  {
    var ws := StoredAll(es);
    CutSegment(crc, term, first, ws, cut);
    forall i | 0 <= i < Whole(crc, ws, cut) ensures Loaded(Normals(ws[..Whole(crc, ws, cut)])[i]) == Some(es[i].(id := es[i].Sequence())) {
      LoadedBack(es[i]);
    }
  }
}

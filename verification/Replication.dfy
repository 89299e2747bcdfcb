/** WAL streaming from one leader to its followers: entries travel ahead of the
    leader's own commit and become visible only on a commit marker. */
module Replication {
  import opened Entries

  datatype Msg = EntryMsg(e: Entry) | CommitMsg(start: int, rev: int)

  const CHANNEL_CAP := 512

  // ------------------------------------------------------------ the ring buffer

  /** push: keeps the newest cap entries. */
  function Pushed(buf: seq<Entry>, cap: nat, e: Entry): (buf': seq<Entry>) {
    var b := buf + [e];
    if |b| > cap then b[|b| - cap..] else b
  }

  function PushedAll(cap: nat, es: seq<Entry>): (buf: seq<Entry>) {
    if es == [] then [] else Pushed(PushedAll(cap, es[..|es| - 1]), cap, es[|es| - 1])
  }

  /** However many entries were pushed, the buffer holds the newest cap of them, in
      order. */
  lemma {:induction false} BufferHoldsNewest(cap: nat, es: seq<Entry>)
    ensures PushedAll(cap, es) == if |es| <= cap then es else es[|es| - cap..]
  {
    if es != [] {
      var init, e := es[..|es| - 1], es[|es| - 1];
      BufferHoldsNewest(cap, init);
      assert es == init + [e];
    }
  }

  /** The index of the first entry at or above fromRev. */
  function FirstFrom(buf: seq<Entry>, fromRev: int): (i: nat)
    ensures i <= |buf|
    ensures forall j :: 0 <= j < i ==> buf[j].Sequence() < fromRev
    ensures i < |buf| ==> buf[i].Sequence() >= fromRev
  {
    if buf == [] || buf[0].Sequence() >= fromRev then 0 else 1 + FirstFrom(buf[1..], fromRev)
  }

  /** since: the entries from fromRev on, unless the buffer starts above it. */
  function Since(buf: seq<Entry>, fromRev: int): (r: Option<seq<Entry>>) {
    if buf == [] then Some([])
    else if fromRev < buf[0].Sequence() then None
    else Some(buf[FirstFrom(buf, fromRev)..])
  }

  // -------------------------------------------------------------- the server

  datatype Chan = Chan(queue: seq<Msg>, closed: bool)

  /** The follower channel of each connected node, and the highest ACK of each. */
  datatype Server = Server(startRev: int, cap: nat, pending: seq<Entry>, buf: seq<Entry>,
                           followers: map<nat, nat>, chans: map<nat, Chan>, acks: map<nat, int>)

  predicate Full(ch: Chan) {
    |ch.queue| >= CHANNEL_CAP
  }

  /** A full channel is closed instead. */
  function Offer(ch: Chan, m: Msg): (ch': Chan) {
    if Full(ch) then ch.(closed := true) else ch.(queue := ch.queue + [m])
  }

  /** Offers m to every connected follower and disconnects the slow ones. */
  function FanOut(s: Server, m: Msg): (s': Server) {
    s.(chans := map c | c in s.chans :: if c in s.followers.Values then Offer(s.chans[c], m) else s.chans[c],
       followers := map n | n in s.followers && (s.followers[n] in s.chans ==> !Full(s.chans[s.followers[n]])) :: s.followers[n])
  }

  function Broadcast(s: Server, e: Entry): (s': Server) {
    FanOut(s.(pending := s.pending + [e]), EntryMsg(e))
  }

  /** Entries below the committed range are dropped, those inside it move to the
      buffer, later ones stay pending. */
  function Sorted(pending: seq<Entry>, buf: seq<Entry>, cap: nat, start: int, rev: int): (r: (seq<Entry>, seq<Entry>)) {
    if pending == [] then ([], buf)
    else
      var (keep, b) := Sorted(pending[..|pending| - 1], buf, cap, start, rev);
      var e := pending[|pending| - 1];
      if e.Sequence() < start then (keep, b)
      else if e.Sequence() <= rev then (keep, Pushed(b, cap, e))
      else (keep + [e], b)
  }

  function BroadcastCommit(s: Server, start: int, rev: int): (s': Server) {
    var (keep, b) := Sorted(s.pending, s.buf, s.cap, start, rev);
    FanOut(s.(pending := keep, buf := b), CommitMsg(start, rev))
  }

  // -------------------------------------------------------------- the client

  /** What a commit marker makes of the staged entries: an old marker is ignored,
      and anything but a complete run start..rev asks for a resync. */
  datatype Verdict = Ignored | Gap | Batch(batch: seq<Entry>, rest: seq<Entry>)

  /** How many leading entries lie below bound. */
  function CountBelow(staged: seq<Entry>, bound: int): (n: nat)
    ensures n <= |staged|
  {
    if staged == [] || staged[0].Sequence() >= bound then 0 else 1 + CountBelow(staged[1..], bound)
  }

  lemma {:induction false} CountBelowIs(staged: seq<Entry>, bound: int, n: nat)
    requires n <= |staged| && (forall i :: 0 <= i < n ==> staged[i].Sequence() < bound)
    requires n < |staged| ==> staged[n].Sequence() >= bound
    ensures CountBelow(staged, bound) == n
  {
    if n > 0 { CountBelowIs(staged[1..], bound, n - 1); }
  }

  lemma {:induction false} CountBelowMeans(staged: seq<Entry>, bound: int)
    ensures var n := CountBelow(staged, bound);
            && (forall i :: 0 <= i < n ==> staged[i].Sequence() < bound)
            && (n < |staged| ==> staged[n].Sequence() >= bound)
  {
    if staged != [] && staged[0].Sequence() < bound {
      CountBelowMeans(staged[1..], bound);
      assert forall i :: 1 <= i < |staged| ==> staged[i] == staged[1..][i - 1];
    }
  }

  function CommitStart(start: int, rev: int): (r: int) {
    if start == 0 then rev else start
  }

  /** The entries up to rev, if they are exactly first..rev. */
  function Cut(left: seq<Entry>, first: int, rev: int): (v: Verdict)
    ensures v.Batch? ==> |v.batch| > 0
  {
    var cut := CountBelow(left, rev + 1);
    if cut == 0 || left[cut - 1].Sequence() != rev || !Consecutive(left[..cut], first) then Gap
    else Batch(left[..cut], left[cut..])
  }

  function OnCommit(staged: seq<Entry>, from: int, start: int, rev: int): (v: Verdict)
    ensures v.Batch? ==> |v.batch| > 0
  {
    if rev < from then Ignored
    else
      var first := CommitStart(start, rev);
      Cut(staged[CountBelow(staged, first)..], first, rev)
  }
}

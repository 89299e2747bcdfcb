/** The local WAL: batches appended to an active segment that is rotated by size,
    by age, by synchronous upload or for a checkpoint. */
module WalSegments {
  import Lex
  import opened Entries
  import WalArchive
  import WalGc

  datatype Segment = Segment(first: int, entries: seq<Entry>)

  const HEADER := 20

  /** The bytes of a segment, given the framed size of an entry. */
  function Bytes(frame: Entry -> nat, es: seq<Entry>): (n: nat) {
    if es == [] then HEADER else Bytes(frame, es[..|es| - 1]) + frame(es[|es| - 1])
  }

  function Flat(segs: seq<Segment>): (es: seq<Entry>) {
    if segs == [] then [] else Flat(segs[..|segs| - 1]) + segs[|segs| - 1].entries
  }

  lemma BytesMore(frame: Entry -> nat, es: seq<Entry>, e: Entry)
    ensures Bytes(frame, es + [e]) == Bytes(frame, es) + frame(e)
  {
    assert (es + [e])[..|es|] == es;
  }

  lemma OneMore(a: seq<Entry>, es: seq<Entry>, i: nat)
    requires i < |es|
    ensures a + es[..i] + [es[i]] == a + es[..i + 1]
  {
  }

  /** Segments named by counting entries from first on; next is the name after them. */
  ghost predicate Linked(segs: seq<Segment>, first: int, next: int) {
    if segs == [] then next == first
    else
      var s := segs[|segs| - 1];
      Linked(segs[..|segs| - 1], first, s.first) && next == s.first + |s.entries|
  }

  /** Segments that hold first, first + 1, ... with no gap and no overlap, each
      named by its first sequence; next is the sequence after the last. */
  ghost predicate Chain(segs: seq<Segment>, first: int, next: int) {
    if segs == [] then next == first
    else
      var s := segs[|segs| - 1];
      Chain(segs[..|segs| - 1], first, s.first) && Consecutive(s.entries, s.first) && next == s.first + |s.entries|
  }

  ghost predicate NonEmpty(segs: seq<Segment>) {
    forall i :: 0 <= i < |segs| ==> segs[i].entries != []
  }

  class Wal {
    const term: nat
    const maxSize: nat
    /** Every batch is uploaded before it is acknowledged. */
    const syncUpload: bool
    const frame: Entry -> nat
    var sealed: seq<Segment>
    var active: Segment
    var size: nat
    ghost const start: int
    /** The entries of all batches that were accepted. */
    ghost var accepted: seq<Entry>

    /** The segments hold the accepted entries, in order. */
    ghost predicate Valid()
      reads this
    {
      Shaped() && accepted == Flat(sealed) + active.entries
    }

    ghost predicate Shaped()
      reads this
    {
      maxSize > HEADER && size == Bytes(frame, active.entries) && NonEmpty(sealed)
    }

    /** Every name continues the count of the segments before it. */
    ghost predicate Counted()
      reads this
    {
      Linked(sealed, start, active.first)
    }

    /** The name a rotation would give the next segment. */
    function Next(): (n: int)
      reads this
    {
      active.first + |active.entries|
    }

    constructor (t: nat, firstSeq: int, max: nat, sync: bool, f: Entry -> nat)
      requires max > HEADER
      ensures Valid() && Counted() && term == t && start == firstSeq && maxSize == max && syncUpload == sync && frame == f
      ensures sealed == [] && active == Segment(firstSeq, []) && accepted == []
    {
      term, maxSize, syncUpload, frame, start := t, max, sync, f, firstSeq;
      sealed, active, size, accepted := [], Segment(firstSeq, []), HEADER, [];
    }

    method AppendNoSync(e: Entry)
      modifies this`active, this`size
      ensures active == old(active).(entries := old(active).entries + [e]) && size == old(size) + frame(e)
    {
      active := active.(entries := active.entries + [e]);
      size := size + frame(e);
    }

    method AppendAll(entries: seq<Entry>)
      requires size == Bytes(frame, active.entries)
      modifies this`active, this`size
      ensures active == old(active).(entries := old(active).entries + entries) && size == Bytes(frame, active.entries)
    {
      ghost var a := active;
      assert a.entries + entries[..0] == a.entries;
      for i := 0 to |entries|
        invariant active == a.(entries := a.entries + entries[..i]) && size == Bytes(frame, a.entries + entries[..i])
      {
        BytesMore(frame, a.entries + entries[..i], entries[i]);
        OneMore(a.entries, entries, i);
        AppendNoSync(entries[i]);
      }
      assert entries[..|entries|] == entries;
    }

    /** Seals the active segment and opens one named nextSeq. */
    method Rotate(nextSeq: int)
      modifies this`sealed, this`active, this`size
      ensures sealed == old(sealed) + [old(active)] && active == Segment(nextSeq, []) && size == HEADER
    {
      sealed := sealed + [active];
      active := Segment(nextSeq, []);
      size := HEADER;
    }

    /** Truncates the active segment back to what it was. */
    method Rollback(oldSize: nat, oldCount: nat)
      requires oldCount <= |active.entries|
      modifies this`active, this`size
      ensures active == old(active).(entries := old(active).entries[..oldCount]) && size == oldSize
    {
      active := active.(entries := active.entries[..oldCount]);
      size := oldSize;
    }

    /** rotateLocked: the next segment's name is counted on from the active one's. */
    method RotateNow()
      requires Shaped() && active.entries != []
      modifies this`sealed, this`active, this`size
      ensures Shaped() && active == Segment(old(Next()), []) && sealed == old(sealed) + [old(active)] && size == HEADER
      ensures Flat(sealed) == Flat(old(sealed)) + old(active).entries
      ensures Counted() <==> old(Counted())
    {
      LinkedMore(sealed, active, start);
      FlatMore(sealed, active);
      Rotate(active.first + |active.entries|);
    }

    /** What follows the fsync: a synchronous upload that succeeds rotates, one that
        fails rolls back; otherwise a full segment is rotated. */
    method AfterSync(oldSize: nat, oldCount: nat, uploadOk: bool) returns (ok: bool)
      requires Shaped() && oldCount <= |active.entries| && oldSize == Bytes(frame, active.entries[..oldCount])
      modifies this`sealed, this`active, this`size
      ensures Shaped() && (ok <==> uploadOk || !syncUpload || old(active).entries == [])
      ensures Counted() <==> old(Counted())
      ensures ok ==> Flat(sealed) + active.entries == Flat(old(sealed)) + old(active).entries && Next() == old(Next())
      ensures ok && syncUpload ==> active.entries == []
      ensures ok ==> size < maxSize || (syncUpload && old(active).entries == [])
      ensures ok && old(active).entries != [] && (syncUpload || old(size) >= maxSize) ==>
                sealed == old(sealed) + [old(active)] && active == Segment(old(Next()), [])
      ensures ok && !syncUpload && old(size) < maxSize ==> sealed == old(sealed) && active == old(active)
      ensures !ok ==> sealed == old(sealed) && active == old(active).(entries := old(active).entries[..oldCount]) && size == oldSize
    {
      if syncUpload {
        if |active.entries| == 0 {
          return true;
        }
        if !uploadOk {
          Rollback(oldSize, oldCount);
          return false;
        }
        RotateNow();
      } else if size >= maxSize {
        NonEmptyIfLarge(frame, active.entries);
        RotateNow();
      }
      return true;
    }

    /** A batch is accepted whole, or a failed synchronous upload leaves everything
        as it was. */
    method AppendBatch(entries: seq<Entry>, uploadOk: bool) returns (ok: bool)
      requires Valid()
      modifies this
      ensures Valid() && (Counted() <==> old(Counted()))
      ensures ok <==> uploadOk || !syncUpload || old(active).entries + entries == []
      ensures !ok ==> sealed == old(sealed) && active == old(active) && size == old(size) && accepted == old(accepted)
      ensures ok ==> accepted == old(accepted) + entries && Next() == old(Next()) + |entries|
      ensures ok && syncUpload ==> active.entries == []
      ensures ok && !syncUpload ==>
                var grown := Segment(old(active).first, old(active).entries + entries);
                if Bytes(frame, grown.entries) >= maxSize
                then sealed == old(sealed) + [grown] && active == Segment(old(Next()) + |entries|, [])
                else sealed == old(sealed) && active == grown
    {
      var rollbackSize, rollbackCount := size, |active.entries|;
      AppendAll(entries);
      assert active.entries[..rollbackCount] == old(active).entries;
      ok := AfterSync(rollbackSize, rollbackCount, uploadOk);
      if ok {
        Associative(Flat(old(sealed)), old(active).entries, entries);
        accepted := accepted + entries;
      }
    }

    /** One tick of the age-based rotation. */
    method RotateByAge()
      requires Valid()
      modifies this
      ensures Valid() && accepted == old(accepted) && Next() == old(Next()) && active.entries == []
      ensures Counted() <==> old(Counted())
    {
      if |active.entries| > 0 {
        RotateNow();
      }
    }

    /** Before a checkpoint. The caller names the next segment: the names go on
        counting exactly when that is the next one. */
    method SealAndFlush(nextSeq: int)
      requires Valid()
      modifies this
      ensures Valid() && accepted == old(accepted)
      ensures old(active).entries == [] ==> sealed == old(sealed) && active == old(active)
      ensures old(active).entries != [] ==> sealed == old(sealed) + [old(active)] && active == Segment(nextSeq, [])
      ensures old(active).entries != [] ==> (Counted() <==> old(Counted()) && nextSeq == old(Next()))
    {
      if |active.entries| == 0 {
        return;
      }
      LinkedMore(sealed, active, start);
      FlatMore(sealed, active);
      Rotate(nextSeq);
    }
  }

  /** A WAL holds the accepted batches, in order; named by counting, its segments are
      one chain if and only if the entries carry the sequences from the opening name
      on. */
  lemma WalChainIff(w: Wal)
    requires w.Valid() && w.Counted()
    ensures Flat(w.sealed + [w.active]) == w.accepted
    ensures Chain(w.sealed + [w.active], w.start, w.Next()) <==> Consecutive(w.accepted, w.start)
  {
    LinkedMore(w.sealed, w.active, w.start);
    FlatMore(w.sealed, w.active);
    ChainIff(w.sealed + [w.active], w.start, w.Next());
  }

  /** So entries without a gap are one chain if and only if the WAL was opened under
      the sequence of the first. */
  lemma OpenedRightIff(w: Wal, first: int)
    requires w.Valid() && w.Counted() && w.accepted != [] && Consecutive(w.accepted, first)
    ensures Chain(w.sealed + [w.active], w.start, w.Next()) <==> w.start == first
  {
    WalChainIff(w);
    assert w.accepted[0].Sequence() == first;
  }

  lemma LinkedMore(segs: seq<Segment>, s: Segment, first: int)
    ensures forall next :: Linked(segs + [s], first, next) <==> Linked(segs, first, s.first) && next == s.first + |s.entries|
  {
    assert (segs + [s])[..|segs + [s]| - 1] == segs;
  }

  lemma {:induction false} LinkedLength(segs: seq<Segment>, first: int, next: int)
    requires Linked(segs, first, next)
    ensures |Flat(segs)| == next - first
  {
    if segs != [] { LinkedLength(segs[..|segs| - 1], first, segs[|segs| - 1].first); }
  }

  lemma ConsecutiveSplit(a: seq<Entry>, b: seq<Entry>, first: int)
    ensures Consecutive(a + b, first) <==> Consecutive(a, first) && Consecutive(b, first + |a|)
  {
    if Consecutive(a + b, first) {
      assert forall i :: 0 <= i < |a| ==> (a + b)[i] == a[i];
      assert forall i :: 0 <= i < |b| ==> (a + b)[|a| + i] == b[i];
    }
  }

  lemma {:induction false} ChainIff(segs: seq<Segment>, first: int, next: int)
    requires Linked(segs, first, next)
    ensures Chain(segs, first, next) <==> Consecutive(Flat(segs), first)
  {
    if segs != [] {
      var init, s := segs[..|segs| - 1], segs[|segs| - 1];
      ChainIff(init, first, s.first);
      LinkedLength(init, first, s.first);
      ConsecutiveSplit(Flat(init), s.entries, first);
    }
  }

  lemma FlatMore(segs: seq<Segment>, s: Segment)
    ensures Flat(segs + [s]) == Flat(segs) + s.entries
  {
    assert (segs + [s])[..|segs + [s]| - 1] == segs;
  }

  lemma NonEmptyIfLarge(frame: Entry -> nat, es: seq<Entry>)
    requires Bytes(frame, es) > HEADER
    ensures es != []
  {
  }

  // ----------------------------------------------------------- the partition

  lemma {:induction false} ChainAt(segs: seq<Segment>, first: int, next: int, i: nat)
    requires Chain(segs, first, next) && i < |segs|
    ensures Consecutive(segs[i].entries, segs[i].first)
    ensures segs[i].first + |segs[i].entries| == if i + 1 < |segs| then segs[i + 1].first else next
    ensures first <= segs[i].first && segs[i].first + |segs[i].entries| <= next
  {
    var init, s := segs[..|segs| - 1], segs[|segs| - 1];
    if i < |init| {
      ChainAt(init, first, s.first, i);
    } else if init != [] {
      ChainAt(init, first, s.first, |init| - 1);
    }
  }

  lemma {:induction false} ChainOrdered(segs: seq<Segment>, first: int, next: int, i: nat, j: nat)
    requires Chain(segs, first, next) && i < j < |segs|
    ensures segs[i].first + |segs[i].entries| <= segs[j].first
    decreases j
  {
    ChainAt(segs, first, next, i);
    if i + 1 < j {
      ChainOrdered(segs, first, next, i, j - 1);
      ChainAt(segs, first, next, j - 1);
    }
  }

  /** The segments of a chain concatenate to one consecutive log. */
  lemma {:induction false} ChainIsLog(segs: seq<Segment>, first: int, next: int)
    requires Chain(segs, first, next)
    ensures Consecutive(Flat(segs), first) && |Flat(segs)| == next - first
  {
    if segs != [] {
      ChainIsLog(segs[..|segs| - 1], first, segs[|segs| - 1].first);
    }
  }

  /** Every sequence of the log lies in exactly one segment, at its offset there. */
  lemma {:induction false} ChainPartitions(segs: seq<Segment>, first: int, next: int, s: int)
    requires Chain(segs, first, next) && first <= s < next
    ensures exists i :: 0 <= i < |segs| && segs[i].first <= s < segs[i].first + |segs[i].entries| &&
              segs[i].entries[s - segs[i].first].Sequence() == s
    ensures forall i, j :: 0 <= i < |segs| && 0 <= j < |segs| && i != j ==>
              !(segs[i].first <= s < segs[i].first + |segs[i].entries| && segs[j].first <= s < segs[j].first + |segs[j].entries|)
  {
    var init, last := segs[..|segs| - 1], segs[|segs| - 1];
    if s < last.first {
      ChainPartitions(init, first, last.first, s);
      var i :| 0 <= i < |init| && init[i].first <= s < init[i].first + |init[i].entries| &&
        init[i].entries[s - init[i].first].Sequence() == s;
      assert segs[i] == init[i];
    } else {
      assert segs[|segs| - 1].entries[s - last.first].Sequence() == s;
    }
    forall i, j | 0 <= i < |segs| && 0 <= j < |segs| && i != j
      ensures !(segs[i].first <= s < segs[i].first + |segs[i].entries| && segs[j].first <= s < segs[j].first + |segs[j].entries|)
    {
      if i < j { ChainOrdered(segs, first, next, i, j); } else { ChainOrdered(segs, first, next, j, i); }
    }
  }

  // ----------------------------------------------------------- in the archive

  /** The segments of one term as they are stored in the archive. */
  function Archived(term: nat, segs: seq<Segment>): (r: WalArchive.Segments) {
    if segs == [] then map[]
    else Archived(term, segs[..|segs| - 1])[[term, segs[|segs| - 1].first] := segs[|segs| - 1].entries]
  }

  lemma {:induction false} ArchivedAt(term: nat, segs: seq<Segment>, k: Lex.Key)
    requires k in Archived(term, segs)
    ensures exists i :: 0 <= i < |segs| && k == [term, segs[i].first] && Archived(term, segs)[k] == segs[i].entries
  {
    var init, s := segs[..|segs| - 1], segs[|segs| - 1];
    if k == [term, s.first] {
      assert Archived(term, segs)[k] == segs[|segs| - 1].entries;
    } else {
      ArchivedAt(term, init, k);
      var i :| 0 <= i < |init| && k == [term, init[i].first] && Archived(term, init)[k] == init[i].entries;
      assert segs[i] == init[i];
    }
  }

  lemma PackedPair(segs: seq<Segment>, first: int, next: int, i: nat, j: nat, e: Entry)
    requires Chain(segs, first, next) && i < |segs| && j < |segs| && segs[i].first < segs[j].first && e in segs[i].entries
    ensures e.Sequence() < segs[j].first
  {
    ChainAt(segs, first, next, i);
    if i < j {
      ChainOrdered(segs, first, next, i, j);
    } else if j < i {
      ChainOrdered(segs, first, next, j, i);
    }
  }

  /** Rotation gives collection and replay what they rely on: a segment holds no
      sequence at or beyond the first of a later segment of its term. */
  lemma ChainWellPacked(term: nat, segs: seq<Segment>, first: int, next: int)
    requires Chain(segs, first, next)
    ensures WalGc.WellPacked(Archived(term, segs))
  {
    var a := Archived(term, segs);
    forall k, k', e: Entry | k in a && k' in a && |k| == 2 && |k'| == 2 && k[0] == k'[0] && k[1] < k'[1] && e in a[k]
      ensures e.Sequence() < k'[1]
    {
      ArchivedAt(term, segs, k);
      ArchivedAt(term, segs, k');
      var i :| 0 <= i < |segs| && k == [term, segs[i].first] && a[k] == segs[i].entries;
      var j :| 0 <= j < |segs| && k' == [term, segs[j].first] && a[k'] == segs[j].entries;
      PackedPair(segs, first, next, i, j, e);
    }
  }

  // ------------------------------------------------------------ a wrong opening name

  /** Where an entry of a segment stands in the whole. */
  lemma {:induction false} LinkedAt(segs: seq<Segment>, first: int, next: int, i: nat, m: nat)
    requires Linked(segs, first, next) && i < |segs| && m < |segs[i].entries|
    ensures first <= segs[i].first && segs[i].first + |segs[i].entries| <= next
    ensures 0 <= segs[i].first - first + m < |Flat(segs)| && segs[i].entries[m] == Flat(segs)[segs[i].first - first + m]
  {
    var init, s := segs[..|segs| - 1], segs[|segs| - 1];
    LinkedLength(init, first, s.first);
    if i < |init| {
      LinkedAt(init, first, s.first, i, m);
    }
  }

  lemma {:induction false} LinkedOrdered(segs: seq<Segment>, first: int, next: int, i: nat, j: nat)
    requires Linked(segs, first, next) && i < j < |segs|
    ensures segs[i].first + |segs[i].entries| <= segs[j].first
  {
    var init, s := segs[..|segs| - 1], segs[|segs| - 1];
    if j < |init| {
      LinkedOrdered(init, first, s.first, i, j);
    } else {
      LinkedEnd(init, first, s.first, i);
    }
  }

  lemma {:induction false} LinkedEnd(segs: seq<Segment>, first: int, next: int, i: nat)
    requires Linked(segs, first, next) && i < |segs|
    ensures segs[i].first + |segs[i].entries| <= next
  {
    if i < |segs| - 1 { LinkedEnd(segs[..|segs| - 1], first, segs[|segs| - 1].first, i); }
  }

  lemma {:induction false} NameArchived(term: nat, segs: seq<Segment>, i: nat)
    requires i < |segs| && forall j :: i < j < |segs| ==> segs[j].first != segs[i].first
    ensures [term, segs[i].first] in Archived(term, segs) && Archived(term, segs)[[term, segs[i].first]] == segs[i].entries
  {
    if i < |segs| - 1 {
      assert segs[|segs| - 1].first != segs[i].first;
      assert [term, segs[|segs| - 1].first][1] != [term, segs[i].first][1];
      NameArchived(term, segs[..|segs| - 1], i);
    }
  }

  /** Names that lie below the sequences: the first segment reaches into the second. */
  lemma NamedLowOverlaps(term: nat, segs: seq<Segment>, first: int, next: int, x: int)
    requires Linked(segs, first, next) && NonEmpty(segs) && |segs| >= 2 && Consecutive(Flat(segs), x) && x > first
    ensures !WalGc.WellPacked(Archived(term, segs))
  {
    var a, s0, s1 := Archived(term, segs), segs[0], segs[1];
    forall j | 0 < j < |segs| ensures segs[j].first > s0.first { LinkedOrdered(segs, first, next, 0, j); }
    forall j | 1 < j < |segs| ensures segs[j].first > s1.first { LinkedOrdered(segs, first, next, 1, j); }
    NameArchived(term, segs, 0);
    NameArchived(term, segs, 1);
    FirstTwo(segs, first, next);
    var m := |s0.entries| - 1;
    LinkedAt(segs, first, next, 0, m);
    var k, k', e := [term, s0.first], [term, s1.first], s0.entries[m];
    assert k in a && k' in a && |k| == 2 && |k'| == 2 && k[0] == k'[0] && k[1] < k'[1] && e in a[k];
    assert e.Sequence() >= k'[1];
  }

  lemma {:induction false} FirstTwo(segs: seq<Segment>, first: int, next: int)
    requires Linked(segs, first, next) && |segs| >= 2
    ensures segs[0].first == first && segs[1].first == first + |segs[0].entries|
  {
    var init, s := segs[..|segs| - 1], segs[|segs| - 1];
    if |segs| > 2 {
      FirstTwo(init, first, s.first);
    } else {
      assert init[..0] == [] && init[0] == segs[0];
      assert Linked([], first, init[0].first);
    }
  }

  /** What a WAL uploads is packed if and only if it was not opened under a name below
      its first sequence. */
  lemma PackedIffNotNamedLow(term: nat, segs: seq<Segment>, first: int, next: int, x: int)
    requires Linked(segs, first, next) && NonEmpty(segs) && |segs| >= 2 && Consecutive(Flat(segs), x)
    ensures WalGc.WellPacked(Archived(term, segs)) <==> x <= first
  {
    if x > first {
      NamedLowOverlaps(term, segs, first, next, x);
    } else {
      NamedHighPacked(term, segs, first, next, x);
    }
  }

  lemma NamedHighPacked(term: nat, segs: seq<Segment>, first: int, next: int, x: int)
    requires Linked(segs, first, next) && Consecutive(Flat(segs), x) && x <= first
    ensures WalGc.WellPacked(Archived(term, segs))
  {
    var a := Archived(term, segs);
    forall k, k', e: Entry | k in a && k' in a && |k| == 2 && |k'| == 2 && k[0] == k'[0] && k[1] < k'[1] && e in a[k]
      ensures e.Sequence() < k'[1]
    {
      ArchivedAt(term, segs, k);
      ArchivedAt(term, segs, k');
      var i :| 0 <= i < |segs| && k == [term, segs[i].first] && a[k] == segs[i].entries;
      var j :| 0 <= j < |segs| && k' == [term, segs[j].first] && a[k'] == segs[j].entries;
      BelowName(segs, first, next, x, i, j, e);
    }
  }

  lemma BelowName(segs: seq<Segment>, first: int, next: int, x: int, i: nat, j: nat, e: Entry)
    requires Linked(segs, first, next) && Consecutive(Flat(segs), x) && x <= first
    requires i < |segs| && j < |segs| && segs[i].first < segs[j].first && e in segs[i].entries
    ensures e.Sequence() < segs[j].first
  {
    var m :| 0 <= m < |segs[i].entries| && segs[i].entries[m] == e;
    LinkedAt(segs, first, next, i, m);
    if i < j {
      LinkedOrdered(segs, first, next, i, j);
    } else {
      LinkedOrdered(segs, first, next, j, i);
    }
  }
}

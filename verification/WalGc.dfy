/** What garbage collection of archived segments does to recovery: exactly when
    replay is the same with and without the deleted segments, over every run of
    uploads and collections. */
module WalGc {
  import Lex
  import opened Entries
  import opened WalArchive

  // ------------------------------------------------------- what replay gathers

  /** Replay from a sequence at or above c and below e takes e from the archive. */
  ghost predicate Gathered(segs: Segments, c: int, e: Entry) {
    exists k :: k in segs && FromSegment(segs, k, segs.Keys, c, e)
  }

  lemma GatheredIs(segs: Segments, c: int, e: Entry)
    requires ValidKeys(segs)
    ensures e in Collected(segs, c) <==> Gathered(segs, c, e)
  {
    GatherMembers(segs, Listing(segs), segs.Keys, c, e);
  }

  lemma GatheredLater(segs: Segments, c: int, afterSeq: int, e: Entry)
    requires afterSeq >= c
    ensures Gathered(segs, afterSeq, e) <==> Gathered(segs, c, e) && afterSeq < e.Sequence()
  {
    if k :| k in segs && FromSegment(segs, k, segs.Keys, afterSeq, e) {
      assert FromSegment(segs, k, segs.Keys, c, e);
    }
    if k :| k in segs && FromSegment(segs, k, segs.Keys, c, e) && afterSeq < e.Sequence() {
      assert FromSegment(segs, k, segs.Keys, afterSeq, e);
    }
  }

  // --------------------------------------------------- merges of similar gathers

  ghost predicate SameSequences(a: seq<Entry>, b: seq<Entry>) {
    forall n :: HasSeq(a, n) <==> HasSeq(b, n)
  }

  lemma MergeExists(all: seq<Entry>) returns (merged: seq<Entry>)
    ensures IsMerge(all, merged)
  {
    merged := Dedupe(SortEntries(all));
    DedupeIsMerge(SortEntries(all));
    MergeSameMembers(SortEntries(all), all, merged);
  }

  lemma MergeHas(all: seq<Entry>, merged: seq<Entry>, n: int)
    requires IsMerge(all, merged)
    ensures HasSeq(all, n) <==> HasSeq(merged, n)
  {
    if HasSeq(all, n) {
      var i :| 0 <= i < |all| && all[i].Sequence() == n;
      assert all[i] in all;
    }
    if HasSeq(merged, n) {
      var i :| 0 <= i < |merged| && merged[i].Sequence() == n;
      assert Winner(all, merged[i]);
    }
  }

  lemma {:induction false} AscendingPosition(a: seq<Entry>, b: seq<Entry>, i: nat)
    requires Ascending(a) && Ascending(b) && SameSequences(a, b) && i < |a|
    ensures i < |b| && a[i].Sequence() == b[i].Sequence()
  {
    forall j | 0 <= j < i ensures j < |b| && a[j].Sequence() == b[j].Sequence() {
      AscendingPosition(a, b, j);
    }
    assert HasSeq(a, a[i].Sequence());
    var j :| 0 <= j < |b| && b[j].Sequence() == a[i].Sequence();
    NotEarlier(a, b, i, j);
    assert HasSeq(b, b[i].Sequence());
    var l :| 0 <= l < |a| && a[l].Sequence() == b[i].Sequence();
    NotEarlier(b, a, i, l);
  }

  lemma AscendingLength(a: seq<Entry>, b: seq<Entry>)
    requires Ascending(a) && Ascending(b) && SameSequences(a, b)
    ensures |a| <= |b|
  {
    if a != [] { AscendingPosition(a, b, |a| - 1); }
  }

  /** Where the first i sequences agree, the sequence at i is not among them. */
  lemma NotEarlier(a: seq<Entry>, b: seq<Entry>, i: nat, j: nat)
    requires Ascending(a) && i < |a| && j < |b| && i <= |b| && b[j].Sequence() == a[i].Sequence()
    requires forall x :: 0 <= x < i ==> a[x].Sequence() == b[x].Sequence()
    ensures i <= j
  {
    assert forall x :: 0 <= x < i ==> b[x].Sequence() < a[i].Sequence();
  }

  lemma {:induction false} GapSame(a: seq<Entry>, b: seq<Entry>, afterSeq: int, i: nat)
    requires |a| == |b| && i <= |a| && forall j :: 0 <= j < |a| ==> a[j].Sequence() == b[j].Sequence()
    ensures FirstGap(a, afterSeq, i).Missing? ==> FirstGap(b, afterSeq, i) == FirstGap(a, afterSeq, i)
    decreases |a| - i
  {
    if i < |a| { GapSame(a, b, afterSeq, i + 1); }
  }

  lemma MergesAlign(all: seq<Entry>, all': seq<Entry>, m: seq<Entry>, m': seq<Entry>, afterSeq: int)
    requires IsMerge(all, m) && IsMerge(all', m') && SameSequences(all, all')
    ensures FirstGap(m, afterSeq, 0).Missing? ==> FirstGap(m', afterSeq, 0) == FirstGap(m, afterSeq, 0)
  {
    forall n ensures HasSeq(m, n) <==> HasSeq(m', n) {
      MergeHas(all, m, n);
      MergeHas(all', m', n);
    }
    forall i | 0 <= i < |m| ensures i < |m'| && m[i].Sequence() == m'[i].Sequence() {
      AscendingPosition(m, m', i);
    }
    AscendingLength(m, m');
    AscendingLength(m', m);
    GapSame(m, m', afterSeq, 0);
  }

  // ------------------------------------------------------------ what GC can lose

  /** live lacks some of what full holds, but every missing segment has a kept one of
      its term or a higher one that starts at or below c + 1. */
  ghost predicate Thinned(full: Segments, live: Segments, c: int) {
    && ValidKeys(full) && live.Keys <= full.Keys
    && (forall k, e :: k in live && e in live[k] ==> e in full[k])
    && (forall k :: k in full && k !in live ==> StandsIn(live, k[0], c))
  }

  /** A kept segment of at least that term starts at or below c + 1. */
  ghost predicate StandsIn(live: Segments, term: int, c: int) {
    exists g :: g in live && |g| == 2 && g[0] >= term && g[1] <= c + 1
  }

  /** Replay from c takes e from full but not from live. */
  ghost predicate Lost(full: Segments, live: Segments, c: int, e: Entry) {
    Gathered(full, c, e) && !Gathered(live, c, e)
  }

  /** e has the highest term of what is gathered at its sequence. */
  ghost predicate Tops(segs: Segments, c: int, e: Entry) {
    Gathered(segs, c, e) && forall x :: Gathered(segs, c, x) && x.Sequence() == e.Sequence() ==> x.term <= e.term
  }

  ghost predicate HoldsSequence(segs: Segments, c: int, n: int) {
    exists x :: Gathered(segs, c, x) && x.Sequence() == n
  }

  /** A lost entry that recovery would notice: its sequence is gone altogether, or
      recovery from just below it would have succeeded and applied it. */
  ghost predicate Missed(full: Segments, live: Segments, c: int, e: Entry)
    requires ValidKeys(full)
  {
    && Lost(full, live, c, e)
    && (!HoldsSequence(live, c, e.Sequence()) ||
        (Tops(full, c, e) && NoHoles(Collected(full, e.Sequence() - 1), e.Sequence() - 1)))
  }

  ghost predicate NoneMissed(full: Segments, live: Segments, c: int)
    requires ValidKeys(full)
  {
    forall e :: !Missed(full, live, c, e)
  }

  /** Superseding above c is judged alike with and without the missing segments. */
  lemma JudgedAlike(full: Segments, live: Segments, c: int, term: int, n: int)
    requires Thinned(full, live, c) && n > c
    ensures Unsuperseded(full.Keys, term, n) <==> Unsuperseded(live.Keys, term, n)
  {
    if !Unsuperseded(full.Keys, term, n) {
      var k :| k in full && |k| == 2 && k[0] > term && n >= k[1];
      if k !in live {
        var g :| g in live && |g| == 2 && g[0] >= k[0] && g[1] <= c + 1;
        assert g[0] > term && n >= g[1];
      }
    }
  }

  lemma ThinnedGathersLess(full: Segments, live: Segments, c: int, e: Entry)
    requires Thinned(full, live, c) && Gathered(live, c, e)
    ensures Gathered(full, c, e)
  {
    var k :| k in live && FromSegment(live, k, live.Keys, c, e);
    JudgedAlike(full, live, c, k[0], e.Sequence());
    assert FromSegment(full, k, full.Keys, c, e);
  }

  ghost predicate SameGather(full: Segments, live: Segments, afterSeq: int)
    requires ValidKeys(full) && ValidKeys(live)
  {
    forall e :: e in Collected(full, afterSeq) <==> e in Collected(live, afterSeq)
  }

  /** From c on replay gathers the same entries if and only if none is lost. */
  lemma SameGatherIff(full: Segments, live: Segments, c: int)
    requires Thinned(full, live, c)
    ensures (forall afterSeq :: afterSeq >= c ==> SameGather(full, live, afterSeq)) <==> forall e :: !Lost(full, live, c, e)
  {
    if forall e :: !Lost(full, live, c, e) {
      forall afterSeq | afterSeq >= c ensures SameGather(full, live, afterSeq) {
        forall e ensures e in Collected(full, afterSeq) <==> e in Collected(live, afterSeq) {
          GatheredAlike(full, live, c, afterSeq, e);
        }
      }
    }
    if e :| Lost(full, live, c, e) {
      GatheredIs(full, c, e);
      GatheredIs(live, c, e);
      assert !SameGather(full, live, c);
    }
  }

  lemma GatheredAlike(full: Segments, live: Segments, c: int, afterSeq: int, e: Entry)
    requires Thinned(full, live, c) && afterSeq >= c && !Lost(full, live, c, e)
    ensures e in Collected(full, afterSeq) <==> e in Collected(live, afterSeq)
  {
    GatheredIs(full, afterSeq, e);
    GatheredIs(live, afterSeq, e);
    GatheredLater(full, c, afterSeq, e);
    GatheredLater(live, c, afterSeq, e);
    if Gathered(live, c, e) { ThinnedGathersLess(full, live, c, e); }
  }

  // ------------------------------------------------------- when recovery is the same

  ghost predicate SameRecovery(full: Segments, live: Segments, c: int)
    requires ValidKeys(full) && ValidKeys(live)
  {
    forall afterSeq, out :: afterSeq >= c ==> (Recovers(full, afterSeq, out) <==> Recovers(live, afterSeq, out))
  }

  /** all' is part of all, has every sequence of it, and every entry that wins. */
  ghost predicate KeepsWinners(all: seq<Entry>, all': seq<Entry>) {
    && SameSequences(all, all') && (forall e :: e in all' ==> e in all)
    && (forall e :: Winner(all, e) ==> e in all')
  }

  lemma TopOf(all: seq<Entry>, n: int) returns (top: Entry)
    requires HasSeq(all, n)
    ensures Winner(all, top) && top.Sequence() == n
  {
    var m := MergeExists(all);
    MergeHas(all, m, n);
    var i :| 0 <= i < |m| && m[i].Sequence() == n;
    top := m[i];
  }

  lemma WinnersSame(all: seq<Entry>, all': seq<Entry>, e: Entry)
    requires KeepsWinners(all, all')
    ensures Winner(all, e) <==> Winner(all', e)
  {
    if Winner(all', e) {
      assert HasSeq(all, e.Sequence()) by { var i :| 0 <= i < |all| && all[i] == e; }
      var top := TopOf(all, e.Sequence());
      assert top in all';
    }
  }

  lemma MergesSame(all: seq<Entry>, all': seq<Entry>, m: seq<Entry>)
    requires KeepsWinners(all, all')
    ensures IsMerge(all, m) <==> IsMerge(all', m)
  {
    forall i | 0 <= i < |m| ensures Winner(all, m[i]) <==> Winner(all', m[i]) {
      WinnersSame(all, all', m[i]);
    }
    if IsMerge(all', m) {
      forall e | e in all ensures HasSeq(m, e.Sequence()) {
        assert HasSeq(all, e.Sequence()) by { var i :| 0 <= i < |all| && all[i] == e; }
        MergeHas(all', m, e.Sequence());
      }
    }
  }

  lemma SequencesSame(full: Segments, live: Segments, c: int, afterSeq: int)
    requires Thinned(full, live, c) && afterSeq >= c && NoneMissed(full, live, c)
    ensures SameSequences(Collected(full, afterSeq), Collected(live, afterSeq))
  {
    forall n ensures HasSeq(Collected(full, afterSeq), n) <==> HasSeq(Collected(live, afterSeq), n) {
      SequenceKept(full, live, c, afterSeq, n);
      HasIs(full, c, afterSeq, n);
      HasIs(live, c, afterSeq, n);
    }
  }

  lemma HasIs(segs: Segments, c: int, afterSeq: int, n: int)
    requires ValidKeys(segs) && afterSeq >= c
    ensures HasSeq(Collected(segs, afterSeq), n) <==> n > afterSeq && HoldsSequence(segs, c, n)
  {
    var all := Collected(segs, afterSeq);
    if HasSeq(all, n) {
      var i :| 0 <= i < |all| && all[i].Sequence() == n;
      GatheredIs(segs, afterSeq, all[i]);
      GatheredLater(segs, c, afterSeq, all[i]);
    }
    if n > afterSeq && HoldsSequence(segs, c, n) {
      var x :| Gathered(segs, c, x) && x.Sequence() == n;
      GatheredLater(segs, c, afterSeq, x);
      GatheredIs(segs, afterSeq, x);
      var i :| 0 <= i < |all| && all[i] == x;
    }
  }

  lemma SequenceKept(full: Segments, live: Segments, c: int, afterSeq: int, n: int)
    requires Thinned(full, live, c) && NoneMissed(full, live, c)
    ensures HoldsSequence(full, c, n) <==> HoldsSequence(live, c, n)
  {
    if HoldsSequence(full, c, n) {
      var x :| Gathered(full, c, x) && x.Sequence() == n;
      assert !Missed(full, live, c, x);
    }
    if HoldsSequence(live, c, n) {
      var x :| Gathered(live, c, x) && x.Sequence() == n;
      ThinnedGathersLess(full, live, c, x);
    }
  }

  /** Without a hole above afterSeq there is none above a later sequence. */
  lemma NoHolesLater(segs: Segments, c: int, afterSeq: int, later: int)
    requires ValidKeys(segs) && c <= afterSeq <= later && NoHoles(Collected(segs, afterSeq), afterSeq)
    ensures NoHoles(Collected(segs, later), later)
  {
    forall e, n | e in Collected(segs, later) && later < n <= e.Sequence() ensures HasSeq(Collected(segs, later), n) {
      GatheredIs(segs, later, e);
      GatheredLater(segs, afterSeq, later, e);
      GatheredIs(segs, afterSeq, e);
      HasIs(segs, c, afterSeq, n);
      HasIs(segs, c, later, n);
    }
  }

  lemma WinnerTops(segs: Segments, c: int, afterSeq: int, e: Entry)
    requires ValidKeys(segs) && afterSeq >= c
    ensures Winner(Collected(segs, afterSeq), e) <==> Tops(segs, c, e) && e.Sequence() > afterSeq
  {
    forall x ensures x in Collected(segs, afterSeq) <==> Gathered(segs, c, x) && afterSeq < x.Sequence() {
      GatheredIs(segs, afterSeq, x);
      GatheredLater(segs, c, afterSeq, x);
    }
  }

  lemma NotMissedKeepsWinners(full: Segments, live: Segments, c: int, afterSeq: int)
    requires Thinned(full, live, c) && afterSeq >= c && NoneMissed(full, live, c)
    requires NoHoles(Collected(full, afterSeq), afterSeq)
    ensures KeepsWinners(Collected(full, afterSeq), Collected(live, afterSeq))
  {
    SequencesSame(full, live, c, afterSeq);
    forall e | e in Collected(live, afterSeq) ensures e in Collected(full, afterSeq) {
      PartOf(full, live, c, afterSeq, e);
    }
    forall e | Winner(Collected(full, afterSeq), e) ensures e in Collected(live, afterSeq) {
      WinnerKept(full, live, c, afterSeq, e);
    }
  }

  lemma WinnerKept(full: Segments, live: Segments, c: int, afterSeq: int, e: Entry)
    requires Thinned(full, live, c) && afterSeq >= c && !Missed(full, live, c, e)
    requires NoHoles(Collected(full, afterSeq), afterSeq) && Winner(Collected(full, afterSeq), e)
    ensures e in Collected(live, afterSeq)
  {
    WinnerTops(full, c, afterSeq, e);
    TopKept(full, live, c, afterSeq, e);
    GatheredAlike(full, live, c, afterSeq, e);
  }

  lemma TopKept(full: Segments, live: Segments, c: int, afterSeq: int, e: Entry)
    requires ValidKeys(full) && c <= afterSeq < e.Sequence() && !Missed(full, live, c, e) && Tops(full, c, e)
    requires NoHoles(Collected(full, afterSeq), afterSeq)
    ensures !Lost(full, live, c, e)
  {
    NoHolesLater(full, c, afterSeq, e.Sequence() - 1);
  }

  lemma PartOf(full: Segments, live: Segments, c: int, afterSeq: int, e: Entry)
    requires Thinned(full, live, c) && afterSeq >= c && e in Collected(live, afterSeq)
    ensures e in Collected(full, afterSeq)
  {
    GatheredIs(live, afterSeq, e);
    GatheredLater(live, c, afterSeq, e);
    ThinnedGathersLess(full, live, c, e);
    GatheredLater(full, c, afterSeq, e);
    GatheredIs(full, afterSeq, e);
  }

  lemma AboveAfter(segs: Segments, afterSeq: int)
    requires ValidKeys(segs)
    ensures forall e :: e in Collected(segs, afterSeq) ==> e.Sequence() > afterSeq
  {
    forall e | e in Collected(segs, afterSeq) ensures e.Sequence() > afterSeq {
      GatheredIs(segs, afterSeq, e);
    }
  }

  /** With holes only the sequences matter. */
  lemma SameFailure(full: Segments, live: Segments, afterSeq: int, out: Outcome)
    requires ValidKeys(full) && ValidKeys(live) && SameSequences(Collected(full, afterSeq), Collected(live, afterSeq))
    requires !NoHoles(Collected(full, afterSeq), afterSeq) && Recovers(full, afterSeq, out)
    ensures Recovers(live, afterSeq, out)
  {
    var all, all' := Collected(full, afterSeq), Collected(live, afterSeq);
    var m: seq<Entry> :| IsMerge(all, m) && out == FirstGap(m, afterSeq, 0);
    AboveAfter(full, afterSeq);
    GapIffHole(all, m, afterSeq);
    var m' := MergeExists(all');
    MergesAlign(all, all', m, m', afterSeq);
  }

  lemma HolesSame(a: seq<Entry>, b: seq<Entry>, afterSeq: int)
    requires SameSequences(a, b) && NoHoles(a, afterSeq)
    ensures NoHoles(b, afterSeq)
  {
    forall e, n | e in b && afterSeq < n <= e.Sequence() ensures HasSeq(b, n) {
      assert HasSeq(b, e.Sequence()) by { var i :| 0 <= i < |b| && b[i] == e; }
      var i :| 0 <= i < |a| && a[i].Sequence() == e.Sequence();
      assert a[i] in a;
      assert HasSeq(a, n);
    }
  }

  lemma NotMissedRecoversSame(full: Segments, live: Segments, c: int, afterSeq: int, out: Outcome)
    requires Thinned(full, live, c) && afterSeq >= c && NoneMissed(full, live, c)
    ensures Recovers(full, afterSeq, out) <==> Recovers(live, afterSeq, out)
  {
    var all, all' := Collected(full, afterSeq), Collected(live, afterSeq);
    SequencesSame(full, live, c, afterSeq);
    if NoHoles(all, afterSeq) {
      NotMissedKeepsWinners(full, live, c, afterSeq);
      forall m ensures IsMerge(all, m) <==> IsMerge(all', m) {
        MergesSame(all, all', m);
      }
    } else {
      if NoHoles(all', afterSeq) { HolesSame(all', all, afterSeq); }
      if Recovers(full, afterSeq, out) { SameFailure(full, live, afterSeq, out); }
      if Recovers(live, afterSeq, out) { SameFailure(live, full, afterSeq, out); }
    }
  }

  // ------------------------------------------------------ when it is not the same

  lemma MergeStartsWith(all: seq<Entry>, afterSeq: int, e: Entry) returns (m: seq<Entry>)
    requires Winner(all, e) && e.Sequence() == afterSeq + 1 && forall x :: x in all ==> x.Sequence() > afterSeq
    ensures IsMerge(all, m) && m != [] && m[0] == e
  {
    var m0 := MergeExists(all);
    assert HasSeq(m0, e.Sequence());
    var i :| 0 <= i < |m0| && m0[i].Sequence() == e.Sequence();
    assert Winner(all, m0[0]);
    assert i == 0;
    m := m0[0 := e];
    ReplaceFirst(all, m0, e);
  }

  lemma ReplaceFirst(all: seq<Entry>, m: seq<Entry>, e: Entry)
    requires IsMerge(all, m) && m != [] && Winner(all, e) && m[0].Sequence() == e.Sequence()
    ensures IsMerge(all, m[0 := e])
  {
    var m' := m[0 := e];
    assert forall i :: 0 <= i < |m| ==> m'[i].Sequence() == m[i].Sequence();
    assert Ascending(m') by {
      forall i, j | 0 <= i < j < |m'| ensures m'[i].Sequence() < m'[j].Sequence() {
        assert m[i].Sequence() < m[j].Sequence();
      }
    }
    forall x | x in all ensures HasSeq(m', x.Sequence()) {
      assert HasSeq(m, x.Sequence());
      var j :| 0 <= j < |m| && m[j].Sequence() == x.Sequence();
      assert m'[j].Sequence() == x.Sequence();
    }
  }

  lemma GapAt(m: seq<Entry>, afterSeq: int)
    requires m != []
    ensures m[0].Sequence() == afterSeq + 1 ==>
              var out := FirstGap(m, afterSeq, 0); (out.Applied? ==> out.entries == m) && (out.Missing? ==> out.expected > afterSeq + 1)
    ensures m[0].Sequence() != afterSeq + 1 ==> FirstGap(m, afterSeq, 0) == Missing(afterSeq + 1, m[0].Sequence())
  {
    if m[0].Sequence() == afterSeq + 1 { GapLater(m, afterSeq, 1); }
  }

  lemma {:induction false} GapLater(m: seq<Entry>, afterSeq: int, i: nat)
    requires i <= |m|
    ensures var out := FirstGap(m, afterSeq, i);
            (out.Applied? ==> out.entries == m) && (out.Missing? ==> out.expected > afterSeq + i)
    decreases |m| - i
  {
    if i < |m| { GapLater(m, afterSeq, i + 1); }
  }

  /** Recovery from just below a missed entry changes. */
  lemma MissedChanges(full: Segments, live: Segments, c: int, e: Entry)
    requires Thinned(full, live, c) && Missed(full, live, c, e)
    ensures !SameRecovery(full, live, c)
  {
    var a := e.Sequence() - 1;
    GatheredLater(full, c, a, e);
    GatheredIs(full, a, e);
    AboveAfter(full, a);
    if HoldsSequence(live, c, e.Sequence()) {
      WinnerTops(full, c, a, e);
      var m := MergeStartsWith(Collected(full, a), a, e);
      GapIffHole(Collected(full, a), m, a);
      assert Recovers(full, a, Applied(m));
      LostNotFirst(live, c, a, e, m);
    } else {
      var m := MergeExists(Collected(full, a));
      StartsAtNext(Collected(full, a), a, e, m);
      assert Recovers(full, a, FirstGap(m, a, 0));
      GoneNotRecovered(live, c, a, m);
    }
  }

  lemma StartsAtNext(all: seq<Entry>, a: int, e: Entry, m: seq<Entry>)
    requires e in all && e.Sequence() == a + 1 && IsMerge(all, m) && forall x :: x in all ==> x.Sequence() > a
    ensures m != [] && m[0].Sequence() == a + 1
  {
    assert HasSeq(m, e.Sequence());
    var i :| 0 <= i < |m| && m[i].Sequence() == a + 1;
    assert Winner(all, m[0]);
  }

  lemma LostNotFirst(live: Segments, c: int, a: int, e: Entry, m: seq<Entry>)
    requires ValidKeys(live) && a >= c && !Gathered(live, c, e) && m != [] && m[0] == e
    ensures !Recovers(live, a, Applied(m))
  {
    if Recovers(live, a, Applied(m)) {
      var m': seq<Entry> :| IsMerge(Collected(live, a), m') && Applied(m) == FirstGap(m', a, 0);
      GapLater(m', a, 0);
      assert Winner(Collected(live, a), m'[0]);
      GatheredIs(live, a, e);
      GatheredLater(live, c, a, e);
      assert false;
    }
  }

  lemma GoneNotRecovered(live: Segments, c: int, a: int, m: seq<Entry>)
    requires ValidKeys(live) && a >= c && !HoldsSequence(live, c, a + 1) && m != [] && m[0].Sequence() == a + 1
    ensures !Recovers(live, a, FirstGap(m, a, 0))
  {
    forall m': seq<Entry> | IsMerge(Collected(live, a), m') ensures FirstGap(m', a, 0) != FirstGap(m, a, 0) {
      HasIs(live, c, a, a + 1);
      MergeHas(Collected(live, a), m', a + 1);
      OtherStart(m, m', a);
    }
  }

  lemma OtherStart(m: seq<Entry>, m': seq<Entry>, a: int)
    requires m != [] && m[0].Sequence() == a + 1 && !HasSeq(m', a + 1)
    ensures FirstGap(m', a, 0) != FirstGap(m, a, 0)
  {
    GapAt(m, a);
    if m' != [] {
      GapAt(m', a);
      assert m'[0].Sequence() != a + 1;
    }
  }

  /** From c on recovery is the same, success or failure, if and only if no missed
      entry is lost. */
  lemma SameRecoveryIff(full: Segments, live: Segments, c: int)
    requires Thinned(full, live, c)
    ensures SameRecovery(full, live, c) <==> NoneMissed(full, live, c)
  {
    if e :| Missed(full, live, c, e) {
      MissedChanges(full, live, c, e);
    } else {
      forall afterSeq, out | afterSeq >= c ensures Recovers(full, afterSeq, out) <==> Recovers(live, afterSeq, out) {
        NotMissedRecoversSame(full, live, c, afterSeq, out);
      }
    }
  }

  // ------------------------------------------------------------------ one collection

  /** From any listed segment that starts at or below c + 1, following deleted
      segments to the right reaches one that was kept. */
  lemma {:induction false} KeptFrom(before: Segments, c: int, after: Segments, j: nat)
    requires ValidKeys(before) && GcStep(before, c, after)
    requires j < |Listing(before)| && Listing(before)[j][1] <= c + 1
    ensures exists g :: g in after && |g| == 2 && g[0] >= Listing(before)[j][0] && g[1] <= c + 1
    decreases |Listing(before)| - j
  {
    var list := Listing(before);
    assert list[j] in before;
    if list[j] !in after {
      var i :| CoveredAt(list, c, i) && list[i] == list[j];
      SortedDistinct(list, i, j);
      assert Lex.Less(list[j], list[j + 1]);
      assert list[j + 1] in before;
      KeptFrom(before, c, after, j + 1);
    }
  }

  lemma SortedDistinct(list: seq<Lex.Key>, i: int, j: int)
    requires Lex.Sorted(list) && 0 <= i < |list| && 0 <= j < |list| && list[i] == list[j]
    ensures i == j
  {
    if i != j { Lex.LessIrreflexive(list[i]); }
  }

  lemma ListingIndex(segs: Segments, k: Lex.Key) returns (j: nat)
    requires k in segs
    ensures j < |Listing(segs)| && Listing(segs)[j] == k
  {
    j :| 0 <= j < |Listing(segs)| && Listing(segs)[j] == k;
  }

  lemma GcStepThins(segs: Segments, c: int, segs': Segments)
    requires ValidKeys(segs) && GcStep(segs, c, segs')
    ensures Thinned(segs, segs', c)
  {
    forall k | k in segs && k !in segs' ensures StandsIn(segs', k[0], c) {
      var list := Listing(segs);
      var i :| CoveredAt(list, c, i) && list[i] == k;
      assert list[i + 1] in segs && Lex.Less(list[i], list[i + 1]);
      KeptFrom(segs, c, segs', i + 1);
    }
  }

  /** A collection leaves every recovery from its checkpoint on as it was, if and only
      if it deletes no entry that recovery would miss. */
  lemma GcPreservesRecoveryIff(segs: Segments, checkpointSeq: int, segs': Segments)
    requires ValidKeys(segs) && GcStep(segs, checkpointSeq, segs')
    ensures SameRecovery(segs, segs', checkpointSeq) <==> NoneMissed(segs, segs', checkpointSeq)
    ensures (forall a :: a >= checkpointSeq ==> SameGather(segs, segs', a)) <==> forall e :: !Lost(segs, segs', checkpointSeq, e)
  {
    GcStepThins(segs, checkpointSeq, segs');
    SameRecoveryIff(segs, segs', checkpointSeq);
    SameGatherIff(segs, segs', checkpointSeq);
  }

  /** What is lost was in a deleted segment, not superseded there, and in no kept
      segment where it is not. */
  lemma LostMeans(segs: Segments, c: int, segs': Segments, e: Entry)
    requires ValidKeys(segs) && GcStep(segs, c, segs')
    ensures Lost(segs, segs', c, e) <==>
            && (exists k :: k in segs && k !in segs' && FromSegment(segs, k, segs.Keys, c, e))
            && (forall k :: k in segs' ==> !FromSegment(segs, k, segs.Keys, c, e))
  {
    GcStepThins(segs, c, segs');
    forall k | k in segs' ensures FromSegment(segs', k, segs'.Keys, c, e) <==> FromSegment(segs, k, segs.Keys, c, e) {
      if e.Sequence() > c { JudgedAlike(segs, segs', c, k[0], e.Sequence()); }
    }
  }

  /** Losing a sequence changes recovery. */
  lemma GoneChanges(segs: Segments, c: int, segs': Segments, e: Entry)
    requires Thinned(segs, segs', c) && Gathered(segs, c, e) && !HoldsSequence(segs', c, e.Sequence())
    ensures !SameRecovery(segs, segs', c)
  {
    assert Lost(segs, segs', c, e);
    MissedChanges(segs, segs', c, e);
  }

  // ------------------------------------------------------------- packed segments

  /** A segment holds no sequence at or beyond the first of a later segment of
      its own term, as the rotation of one WAL writes them. */
  ghost predicate WellPacked(segs: Segments) {
    forall k, k', e :: k in segs && k' in segs && |k| == 2 && |k'| == 2 && k[0] == k'[0] && k[1] < k'[1] && e in segs[k]
      ==> e.Sequence() < k'[1]
  }

  /** Everything above c is still there, or superseded by a kept segment. */
  ghost predicate Safe(full: Segments, live: Segments, c: int) {
    && Thinned(full, live, c)
    && forall k, e :: k in full && e in full[k] && e.Sequence() > c ==> (k in live && e in live[k]) || StandsIn(live, k[0] + 1, c)
  }

  lemma SafeLosesNothing(full: Segments, live: Segments, c: int, e: Entry)
    requires Safe(full, live, c)
    ensures !Lost(full, live, c, e)
  {
    if k :| k in full && FromSegment(full, k, full.Keys, c, e) {
      assert !StandsIn(live, k[0] + 1, c);
      JudgedAlike(full, live, c, k[0], e.Sequence());
      assert FromSegment(live, k, live.Keys, c, e);
    }
  }

  lemma StandInKept(live: Segments, c: int, live': Segments, term: int)
    requires ValidKeys(live) && GcStep(live, c, live') && StandsIn(live, term, c)
    ensures StandsIn(live', term, c)
  {
    var g :| g in live && |g| == 2 && g[0] >= term && g[1] <= c + 1;
    var j := ListingIndex(live, g);
    KeptFrom(live, c, live', j);
  }

  lemma GcKeepsThinned(full: Segments, live: Segments, c: int, live': Segments)
    requires Thinned(full, live, c) && GcStep(live, c, live')
    ensures Thinned(full, live', c)
  {
    GcStepThins(live, c, live');
    forall k | k in full && k !in live' ensures StandsIn(live', k[0], c) {
      if k !in live { StandInKept(live, c, live', k[0]); }
    }
  }

  lemma PackedPart(full: Segments, live: Segments)
    requires WellPacked(full) && live.Keys <= full.Keys && forall k, e :: k in live && e in live[k] ==> e in full[k]
    ensures WellPacked(live)
  {
  }

  /** What a packed segment holds above c is superseded when the segment is deleted. */
  lemma DeletedIsSuperseded(live: Segments, c: int, live': Segments, k: Lex.Key, e: Entry)
    requires ValidKeys(live) && WellPacked(live) && GcStep(live, c, live')
    requires k in live && k !in live' && e in live[k] && e.Sequence() > c
    ensures StandsIn(live', k[0] + 1, c)
  {
    var list := Listing(live);
    var i :| CoveredAt(list, c, i) && list[i] == k;
    var next := list[i + 1];
    assert next in live && Lex.Less(k, next);
    Lex.LessPair(k, next);
    assert next[0] > k[0];
    KeptFrom(live, c, live', i + 1);
  }

  lemma GcKeepsSafe(full: Segments, live: Segments, c: int, live': Segments)
    requires Safe(full, live, c) && WellPacked(full) && GcStep(live, c, live')
    ensures Safe(full, live', c)
  {
    GcKeepsThinned(full, live, c, live');
    PackedPart(full, live);
    forall k, e | k in full && e in full[k] && e.Sequence() > c
      ensures (k in live' && e in live'[k]) || StandsIn(live', k[0] + 1, c)
    {
      if k in live && e in live[k] {
        if k !in live' { DeletedIsSuperseded(live, c, live', k, e); }
      } else {
        StandInKept(live, c, live', k[0] + 1);
      }
    }
  }

  lemma SafeRecoversSame(full: Segments, live: Segments, c: int)
    requires Safe(full, live, c)
    ensures SameRecovery(full, live, c)
  {
    forall e ensures !Missed(full, live, c, e) {
      SafeLosesNothing(full, live, c, e);
    }
    SameRecoveryIff(full, live, c);
  }

  /** One collection of packed segments never changes recovery. */
  lemma GcPreservesRecovery(segs: Segments, checkpointSeq: int, segs': Segments)
    requires ValidKeys(segs) && WellPacked(segs) && GcStep(segs, checkpointSeq, segs')
    ensures SameRecovery(segs, segs', checkpointSeq)
  {
    GcKeepsSafe(segs, segs, checkpointSeq, segs');
    SafeRecoversSame(segs, segs', checkpointSeq);
  }

  // -------------------------------------------------- any run of an archive

  /** Everything ever uploaded, the archive as it is, and the highest checkpoint any
      collection so far has used. */
  datatype History = History(full: Segments, live: Segments, checkpoint: int)

  function EverUnder(full: Segments, k: Lex.Key): (es: seq<Entry>) {
    if k in full then full[k] else []
  }

  /** Somebody uploads a segment under a key that is not listed: a leader its own, or
      a promoted follower what it has, of any term and any range, possibly again after
      it was collected. */
  ghost predicate Uploaded(s: History, s': History, k: Lex.Key, entries: seq<Entry>) {
    && |k| == 2 && k !in s.live
    && s' == History(s.full[k := EverUnder(s.full, k) + entries], s.live[k := entries], s.checkpoint)
  }

  ghost predicate Pruned(s: History, s': History, checkpointSeq: int) {
    && s'.full == s.full
    && GcStep(s.live, checkpointSeq, s'.live)
    && s'.checkpoint == if checkpointSeq > s.checkpoint then checkpointSeq else s.checkpoint
  }

  ghost predicate HistoryNext(s: History, s': History) {
    (exists k, entries :: Uploaded(s, s', k, entries)) || (exists c :: Pruned(s, s', c))
  }

  ghost predicate HistoryRun(run: seq<History>) {
    && run != []
    && run[0].full == map[] && run[0].live == map[]
    && forall i :: 0 <= i < |run| - 1 ==> HistoryNext(run[i], run[i + 1])
  }

  lemma StandsInMore(live: Segments, live': Segments, term: int, c: int, c': int)
    requires StandsIn(live, term, c) && live.Keys <= live'.Keys && c <= c'
    ensures StandsIn(live', term, c')
  {
    var g :| g in live && |g| == 2 && g[0] >= term && g[1] <= c + 1;
    assert g in live';
  }

  lemma ThinnedLater(full: Segments, live: Segments, c: int, c': int)
    requires Thinned(full, live, c) && c <= c'
    ensures Thinned(full, live, c')
  {
    forall k | k in full && k !in live ensures StandsIn(live, k[0], c') {
      StandsInMore(live, live, k[0], c, c');
    }
  }

  lemma SafeLater(full: Segments, live: Segments, c: int, c': int)
    requires Safe(full, live, c) && c <= c'
    ensures Safe(full, live, c')
  {
    ThinnedLater(full, live, c, c');
    forall k, e | k in full && e in full[k] && e.Sequence() > c'
      ensures (k in live && e in live[k]) || StandsIn(live, k[0] + 1, c')
    {
      if !(k in live && e in live[k]) { StandsInMore(live, live, k[0] + 1, c, c'); }
    }
  }

  lemma GcStepLater(before: Segments, c: int, c': int, after: Segments)
    requires GcStep(before, c, after) && c <= c'
    ensures GcStep(before, c', after)
  {
    forall k | k in before && k !in after ensures Deletable(Listing(before), c', k) {
      var i :| CoveredAt(Listing(before), c, i) && Listing(before)[i] == k;
      assert CoveredAt(Listing(before), c', i);
    }
  }

  lemma UploadKeepsThinned(s: History, s': History, k: Lex.Key, entries: seq<Entry>)
    requires Uploaded(s, s', k, entries) && Thinned(s.full, s.live, s.checkpoint)
    ensures Thinned(s'.full, s'.live, s'.checkpoint)
  {
    forall x | x in s'.full && x !in s'.live ensures StandsIn(s'.live, x[0], s'.checkpoint) {
      StandsInMore(s.live, s'.live, x[0], s.checkpoint, s.checkpoint);
    }
  }

  lemma UploadKeepsSafe(s: History, s': History, k: Lex.Key, entries: seq<Entry>)
    requires Uploaded(s, s', k, entries) && Safe(s.full, s.live, s.checkpoint)
    ensures Safe(s'.full, s'.live, s'.checkpoint)
  {
    UploadKeepsThinned(s, s', k, entries);
    var c := s.checkpoint;
    forall x, e | x in s'.full && e in s'.full[x] && e.Sequence() > c
      ensures (x in s'.live && e in s'.live[x]) || StandsIn(s'.live, x[0] + 1, c)
    {
      if !(x in s'.live && e in s'.live[x]) {
        assert x in s.full && e in s.full[x];
        StandsInMore(s.live, s'.live, x[0] + 1, c, c);
      }
    }
  }

  lemma StepThinned(s: History, s': History)
    requires HistoryNext(s, s') && Thinned(s.full, s.live, s.checkpoint)
    ensures Thinned(s'.full, s'.live, s'.checkpoint)
  {
    if k, entries :| Uploaded(s, s', k, entries) {
      UploadKeepsThinned(s, s', k, entries);
    } else {
      var c :| Pruned(s, s', c);
      ThinnedLater(s.full, s.live, s.checkpoint, s'.checkpoint);
      GcStepLater(s.live, c, s'.checkpoint, s'.live);
      GcKeepsThinned(s.full, s.live, s'.checkpoint, s'.live);
    }
  }

  lemma StepSafe(s: History, s': History)
    requires HistoryNext(s, s') && WellPacked(s.full) && Safe(s.full, s.live, s.checkpoint)
    ensures Safe(s'.full, s'.live, s'.checkpoint)
  {
    if k, entries :| Uploaded(s, s', k, entries) {
      UploadKeepsSafe(s, s', k, entries);
    } else {
      var c :| Pruned(s, s', c);
      SafeLater(s.full, s.live, s.checkpoint, s'.checkpoint);
      GcStepLater(s.live, c, s'.checkpoint, s'.live);
      GcKeepsSafe(s.full, s.live, s'.checkpoint, s'.live);
    }
  }

  lemma {:induction false} RunThinned(run: seq<History>, n: nat)
    requires HistoryRun(run) && n < |run|
    ensures Thinned(run[n].full, run[n].live, run[n].checkpoint)
  {
    if n > 0 {
      RunThinned(run, n - 1);
      StepThinned(run[n - 1], run[n]);
    }
  }

  lemma StepPacked(s: History, s': History)
    requires HistoryNext(s, s') && WellPacked(s'.full)
    ensures WellPacked(s.full)
  {
    PackedPart(s'.full, s.full);
  }

  lemma {:induction false} RunSafe(run: seq<History>, n: nat)
    requires HistoryRun(run) && n < |run| && WellPacked(run[n].full)
    ensures Safe(run[n].full, run[n].live, run[n].checkpoint)
  {
    if n > 0 {
      StepPacked(run[n - 1], run[n]);
      RunSafe(run, n - 1);
      StepSafe(run[n - 1], run[n]);
    }
  }

  /** After any run of uploads and collections, recovery from the highest checkpoint
      used or later is what it would be from everything ever uploaded, if and only if
      no entry was lost that recovery would miss. */
  lemma RunRecoversIff(run: seq<History>, n: nat)
    requires HistoryRun(run) && n < |run|
    ensures ValidKeys(run[n].full) && ValidKeys(run[n].live)
    ensures SameRecovery(run[n].full, run[n].live, run[n].checkpoint) <==>
            NoneMissed(run[n].full, run[n].live, run[n].checkpoint)
  {
    RunThinned(run, n);
    SameRecoveryIff(run[n].full, run[n].live, run[n].checkpoint);
  }

  /** It is the same when what was uploaded is packed. */
  lemma GcNeverChangesRecovery(run: seq<History>, n: nat)
    requires HistoryRun(run) && n < |run| && WellPacked(run[n].full)
    ensures ValidKeys(run[n].full) && ValidKeys(run[n].live)
    ensures SameRecovery(run[n].full, run[n].live, run[n].checkpoint)
  {
    RunSafe(run, n);
    SafeRecoversSame(run[n].full, run[n].live, run[n].checkpoint);
  }

  // --------------------------------------------------------------- overlapping uploads

  /** Three segments of one term that overlap, and what a collection at 2 keeps. */
  function Overlapping(a: seq<Entry>, b: seq<Entry>, d: seq<Entry>): (segs: Segments) {
    map[[2, 1] := a, [2, 2] := b, [2, 3] := d]
  }

  lemma ListOverlapping(a: seq<Entry>, b: seq<Entry>, d: seq<Entry>)
    ensures Listing(Overlapping(a, b, d)) == [[2, 1], [2, 2], [2, 3]]
  {
    var l: seq<Lex.Key> := [[2, 1], [2, 2], [2, 3]];
    var keys := Overlapping(a, b, d).Keys;
    assert forall k :: k in l <==> k in keys;
    Lex.LessPair([2, 1], [2, 2]);
    Lex.LessPair([2, 2], [2, 3]);
    Lex.LessPair([2, 1], [2, 3]);
    assert Lex.Sorted(l);
    Lex.SortedUnique(l, Listing(Overlapping(a, b, d)));
  }

  lemma OverlapCollects(a: seq<Entry>, b: seq<Entry>, d: seq<Entry>)
    ensures GcStep(Overlapping(a, b, d), 2, map[[2, 3] := d])
  {
    ListOverlapping(a, b, d);
    var l := Listing(Overlapping(a, b, d));
    assert CoveredAt(l, 2, 0) && CoveredAt(l, 2, 1);
  }

  lemma MiddleGathered(a: seq<Entry>, b: seq<Entry>, d: seq<Entry>)
    requires |b| == 3 && Consecutive(b, 2)
    ensures Gathered(Overlapping(a, b, d), 2, b[2]) && b[2].Sequence() == 4
  {
    var segs := Overlapping(a, b, d);
    assert segs[[2, 2]] == b;
    assert FromSegment(segs, [2, 2], segs.Keys, 2, b[2]);
  }

  lemma KeptHoldsThree(d: seq<Entry>, live: Segments)
    requires |d| == 1 && Consecutive(d, 3) && live == map[[2, 3] := d]
    ensures !HoldsSequence(live, 2, 4)
  {
    forall x | Gathered(live, 2, x) ensures x.Sequence() == 3 {
      var k :| k in live && FromSegment(live, k, live.Keys, 2, x);
    }
  }

  lemma OverlapThinned(a: seq<Entry>, b: seq<Entry>, d: seq<Entry>, live: Segments)
    requires live == map[[2, 3] := d]
    ensures Thinned(Overlapping(a, b, d), live, 2)
  {
    assert [2, 3] in live;
    assert StandsIn(live, 2, 2);
  }

  /** A collection at 2 loses an entry of the middle one for every recovery from 2 on. */
  lemma OverlapLoses(segs: Segments, live: Segments, b: seq<Entry>)
    requires |b| == 3 && Consecutive(b, 2)
    requires Thinned(segs, live, 2) && Gathered(segs, 2, b[2]) && !HoldsSequence(live, 2, 4)
    ensures ValidKeys(segs) && !SameRecovery(segs, live, 2)
  {
    GoneChanges(segs, 2, live, b[2]);
  }

  /** Three uploads and that collection. */
  function OverlapRun(a: seq<Entry>, b: seq<Entry>, d: seq<Entry>): (run: seq<History>) {
    [History(map[], map[], 0),
     History(map[[2, 1] := a], map[[2, 1] := a], 0),
     History(map[[2, 1] := a, [2, 2] := b], map[[2, 1] := a, [2, 2] := b], 0),
     History(Overlapping(a, b, d), Overlapping(a, b, d), 0),
     History(Overlapping(a, b, d), map[[2, 3] := d], 2)]
  }

  lemma FreshUpload(full: Segments, k: Lex.Key, entries: seq<Entry>)
    requires |k| == 2 && k !in full
    ensures HistoryNext(History(full, full, 0), History(full[k := entries], full[k := entries], 0))
  {
    assert [] + entries == entries;
    assert Uploaded(History(full, full, 0), History(full[k := entries], full[k := entries], 0), k, entries);
  }

  lemma OverlapRuns(a: seq<Entry>, b: seq<Entry>, d: seq<Entry>)
    ensures HistoryRun(OverlapRun(a, b, d))
  {
    var run := OverlapRun(a, b, d);
    FreshUpload(map[], [2, 1], a);
    FreshUpload(map[[2, 1] := a], [2, 2], b);
    FreshUpload(map[[2, 1] := a, [2, 2] := b], [2, 3], d);
    OverlapCollects(a, b, d);
    assert HistoryNext(run[0], run[1]) && HistoryNext(run[1], run[2]) && HistoryNext(run[2], run[3]);
    assert Pruned(run[3], run[4], 2);
  }

  /** So recovery after such a run is not what it was, when a node has uploaded
      segments of its own that overlap a leader's of the same term. */
  lemma OverlapChangesRecovery(a: seq<Entry>, b: seq<Entry>, d: seq<Entry>)
    requires |a| == 2 && Consecutive(a, 1) && |b| == 3 && Consecutive(b, 2) && |d| == 1 && Consecutive(d, 3)
    ensures var run := OverlapRun(a, b, d);
            && HistoryRun(run) && ValidKeys(run[4].full) && ValidKeys(run[4].live)
            && !SameRecovery(run[4].full, run[4].live, run[4].checkpoint)
  {
    OverlapRuns(a, b, d);
    var live: Segments := map[[2, 3] := d];
    OverlapThinned(a, b, d, live);
    MiddleGathered(a, b, d);
    KeptHoldsThree(d, live);
    OverlapLoses(Overlapping(a, b, d), live, b);
  }
}

/** The archived write-ahead log: replay merge after leader changes, and
    garbage collection of segments covered by a checkpoint. */
module WalArchive {
  import Lex
  import opened Entries

  const MAX_INT64: int := 0x7fff_ffff_ffff_ffff

  /** Segment objects by key [term, firstSeq]; the listing order of the object
      keys is the lexicographic order of these pairs. */
  type Segments = map<Lex.Key, seq<Entry>>

  ghost predicate ValidKeys(segs: Segments) {
    forall k :: k in segs ==> |k| == 2
  }

  function ToSet(keys: seq<Lex.Key>): (s: set<Lex.Key>) {
    set k | k in keys
  }

  function Listing(segs: Segments): (keys: seq<Lex.Key>) {
    Lex.SortedKeys(segs.Keys)
  }

  // ------------------------------------------------------------ term cutoffs

  /** No segment of a higher term starts at or below seqno. */
  ghost predicate Unsuperseded(keys: set<Lex.Key>, term: int, seqno: int) {
    forall k :: k in keys && |k| == 2 && k[0] > term ==> seqno < k[1]
  }

  /** cutoff is the least first sequence of any segment of a higher term, or MAX_INT64. */
  ghost predicate IsCutoff(keys: set<Lex.Key>, term: int, cutoff: int) {
    && (forall k :: k in keys && |k| == 2 && k[0] > term ==> cutoff <= k[1])
    && cutoff <= MAX_INT64
    && (cutoff == MAX_INT64 || exists k :: k in keys && |k| == 2 && k[0] > term && k[1] == cutoff)
  }

  /** minFirst maps every term of keys to its least first sequence. */
  ghost predicate IsMinFirst(keys: seq<Lex.Key>, minFirst: map<int, int>)
    requires forall k :: k in keys ==> |k| == 2
  {
    && (forall k :: k in keys ==> k[0] in minFirst && minFirst[k[0]] <= k[1])
    && (forall t :: t in minFirst ==> [t, minFirst[t]] in keys)
  }

  method MinFirst(keys: seq<Lex.Key>) returns (minFirst: map<int, int>)
    requires forall k :: k in keys ==> |k| == 2
    ensures IsMinFirst(keys, minFirst)
  {
    minFirst := map[];
    for i := 0 to |keys|
      invariant IsMinFirst(keys[..i], minFirst)
    {
      var term, first := keys[i][0], keys[i][1];
      assert keys[..i + 1] == keys[..i] + [keys[i]] && keys[i] == [term, first];
      if term !in minFirst || first < minFirst[term] {
        minFirst := minFirst[term := first];
      }
    }
    assert keys[..|keys|] == keys;
  }

  method CutoffFor(minFirst: map<int, int>, term: int) returns (c: int)
    ensures c <= MAX_INT64
    ensures forall t :: t in minFirst && t > term ==> c <= minFirst[t]
    ensures c == MAX_INT64 || exists t :: t in minFirst && t > term && minFirst[t] == c
  {
    c := MAX_INT64;
    var rest := minFirst.Keys;
    while rest != {}
      invariant rest <= minFirst.Keys && c <= MAX_INT64
      invariant forall t :: t in minFirst.Keys - rest && t > term ==> c <= minFirst[t]
      invariant c == MAX_INT64 || exists t :: t in minFirst && t > term && minFirst[t] == c
      decreases rest
    {
      var t := Pick(rest);
      if t > term && minFirst[t] < c {
        c := minFirst[t];
      }
      rest := rest - {t};
    }
  }

  method TermCutoffs(keys: seq<Lex.Key>) returns (cutoff: map<int, int>)
    requires forall k :: k in keys ==> |k| == 2
    ensures forall k :: k in keys ==> k[0] in cutoff
    ensures forall t :: t in cutoff ==> IsCutoff(ToSet(keys), t, cutoff[t])
  {
    var minFirst := MinFirst(keys);
    cutoff := map[];
    var todo := minFirst.Keys;
    while todo != {}
      invariant todo <= minFirst.Keys && cutoff.Keys == minFirst.Keys - todo
      invariant forall t :: t in cutoff ==> IsCutoff(ToSet(keys), t, cutoff[t])
      decreases todo
    {
      var term := Pick(todo);
      var c := CutoffFor(minFirst, term);
      if c != MAX_INT64 {
        ghost var t :| t in minFirst && t > term && minFirst[t] == c;
        assert [t, c] in ToSet(keys);
      }
      assert IsCutoff(ToSet(keys), term, c);
      cutoff := cutoff[term := c];
      todo := todo - {term};
    }
  }

  lemma CutoffMeaning(keys: set<Lex.Key>, term: int, cutoff: int, seqno: int)
    requires IsCutoff(keys, term, cutoff)
    ensures seqno < cutoff <==> seqno < MAX_INT64 && Unsuperseded(keys, term, seqno)
  {
  }

  // -------------------------------------------------- collecting the entries

  /** An entry of a segment of the given term survives the replay filter. */
  ghost predicate Passes(keys: set<Lex.Key>, term: int, afterSeq: int, e: Entry) {
    afterSeq < e.Sequence() < MAX_INT64 && Unsuperseded(keys, term, e.Sequence())
  }

  /** The entries of one segment that survive, in order. */
  ghost function PassingOf(keys: set<Lex.Key>, term: int, afterSeq: int, es: seq<Entry>): (r: seq<Entry>) {
    if es == [] then []
    else
      var rest := PassingOf(keys, term, afterSeq, es[..|es| - 1]);
      if Passes(keys, term, afterSeq, es[|es| - 1]) then rest + [es[|es| - 1]] else rest
  }

  /** The surviving entries of the listed segments; superseding is judged against keys. */
  ghost function Gather(segs: Segments, list: seq<Lex.Key>, keys: set<Lex.Key>, afterSeq: int): (r: seq<Entry>)
    requires forall k :: k in list ==> k in segs && |k| == 2
  {
    if list == [] then []
    else
      var k := list[|list| - 1];
      Gather(segs, list[..|list| - 1], keys, afterSeq) + PassingOf(keys, k[0], afterSeq, segs[k])
  }

  ghost function Collected(segs: Segments, afterSeq: int): (r: seq<Entry>)
    requires ValidKeys(segs)
  {
    Gather(segs, Listing(segs), segs.Keys, afterSeq)
  }

  method CollectSegment(ghost keys: set<Lex.Key>, term: int, termCutoff: int, afterSeq: int, entries: seq<Entry>)
    returns (kept: seq<Entry>)
    requires IsCutoff(keys, term, termCutoff)
    ensures kept == PassingOf(keys, term, afterSeq, entries)
  {
    kept := [];
    for j := 0 to |entries|
      invariant kept == PassingOf(keys, term, afterSeq, entries[..j])
    {
      assert entries[..j + 1][..j] == entries[..j];
      var e := entries[j];
      CutoffMeaning(keys, term, termCutoff, e.Sequence());
      if e.Sequence() <= afterSeq || e.Sequence() >= termCutoff {
        continue;
      }
      kept := kept + [e];
    }
    assert entries[..|entries|] == entries;
  }

  method CollectListed(segs: Segments, keys: seq<Lex.Key>, afterSeq: int) returns (all: seq<Entry>)
    requires forall k :: k in keys ==> k in segs && |k| == 2
    ensures all == Gather(segs, keys, ToSet(keys), afterSeq)
  {
    var cutoff := TermCutoffs(keys);
    ghost var against := ToSet(keys);
    all := [];
    for i := 0 to |keys|
      invariant all == Gather(segs, keys[..i], against, afterSeq)
    {
      var key := keys[i];
      var kept := CollectSegment(against, key[0], cutoff[key[0]], afterSeq, segs[key]);
      GatherMore(segs, keys, i, against, afterSeq);
      all := all + kept;
    }
    assert keys[..|keys|] == keys;
  }

  lemma GatherMore(segs: Segments, keys: seq<Lex.Key>, i: nat, against: set<Lex.Key>, afterSeq: int)
    requires i < |keys| && forall k :: k in keys ==> k in segs && |k| == 2
    ensures Gather(segs, keys[..i + 1], against, afterSeq) ==
            Gather(segs, keys[..i], against, afterSeq) + PassingOf(against, keys[i][0], afterSeq, segs[keys[i]])
  {
    assert keys[..i + 1][..i] == keys[..i];
  }

  method Collect(segs: Segments, afterSeq: int) returns (all: seq<Entry>)
    requires ValidKeys(segs)
    ensures all == Collected(segs, afterSeq)
  {
    var keys := Listing(segs);
    all := CollectListed(segs, keys, afterSeq);
    assert ToSet(keys) == segs.Keys;
  }

  // --------------------------------------------------------- sort and dedupe

  predicate InOrder(x: Entry, y: Entry) {
    x.Sequence() < y.Sequence() || (x.Sequence() == y.Sequence() && x.term <= y.term)
  }

  predicate Ordered(s: seq<Entry>) {
    forall i, j :: 0 <= i < j < |s| ==> InOrder(s[i], s[j])
  }

  function InsertEntry(e: Entry, s: seq<Entry>): (r: seq<Entry>)
    ensures multiset(r) == multiset(s) + multiset{e}
  {
    if s == [] || InOrder(e, s[0]) then [e] + s
    else
      assert s == [s[0]] + s[1..];
      [s[0]] + InsertEntry(e, s[1..])
  }

  lemma {:induction false} InsertOrdered(e: Entry, s: seq<Entry>)
    requires Ordered(s)
    ensures Ordered(InsertEntry(e, s))
  {
    if s != [] && !InOrder(e, s[0]) {
      InsertOrdered(e, s[1..]);
      var rest := InsertEntry(e, s[1..]);
      forall i | 0 <= i < |rest| ensures InOrder(s[0], rest[i]) {
        assert rest[i] in multiset(rest);
        assert rest[i] == e || rest[i] in s[1..];
      }
    }
  }

  /** One admissible outcome of the library sort. */
  function SortEntries(s: seq<Entry>): (r: seq<Entry>)
    ensures Ordered(r) && multiset(r) == multiset(s)
  {
    if s == [] then [] else
      assert s == [s[0]] + s[1..];
      InsertOrdered(s[0], SortEntries(s[1..]));
      InsertEntry(s[0], SortEntries(s[1..]))
  }

  /** m has the highest term of all entries at its sequence. */
  ghost predicate Winner(all: seq<Entry>, m: Entry) {
    m in all && forall e :: e in all && e.Sequence() == m.Sequence() ==> e.term <= m.term
  }

  ghost predicate HasSeq(s: seq<Entry>, n: int) {
    exists i :: 0 <= i < |s| && s[i].Sequence() == n
  }

  predicate Ascending(s: seq<Entry>) {
    forall i, j :: 0 <= i < j < |s| ==> s[i].Sequence() < s[j].Sequence()
  }

  /** merged holds exactly one entry per sequence present in all, in ascending
      order, and that entry has the highest term found at its sequence. */
  ghost predicate IsMerge(all: seq<Entry>, merged: seq<Entry>) {
    && Ascending(merged)
    && (forall i :: 0 <= i < |merged| ==> Winner(all, merged[i]))
    && (forall e :: e in all ==> HasSeq(merged, e.Sequence()))
  }

  /** The effect of the dedupe loop on the entries seen so far. */
  function Dedupe(all: seq<Entry>): (merged: seq<Entry>)
    ensures all != [] ==> merged != []
  {
    if all == [] then [] else
      var e := all[|all| - 1];
      var done := Dedupe(all[..|all| - 1]);
      var n := |done|;
      if n > 0 && done[n - 1].Sequence() == e.Sequence() then
        if e.term >= done[n - 1].term then done[n - 1 := e] else done
      else done + [e]
  }

  method DedupeSorted(all: seq<Entry>) returns (merged: seq<Entry>)
    ensures merged == Dedupe(all)
  {
    merged := [];
    for i := 0 to |all|
      invariant merged == Dedupe(all[..i])
    {
      var e := all[i];
      assert all[..i + 1][..i] == all[..i];
      var n := |merged|;
      if n > 0 && merged[n - 1].Sequence() == e.Sequence() {
        if e.term >= merged[n - 1].term {
          merged := merged[n - 1 := e];
        }
        continue;
      }
      merged := merged + [e];
    }
    assert all[..|all|] == all;
  }

  ghost predicate SameLast(all: seq<Entry>, merged: seq<Entry>) {
    all != [] ==> merged != [] && merged[|merged| - 1].Sequence() == all[|all| - 1].Sequence()
  }

  /** e comes after everything in init, strictly so when the last sequences differ. */
  lemma LastInOrder(init: seq<Entry>, e: Entry)
    requires Ordered(init + [e])
    ensures Ordered(init)
    ensures forall i :: 0 <= i < |init| ==> InOrder(init[i], e)
    ensures init != [] && init[|init| - 1].Sequence() != e.Sequence() ==>
              forall i :: 0 <= i < |init| ==> init[i].Sequence() < e.Sequence()
  {
    var all := init + [e];
    forall i, j | 0 <= i < j < |init| ensures InOrder(init[i], init[j]) {
      assert InOrder(all[i], all[j]);
    }
    forall i | 0 <= i < |init| ensures InOrder(init[i], e) {
      assert InOrder(all[i], all[|init|]);
    }
  }

  lemma DedupeExtend(init: seq<Entry>, e: Entry)
    requires Ordered(init + [e])
    requires IsMerge(init, Dedupe(init)) && SameLast(init, Dedupe(init))
    ensures IsMerge(init + [e], Dedupe(init + [e])) && SameLast(init + [e], Dedupe(init + [e]))
  {
    var all, done := init + [e], Dedupe(init);
    LastInOrder(init, e);
    assert all[..|all| - 1] == init && all[|all| - 1] == e;
    if |done| > 0 && done[|done| - 1].Sequence() == e.Sequence() {
      MergeReplace(init, done, e);
      assert Dedupe(all) == done[|done| - 1 := e];
    } else {
      MergeAppend(init, done, e);
      assert Dedupe(all) == done + [e];
    }
  }

  lemma {:induction false} DedupeIsMerge(all: seq<Entry>)
    requires Ordered(all)
    ensures IsMerge(all, Dedupe(all)) && SameLast(all, Dedupe(all))
  {
    if all != [] {
      var init, e := all[..|all| - 1], all[|all| - 1];
      assert all == init + [e];
      LastInOrder(init, e);
      DedupeIsMerge(init);
      DedupeExtend(init, e);
    }
  }

  lemma HasSeqAppend(s: seq<Entry>, e: Entry, n: int)
    ensures HasSeq(s, n) || n == e.Sequence() ==> HasSeq(s + [e], n)
  {
    if HasSeq(s, n) {
      var i :| 0 <= i < |s| && s[i].Sequence() == n;
      assert (s + [e])[i].Sequence() == n;
    } else if n == e.Sequence() {
      assert (s + [e])[|s|].Sequence() == n;
    }
  }

  lemma MergeAppend(init: seq<Entry>, done: seq<Entry>, e: Entry)
    requires IsMerge(init, done)
    requires forall i :: 0 <= i < |init| ==> init[i].Sequence() < e.Sequence()
    ensures IsMerge(init + [e], done + [e])
  {
    forall x | x in init + [e] ensures HasSeq(done + [e], x.Sequence()) {
      HasSeqAppend(done, e, x.Sequence());
    }
    forall i | 0 <= i < |done| ensures Winner(init + [e], (done + [e])[i]) {
      assert Winner(init, done[i]);
    }
  }

  lemma MergeReplace(init: seq<Entry>, done: seq<Entry>, e: Entry)
    requires IsMerge(init, done)
    requires forall i :: 0 <= i < |init| ==> InOrder(init[i], e)
    requires |done| > 0 && done[|done| - 1].Sequence() == e.Sequence()
    ensures done[|done| - 1].term <= e.term
    ensures IsMerge(init + [e], done[|done| - 1 := e])
  {
    var n := |done|;
    var merged := done[n - 1 := e];
    assert Winner(init, done[n - 1]);
    forall x | x in init + [e] ensures HasSeq(merged, x.Sequence()) {
      if x in init && x.Sequence() != e.Sequence() {
        var i :| 0 <= i < |done| && done[i].Sequence() == x.Sequence();
        assert merged[i] == done[i];
      } else {
        assert merged[n - 1] == e;
      }
    }
    forall i | 0 <= i < n ensures Winner(init + [e], merged[i]) {
      if i < n - 1 {
        assert Winner(init, done[i]) && done[i].Sequence() < done[n - 1].Sequence();
      }
    }
  }

  // ------------------------------------------------------------------ replay

  /** What replayRemote does to the database: recover these entries, or refuse. */
  datatype Outcome = Applied(entries: seq<Entry>) | Missing(expected: int, got: int)

  function FirstGap(merged: seq<Entry>, afterSeq: int, i: nat): (out: Outcome)
    requires i <= |merged|
    decreases |merged| - i
  {
    if i == |merged| then Applied(merged)
    else if merged[i].Sequence() != afterSeq + 1 + i then Missing(afterSeq + 1 + i, merged[i].Sequence())
    else FirstGap(merged, afterSeq, i + 1)
  }

  /** out is a possible outcome of replaying the archive; the sort may order
      entries of equal sequence and term either way. */
  ghost predicate Recovers(segs: Segments, afterSeq: int, out: Outcome)
    requires ValidKeys(segs)
  {
    exists merged :: IsMerge(Collected(segs, afterSeq), merged) && out == FirstGap(merged, afterSeq, 0)
  }

  lemma MergeSameMembers(a: seq<Entry>, b: seq<Entry>, merged: seq<Entry>)
    requires IsMerge(a, merged) && multiset(a) == multiset(b)
    ensures IsMerge(b, merged)
  {
    assert forall x :: x in b ==> x in multiset(b);
    assert forall x :: x in a ==> x in multiset(a);
    forall i | 0 <= i < |merged| ensures Winner(b, merged[i]) {
      assert Winner(a, merged[i]);
    }
  }

  method ReplayRemote(segs: Segments, afterSeq: int) returns (out: Outcome)
    requires ValidKeys(segs)
    ensures Recovers(segs, afterSeq, out)
  {
    var all := Collect(segs, afterSeq);
    var merged := DedupeSorted(SortEntries(all));
    DedupeIsMerge(SortEntries(all));
    MergeSameMembers(SortEntries(all), all, merged);
    for i := 0 to |merged|
      invariant FirstGap(merged, afterSeq, 0) == FirstGap(merged, afterSeq, i)
    {
      if merged[i].Sequence() != afterSeq + 1 + i {
        return Missing(afterSeq + 1 + i, merged[i].Sequence());
      }
    }
    return Applied(merged);
  }

  // ------------------------------------------- one winner per sequence, no holes

  lemma {:induction false} PassingMembers(keys: set<Lex.Key>, term: int, afterSeq: int, es: seq<Entry>, e: Entry)
    ensures e in PassingOf(keys, term, afterSeq, es) <==> e in es && Passes(keys, term, afterSeq, e)
  {
    if es != [] {
      PassingMembers(keys, term, afterSeq, es[..|es| - 1], e);
      assert es == es[..|es| - 1] + [es[|es| - 1]];
    }
  }

  ghost predicate FromSegment(segs: Segments, k: Lex.Key, keys: set<Lex.Key>, afterSeq: int, e: Entry) {
    k in segs && |k| == 2 && e in segs[k] && Passes(keys, k[0], afterSeq, e)
  }

  lemma {:induction false} GatherMembers(segs: Segments, list: seq<Lex.Key>, keys: set<Lex.Key>, afterSeq: int, e: Entry)
    requires forall k :: k in list ==> k in segs && |k| == 2
    ensures e in Gather(segs, list, keys, afterSeq) <==> exists k :: k in list && FromSegment(segs, k, keys, afterSeq, e)
  {
    if list != [] {
      var init, k := list[..|list| - 1], list[|list| - 1];
      assert list == init + [k];
      GatherMembers(segs, init, keys, afterSeq, e);
      PassingMembers(keys, k[0], afterSeq, segs[k], e);
      if FromSegment(segs, k, keys, afterSeq, e) {
        assert k in list;
      }
      if e in Gather(segs, init, keys, afterSeq) {
        var k' :| k' in init && FromSegment(segs, k', keys, afterSeq, e);
        assert k' in list;
      }
    }
  }

  /** Every segment holds only sequences at or above its first. */
  ghost predicate StartsAtFirst(segs: Segments) {
    forall k, e :: k in segs && |k| == 2 && e in segs[k] ==> k[1] <= e.Sequence()
  }

  /** term is the highest term with a segment that starts at or below n. */
  ghost predicate HighestTermAt(keys: set<Lex.Key>, term: int, n: int) {
    && (exists k :: k in keys && |k| == 2 && k[0] == term && k[1] <= n)
    && (forall k :: k in keys && |k| == 2 && k[1] <= n ==> k[0] <= term)
  }

  /** The entries taken are exactly those above afterSeq whose segment's term is
      the highest term having a segment that starts at or below their sequence. */
  lemma CollectedIffHighestTerm(segs: Segments, afterSeq: int, e: Entry)
    requires ValidKeys(segs) && StartsAtFirst(segs)
    ensures e in Collected(segs, afterSeq) <==>
            afterSeq < e.Sequence() < MAX_INT64 &&
            exists k :: k in segs && e in segs[k] && HighestTermAt(segs.Keys, k[0], e.Sequence())
  {
    GatherMembers(segs, Listing(segs), segs.Keys, afterSeq, e);
    if e in Collected(segs, afterSeq) {
      var k :| k in Listing(segs) && FromSegment(segs, k, segs.Keys, afterSeq, e);
      assert HighestTermAt(segs.Keys, k[0], e.Sequence());
    }
    if afterSeq < e.Sequence() < MAX_INT64 {
      forall k | k in segs && e in segs[k] && HighestTermAt(segs.Keys, k[0], e.Sequence())
        ensures e in Collected(segs, afterSeq)
      {
        assert FromSegment(segs, k, segs.Keys, afterSeq, e);
      }
    }
  }

  /** Every sequence between afterSeq and a collected one is collected too. */
  ghost predicate NoHoles(all: seq<Entry>, afterSeq: int) {
    forall e, n :: e in all && afterSeq < n <= e.Sequence() ==> HasSeq(all, n)
  }

  /** The merge counts up from afterSeq + 1 before j, but not at j. */
  ghost predicate Breaks(merged: seq<Entry>, afterSeq: int, j: int) {
    && 0 <= j < |merged| && merged[j].Sequence() != afterSeq + 1 + j
    && forall i :: 0 <= i < j ==> merged[i].Sequence() == afterSeq + 1 + i
  }

  lemma {:induction false} FirstGapMeaning(merged: seq<Entry>, afterSeq: int, i: nat)
    requires i <= |merged|
    requires forall j :: 0 <= j < i ==> merged[j].Sequence() == afterSeq + 1 + j
    ensures var out := FirstGap(merged, afterSeq, i);
            && (out.Applied? <==> forall j :: 0 <= j < |merged| ==> merged[j].Sequence() == afterSeq + 1 + j)
            && (out.Applied? ==> out.entries == merged)
            && (out.Missing? ==> exists j :: i <= j < |merged| && Breaks(merged, afterSeq, j) && out == Missing(afterSeq + 1 + j, merged[j].Sequence()))
    decreases |merged| - i
  {
    if i < |merged| && merged[i].Sequence() == afterSeq + 1 + i {
      FirstGapMeaning(merged, afterSeq, i + 1);
    } else if i < |merged| {
      assert Breaks(merged, afterSeq, i);
    }
  }

  /** With no holes, position i of the merge is sequence afterSeq + 1 + i. */
  lemma {:induction false} NoHolesPosition(all: seq<Entry>, merged: seq<Entry>, afterSeq: int, i: nat)
    requires IsMerge(all, merged) && NoHoles(all, afterSeq) && i < |merged|
    requires forall e :: e in all ==> e.Sequence() > afterSeq
    ensures merged[i].Sequence() == afterSeq + 1 + i
  {
    if i > 0 { NoHolesPosition(all, merged, afterSeq, i - 1); }
    assert Winner(all, merged[i]);
    var n := afterSeq + 1 + i;
    assert i > 0 ==> merged[i - 1].Sequence() < merged[i].Sequence();
    assert HasSeq(all, n);
    var x :| 0 <= x < |all| && all[x].Sequence() == n;
    assert HasSeq(merged, all[x].Sequence());
    assert forall j :: 0 <= j < i ==> merged[j].Sequence() <= merged[i - 1].Sequence();
    assert forall j :: i < j < |merged| ==> merged[i].Sequence() < merged[j].Sequence();
    var j :| 0 <= j < |merged| && merged[j].Sequence() == n;
  }

  lemma ContiguousHasNoHoles(all: seq<Entry>, merged: seq<Entry>, afterSeq: int)
    requires IsMerge(all, merged)
    requires forall i :: 0 <= i < |merged| ==> merged[i].Sequence() == afterSeq + 1 + i
    ensures NoHoles(all, afterSeq)
  {
    forall e, n | e in all && afterSeq < n <= e.Sequence() ensures HasSeq(all, n) {
      assert HasSeq(merged, e.Sequence());
      var j :| 0 <= j < |merged| && merged[j].Sequence() == e.Sequence();
      var m := merged[n - afterSeq - 1];
      assert Winner(all, m);
      var x :| 0 <= x < |all| && all[x] == m;
    }
  }

  lemma GapIffHole(all: seq<Entry>, merged: seq<Entry>, afterSeq: int)
    requires IsMerge(all, merged) && forall e :: e in all ==> e.Sequence() > afterSeq
    ensures var out := FirstGap(merged, afterSeq, 0);
            && (out.Applied? <==> NoHoles(all, afterSeq))
            && (out.Applied? ==> out.entries == merged)
            && (out.Applied? ==> forall i :: 0 <= i < |merged| ==> merged[i].Sequence() == afterSeq + 1 + i)
  {
    FirstGapMeaning(merged, afterSeq, 0);
    if NoHoles(all, afterSeq) {
      forall i | 0 <= i < |merged| ensures merged[i].Sequence() == afterSeq + 1 + i {
        NoHolesPosition(all, merged, afterSeq, i);
      }
    }
    if FirstGap(merged, afterSeq, 0).Applied? {
      ContiguousHasNoHoles(all, merged, afterSeq);
    }
  }

  /** Replay succeeds exactly when there is no hole, and then recovers the
      sequences afterSeq+1, afterSeq+2, ... once each, each from the winning entry. */
  lemma ReplaySucceedsIffNoHoles(segs: Segments, afterSeq: int, out: Outcome)
    requires ValidKeys(segs) && Recovers(segs, afterSeq, out)
    ensures out.Applied? <==> NoHoles(Collected(segs, afterSeq), afterSeq)
    ensures out.Applied? ==> IsMerge(Collected(segs, afterSeq), out.entries)
    ensures out.Applied? ==>
              forall i :: 0 <= i < |out.entries| ==> out.entries[i].Sequence() == afterSeq + 1 + i
  {
    var all := Collected(segs, afterSeq);
    var merged: seq<Entry> :| IsMerge(all, merged) && out == FirstGap(merged, afterSeq, 0);
    forall e | e in all ensures e.Sequence() > afterSeq {
      GatherMembers(segs, Listing(segs), segs.Keys, afterSeq, e);
    }
    GapIffHole(all, merged, afterSeq);
  }

  lemma BreakIsFirstHole(all: seq<Entry>, merged: seq<Entry>, afterSeq: int, j: int)
    requires IsMerge(all, merged) && Breaks(merged, afterSeq, j) && forall e :: e in all ==> e.Sequence() > afterSeq
    ensures var expected, got := afterSeq + 1 + j, merged[j].Sequence();
            && (forall n :: afterSeq < n < expected ==> HasSeq(all, n)) && HasSeq(all, got) && expected < got
            && (forall n :: expected <= n < got ==> !HasSeq(all, n))
  {
    var expected, got := afterSeq + 1 + j, merged[j].Sequence();
    forall i | 0 <= i < |merged| ensures merged[i] in all { assert Winner(all, merged[i]); }
    if j == 0 { assert merged[0] in all; } else { assert merged[j - 1].Sequence() == afterSeq + j; }
    forall n | afterSeq < n < expected ensures HasSeq(all, n) { assert merged[n - afterSeq - 1].Sequence() == n; }
    forall i | 0 <= i < |merged| ensures merged[i].Sequence() < expected || merged[i].Sequence() >= got {
      if i > j { assert merged[j].Sequence() < merged[i].Sequence(); }
    }
    forall n | expected <= n < got ensures !HasSeq(all, n) { assert HasSeq(all, n) ==> HasSeq(merged, n); }
  }

  lemma RefusalOf(all: seq<Entry>, merged: seq<Entry>, afterSeq: int, out: Outcome)
    requires IsMerge(all, merged) && out == FirstGap(merged, afterSeq, 0) && out.Missing?
    requires forall e :: e in all ==> e.Sequence() > afterSeq
    ensures (forall n :: afterSeq < n < out.expected ==> HasSeq(all, n)) && HasSeq(all, out.got) && out.expected < out.got
    ensures forall n :: out.expected <= n < out.got ==> !HasSeq(all, n)
  {
    FirstGapMeaning(merged, afterSeq, 0);
    var j :| 0 <= j < |merged| && Breaks(merged, afterSeq, j) && out == Missing(afterSeq + 1 + j, merged[j].Sequence());
    BreakIsFirstHole(all, merged, afterSeq, j);
  }

  /** A refusal names the first sequence that is missing, and the one found in its
      place, which is the next one there is. */
  lemma RefusalNamesFirstHole(segs: Segments, afterSeq: int, out: Outcome)
    requires ValidKeys(segs) && Recovers(segs, afterSeq, out) && out.Missing?
    ensures var all := Collected(segs, afterSeq);
            && (forall n :: afterSeq < n < out.expected ==> HasSeq(all, n)) && HasSeq(all, out.got) && out.expected < out.got
            && (forall n :: out.expected <= n < out.got ==> !HasSeq(all, n))
  {
    var all := Collected(segs, afterSeq);
    var merged: seq<Entry> :| IsMerge(all, merged) && out == FirstGap(merged, afterSeq, 0);
    forall e | e in all ensures e.Sequence() > afterSeq {
      GatherMembers(segs, Listing(segs), segs.Keys, afterSeq, e);
    }
    RefusalOf(all, merged, afterSeq, out);
  }

  /** When equal sequence and term mean equal entries, the outcome is unique. */
  lemma ReplayDeterministic(segs: Segments, afterSeq: int, out1: Outcome, out2: Outcome)
    requires ValidKeys(segs) && Recovers(segs, afterSeq, out1) && Recovers(segs, afterSeq, out2)
    requires var all := Collected(segs, afterSeq);
             forall x, y :: x in all && y in all && x.Sequence() == y.Sequence() && x.term == y.term ==> x == y
    ensures out1 == out2
  {
    var all := Collected(segs, afterSeq);
    var m1: seq<Entry> :| IsMerge(all, m1) && out1 == FirstGap(m1, afterSeq, 0);
    var m2: seq<Entry> :| IsMerge(all, m2) && out2 == FirstGap(m2, afterSeq, 0);
    MergeUnique(all, m1, m2);
  }

  lemma MergeUnique(all: seq<Entry>, m1: seq<Entry>, m2: seq<Entry>)
    requires IsMerge(all, m1) && IsMerge(all, m2)
    requires forall x, y :: x in all && y in all && x.Sequence() == y.Sequence() && x.term == y.term ==> x == y
    ensures m1 == m2
  {
    forall i | 0 <= i < |m1| && i < |m2| ensures m1[i] == m2[i] {
      MergeAgree(all, m1, m2, i);
    }
    if |m1| < |m2| {
      MergeLonger(all, m1, m2);
    } else if |m2| < |m1| {
      MergeLonger(all, m2, m1);
    }
  }

  lemma MergeLonger(all: seq<Entry>, m1: seq<Entry>, m2: seq<Entry>)
    requires IsMerge(all, m1) && IsMerge(all, m2)
    requires forall i :: 0 <= i < |m1| && i < |m2| ==> m1[i] == m2[i]
    ensures |m2| <= |m1|
  {
    if m2 != [] {
      var i := |m2| - 1;
      assert Winner(all, m2[i]) && HasSeq(m1, m2[i].Sequence());
      var j :| 0 <= j < |m1| && m1[j].Sequence() == m2[i].Sequence();
    }
  }

  lemma {:induction false} MergeAgree(all: seq<Entry>, m1: seq<Entry>, m2: seq<Entry>, i: nat)
    requires IsMerge(all, m1) && IsMerge(all, m2) && i < |m1| && i < |m2|
    requires forall x, y :: x in all && y in all && x.Sequence() == y.Sequence() && x.term == y.term ==> x == y
    ensures m1[i] == m2[i]
    decreases i
  {
    forall j | 0 <= j < i ensures m1[j] == m2[j] {
      MergeAgree(all, m1, m2, j);
    }
    MergeNotAfter(all, m1, m2, i);
    MergeNotAfter(all, m2, m1, i);
    assert Winner(all, m1[i]) && Winner(all, m2[i]);
  }

  lemma MergeNotAfter(all: seq<Entry>, m1: seq<Entry>, m2: seq<Entry>, i: nat)
    requires IsMerge(all, m1) && IsMerge(all, m2) && i < |m1| && i < |m2|
    requires forall j :: 0 <= j < i ==> m1[j] == m2[j]
    ensures m1[i].Sequence() <= m2[i].Sequence()
  {
    assert Winner(all, m2[i]);
    assert HasSeq(m1, m2[i].Sequence());
    FoundNotBefore(m1, m2, i);
  }

  lemma FoundNotBefore(m1: seq<Entry>, m2: seq<Entry>, i: nat)
    requires Ascending(m1) && Ascending(m2) && i < |m1| && i < |m2| && HasSeq(m1, m2[i].Sequence())
    requires forall j :: 0 <= j < i ==> m1[j] == m2[j]
    ensures m1[i].Sequence() <= m2[i].Sequence()
  {
    var j :| 0 <= j < |m1| && m1[j].Sequence() == m2[i].Sequence();
    assert forall k :: 0 <= k < i ==> m1[k].Sequence() < m2[i].Sequence();
    assert i <= j;
  }

  // ------------------------------------------------------ garbage collection

  ghost predicate CoveredAt(list: seq<Lex.Key>, checkpointSeq: int, i: int) {
    0 <= i < |list| - 1 && |list[i + 1]| == 2 && list[i + 1][1] - 1 <= checkpointSeq
  }

  /** The keys GCSegments selects: the next listed segment starts at or below checkpointSeq + 1. */
  ghost predicate Deletable(list: seq<Lex.Key>, checkpointSeq: int, k: Lex.Key) {
    exists i :: CoveredAt(list, checkpointSeq, i) && list[i] == k
  }

  /** after is before without some of the selected segments.  DeleteMany may
      fail part way, so any subset of the selection may be gone. */
  ghost predicate GcStep(before: Segments, checkpointSeq: int, after: Segments) {
    && after.Keys <= before.Keys
    && (forall k :: k in after ==> after[k] == before[k])
    && (forall k :: k in before && k !in after ==> Deletable(Listing(before), checkpointSeq, k))
  }

  class Archive {
    var segs: Segments

    constructor (initial: Segments)
      ensures segs == initial
    {
      segs := initial;
    }

    /** A successful GCSegments run. */
    method GcSegments(checkpointSeq: int) returns (deleted: nat)
      requires ValidKeys(segs)
      modifies this
      ensures GcStep(old(segs), checkpointSeq, segs)
      ensures forall k :: k in old(segs) && Deletable(Listing(old(segs)), checkpointSeq, k) ==> k !in segs
      ensures deleted == |old(segs)| - |segs|
    {
      var keys := Listing(segs);
      if |keys| < 2 {
        return 0;
      }
      var toDelete := SelectDeletable(keys, checkpointSeq);
      if toDelete == [] {
        return 0;
      }
      ghost var was := segs;
      segs := segs - ToSet(toDelete);
      deleted := |toDelete|;
      DistinctCount(toDelete);
      assert segs.Keys == was.Keys - ToSet(toDelete);
    }
  }

  lemma {:induction false} DistinctCount(s: seq<Lex.Key>)
    requires Lex.Sorted(s)
    ensures |ToSet(s)| == |s|
  {
    if s != [] {
      var init, last := s[..|s| - 1], s[|s| - 1];
      DistinctCount(init);
      if last in init {
        Lex.LessIrreflexive(last);
      }
      assert ToSet(s) == ToSet(init) + {last};
    }
  }

  /** The covered ones among the first n keys. */
  function Chosen(keys: seq<Lex.Key>, checkpointSeq: int, n: nat): (r: seq<Lex.Key>)
    requires n < |keys| && forall i :: 0 <= i < |keys| ==> |keys[i]| == 2
  {
    if n == 0 then []
    else Chosen(keys, checkpointSeq, n - 1) + if keys[n][1] - 1 <= checkpointSeq then [keys[n - 1]] else []
  }

  lemma {:induction false} ChosenIs(keys: seq<Lex.Key>, checkpointSeq: int, n: nat, k: Lex.Key)
    requires n < |keys| && forall i :: 0 <= i < |keys| ==> |keys[i]| == 2
    ensures k in Chosen(keys, checkpointSeq, n) <==> exists i :: 0 <= i < n && CoveredAt(keys, checkpointSeq, i) && keys[i] == k
  {
    if n > 0 {
      ChosenIs(keys, checkpointSeq, n - 1, k);
      assert CoveredAt(keys, checkpointSeq, n - 1) <==> keys[n][1] - 1 <= checkpointSeq;
    }
  }

  lemma {:induction false} ChosenSorted(keys: seq<Lex.Key>, checkpointSeq: int, n: nat)
    requires n < |keys| && Lex.Sorted(keys) && forall i :: 0 <= i < |keys| ==> |keys[i]| == 2
    ensures Lex.Sorted(Chosen(keys, checkpointSeq, n))
  {
    if n > 0 {
      var done := Chosen(keys, checkpointSeq, n - 1);
      ChosenSorted(keys, checkpointSeq, n - 1);
      forall j | 0 <= j < |done| ensures Lex.Less(done[j], keys[n - 1]) {
        assert done[j] in done;
        ChosenIs(keys, checkpointSeq, n - 1, done[j]);
      }
    }
  }

  method SelectDeletable(keys: seq<Lex.Key>, checkpointSeq: int) returns (toDelete: seq<Lex.Key>)
    requires |keys| >= 2 && Lex.Sorted(keys) && forall i :: 0 <= i < |keys| ==> |keys[i]| == 2
    ensures Lex.Sorted(toDelete)
    ensures forall k :: k in toDelete <==> Deletable(keys, checkpointSeq, k)
  {
    var firsts := [];
    for i := 0 to |keys|
      invariant |firsts| == i && forall j :: 0 <= j < i ==> firsts[j] == keys[j][1]
    {
      firsts := firsts + [keys[i][1]];
    }
    toDelete := [];
    for i := 0 to |keys| - 1
      invariant toDelete == Chosen(keys, checkpointSeq, i)
    {
      if firsts[i + 1] - 1 <= checkpointSeq {
        toDelete := toDelete + [keys[i]];
      }
    }
    ChosenSorted(keys, checkpointSeq, |keys| - 1);
    forall k ensures k in toDelete <==> Deletable(keys, checkpointSeq, k) {
      ChosenIs(keys, checkpointSeq, |keys| - 1, k);
    }
  }
}

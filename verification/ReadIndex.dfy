/** A read after asking the leader for its last assigned revision and waiting
    until that revision has been applied. */
module ReadIndex {
  import opened Entries
  import opened Mvcc
  import opened Serial
  import opened Pipeline
  import Batching

  /** A log that has reached a revision has every entry up to it. */
  lemma ReachedHasAll(es: seq<Entry>, later: seq<Entry>, i: nat)
    requires ValidLog(es + later) && i < |es + later| && IsData((es + later)[i]) && (es + later)[i].revision <= CurrentRev(es)
    ensures i < |es|
  {
    if i >= |es| {
      RevisionsBelow(es, later, i - |es|);
    }
  }

  lemma AssignedBelow(p: Pipe, i: nat)
    requires Inv(p) && i < |Hist(p)| && IsData(Hist(p)[i])
    ensures Hist(p)[i].revision <= p.nextRev
  {
    assert [] + Hist(p) == Hist(p);
    RevisionsBelow([], Hist(p), i);
  }

  /** The leader answers nextRev and its log grows to whole. A prefix of that log
      which has reached the answer holds every data entry assigned before it and
      tells the same state at every revision up to it. */
  lemma ReachedIsCurrent(p: Pipe, whole: seq<Entry>, followed: seq<Entry>)
    requires Inv(p) && ValidLog(whole) && Hist(p) <= whole && followed <= whole && CurrentRev(followed) >= p.nextRev
    ensures forall i :: 0 <= i < |Hist(p)| && IsData(Hist(p)[i]) ==> i < |followed| && followed[i] == Hist(p)[i]
    ensures forall rev :: rev <= p.nextRev ==> ViewAt(followed, rev) == ViewAt(whole, rev)
  {
    assert whole == followed + whole[|followed|..];
    forall i | 0 <= i < |Hist(p)| && IsData(Hist(p)[i]) ensures i < |followed| && followed[i] == Hist(p)[i] {
      AssignedBelow(p, i);
      ReachedHasAll(followed, whole[|followed|..], i);
    }
    forall rev | rev <= p.nextRev ensures ViewAt(followed, rev) == ViewAt(whole, rev) {
      Batching.LaterEntriesInvisible(followed, whole[|followed|..], rev);
    }
  }
}

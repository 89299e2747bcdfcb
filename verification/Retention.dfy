/** Which checkpoints and SSTs a collection leaves, counted from the newest, and what
    restoring a checkpoint gives back. */
module Retention {
  import Lex
  import opened Entries
  import opened Checkpoint

  /** The checkpoints after k. */
  function Newer(b: Bucket, k: Lex.Key): (r: set<Lex.Key>) {
    set x | x in b.indexes && Lex.Less(k, x)
  }

  /** One of the newest keep, where less than one counts as one, or pinned. */
  predicate Protected(b: Bucket, keep: int, k: Lex.Key) {
    |Newer(b, k)| < (if keep > 1 then keep else 1) || Pinned(b, k)
  }

  lemma {:induction false} SortedSize(s: seq<Lex.Key>)
    requires Lex.Sorted(s)
    ensures |set x | x in s| == |s|
  {
    if s == [] {
      assert (set x | x in s) == {};
    } else {
      var init, e := s[..|s| - 1], s[|s| - 1];
      SortedSize(init);
      forall i | 0 <= i < |init| ensures init[i] != e {
        assert Lex.Less(s[i], e);
        Lex.LessIrreflexive(e);
      }
      assert (set x | x in s) == (set x | x in init) + {e};
    }
  }

  lemma NewerAt(b: Bucket, i: nat)
    requires i < |Listing(b)|
    ensures |Newer(b, Listing(b)[i])| == |Listing(b)| - 1 - i
  {
    var l := Listing(b);
    var tail := l[i + 1..];
    forall x ensures x in Newer(b, l[i]) <==> x in tail {
      TailIff(l, i, x);
    }
    assert Newer(b, l[i]) == set x | x in tail;
    SortedSize(tail);
  }

  lemma TailIff(l: seq<Lex.Key>, i: nat, x: Lex.Key)
    requires Lex.Sorted(l) && i < |l|
    ensures x in l[i + 1..] <==> x in l && Lex.Less(l[i], x)
  {
    var tail := l[i + 1..];
    if x in l && Lex.Less(l[i], x) {
      var j :| 0 <= j < |l| && l[j] == x;
      AfterIff(l, i, j);
      assert tail[j - i - 1] == x;
    }
    if x in tail {
      var j :| 0 <= j < |tail| && tail[j] == x;
      assert l[i + 1 + j] == x;
    }
  }

  lemma AfterIff(l: seq<Lex.Key>, i: nat, j: nat)
    requires Lex.Sorted(l) && i < |l| && j < |l|
    ensures Lex.Less(l[i], l[j]) <==> i < j
    ensures l[i] == l[j] <==> i == j
  {
    Lex.LessIrreflexive(l[i]);
    if j < i { Lex.LessAsymmetric(l[j], l[i]); }
  }

  lemma OlderIff(b: Bucket, keep: int, k: Lex.Key)
    requires k in b.indexes
    ensures k in Older(b, keep) <==> |Newer(b, k)| >= if keep > 1 then keep else 1
  {
    var l := Listing(b);
    assert k in l;
    var i :| 0 <= i < |l| && l[i] == k;
    NewerAt(b, i);
    if k in Older(b, keep) {
      var j :| 0 <= j < |Older(b, keep)| && Older(b, keep)[j] == k;
      AfterIff(l, i, j);
    }
    assert i < |Older(b, keep)| ==> Older(b, keep)[i] == k;
  }

  /** A collection leaves exactly the newest keep checkpoints, the pinned ones and the
      manifest's, each as it was. */
  lemma CollectKeepsIff(b: Bucket, keep: int, k: Lex.Key)
    ensures k in Collect(b, keep).indexes <==> k in b.indexes && (Protected(b, keep, k) || b.manifest == Some(k))
    ensures k in Collect(b, keep).indexes ==> Collect(b, keep).indexes[k] == b.indexes[k]
  {
    if k in b.indexes { OlderIff(b, keep, k); }
  }

  lemma KeptAre(b: Bucket, keep: int)
    ensures forall k :: k in Collect(b, keep).indexes <==> k in b.indexes && (Protected(b, keep, k) || b.manifest == Some(k))
  {
    forall k ensures k in Collect(b, keep).indexes <==> k in b.indexes && (Protected(b, keep, k) || b.manifest == Some(k)) {
      CollectKeepsIff(b, keep, k);
    }
  }

  /** So at least keep checkpoints are left, if there were as many. */
  lemma AtLeastKeep(b: Bucket, keep: int)
    ensures |Collect(b, keep).indexes| >= if |b.indexes| < keep then |b.indexes| else keep
  {
    var l, n := Listing(b), if |b.indexes| < keep then |b.indexes| else keep;
    if n > 0 {
      var tail := l[|l| - n..];
      var kept := Collect(b, keep).indexes;
      forall x | x in tail ensures x in kept {
        var j :| 0 <= j < |tail| && tail[j] == x;
        NewestKept(b, keep, |l| - n + j);
      }
      SortedSize(tail);
      Within((set x | x in tail), kept.Keys);
      assert |kept| == |kept.Keys|;
    }
  }

  lemma NewestKept(b: Bucket, keep: int, i: nat)
    requires i < |Listing(b)| && |Listing(b)| - 1 - i < keep
    ensures Listing(b)[i] in Collect(b, keep).indexes
  {
    NewerAt(b, i);
    assert Listing(b)[i] in Listing(b);
    CollectKeepsIff(b, keep, Listing(b)[i]);
  }

  lemma Within(a: set<Lex.Key>, b: set<Lex.Key>)
    requires a <= b
    ensures |a| <= |b|
  {
    assert b == a + (b - a);
    assert |a + (b - a)| == |a| + |b - a|;
  }

  lemma DoomedIff(b: Bucket, keep: int, k: Lex.Key)
    requires k in b.indexes
    ensures Doomed(b, keep, k) <==> k !in Collect(b, keep).indexes
    ensures (k !in Older(b, keep) || Pinned(b, k)) <==> Protected(b, keep, k)
  {
    OlderIff(b, keep, k);
  }

  ghost predicate UsedBy(b: Bucket, k: Lex.Key, s: Sst) {
    k in b.indexes && s in b.indexes[k].ssts
  }

  lemma LiveIff(b: Bucket, keep: int, s: Sst)
    ensures Live(b, keep, s) <==> exists k :: UsedBy(b, k, s) && Protected(b, keep, k)
  {
    if Live(b, keep, s) {
      var k :| k in b.indexes && (k !in Older(b, keep) || Pinned(b, k)) && s in b.indexes[k].ssts;
      DoomedIff(b, keep, k);
      assert UsedBy(b, k, s);
    }
    if k :| UsedBy(b, k, s) && Protected(b, keep, k) { DoomedIff(b, keep, k); }
  }

  lemma OrphanIff(b: Bucket, keep: int, s: Sst)
    ensures Orphan(b, keep, s) <==> !Live(b, keep, s) && exists k :: UsedBy(b, k, s) && k !in Collect(b, keep).indexes
  {
    if Orphan(b, keep, s) {
      var k :| k in b.indexes && Doomed(b, keep, k) && s in b.indexes[k].ssts;
      DoomedIff(b, keep, k);
      assert UsedBy(b, k, s);
    }
    if k :| UsedBy(b, k, s) && k !in Collect(b, keep).indexes { DoomedIff(b, keep, k); }
  }

  /** An SST goes if and only if a deleted checkpoint used it and no protected one
      does. */
  lemma SstLeftIff(b: Bucket, keep: int, s: Sst)
    ensures s in Collect(b, keep).ssts <==>
            && s in b.ssts
            && ((exists k :: UsedBy(b, k, s) && k !in Collect(b, keep).indexes) ==>
                exists k :: UsedBy(b, k, s) && Protected(b, keep, k))
  {
    LiveIff(b, keep, s);
    OrphanIff(b, keep, s);
  }

  /** The newest keep checkpoints and the pinned ones stay restorable. */
  lemma ProtectedStaysRestorable(b: Bucket, ancestor: Option<set<Sst>>, keep: int, k: Lex.Key)
    requires AllRestorable(b, ancestor) && k in b.indexes && Protected(b, keep, k)
    ensures k in Collect(b, keep).indexes && Restorable(Collect(b, keep), ancestor, k)
  {
    OlderIff(b, keep, k);
    SafeStaysRestorable(b, ancestor, keep, k);
  }

  // --------------------------------------------------------------------- contents

  /** What restoring the checkpoint downloads. */
  function Restored(b: Bucket, k: Lex.Key): (files: set<File>)
    requires k in b.indexes
  {
    (set s | s in b.indexes[k].ssts + b.indexes[k].ancestors :: SstFile(s)) + (set m | m in b.indexes[k].metas :: MetaFile(m))
  }

  /** Restoring a checkpoint gives back the files it was written from, and writing one
      changes no other. */
  lemma WriteRestores(b: Bucket, ancestor: Option<set<Sst>>, key: Lex.Key, files: seq<File>, k: Lex.Key)
    ensures var b' := Write(b, ancestor, key, files);
            && key in b'.indexes && Restored(b', key) == (set f | f in files) && b'.manifest == Some(key)
            && (k != key ==> (k in b'.indexes <==> k in b.indexes))
            && (k != key && k in b.indexes ==> Restored(b', k) == Restored(b, k))
  {
    var b' := Write(b, ancestor, key, files);
    forall f ensures f in Restored(b', key) <==> f in files {
      match f
      case SstFile(s) => assert s in Ssts(files) <==> f in files;
      case MetaFile(m) => assert m in Metas(files) <==> f in files;
    }
  }

  /** An SST is taken as inherited if and only if the checkpoint of the manifest does not
      have it as its own and either inherits it, or inherits nothing while the ancestor
      store holds it; every other one is in this store afterwards. */
  lemma WriteAttributes(b: Bucket, ancestor: Option<set<Sst>>, key: Lex.Key, files: seq<File>, s: Sst)
    requires SstFile(s) in files
    ensures var b' := Write(b, ancestor, key, files);
            var last := if b.manifest.Some? && b.manifest.value in b.indexes then b.indexes[b.manifest.value] else Index({}, {}, {});
            && (s in b'.indexes[key].ancestors <==>
                  s !in last.ssts && (s in last.ancestors || (last.ancestors == {} && ancestor.Some? && s in ancestor.value)))
            && (s in b'.indexes[key].ssts <==> s !in b'.indexes[key].ancestors)
            && (s in b'.indexes[key].ssts && s !in last.ssts ==> s in b'.ssts)
  {
    assert s in Ssts(files);
  }

  ghost predicate WrittenBy(steps: seq<Step>, i: int, k: Lex.Key) {
    && 0 <= i < |steps| && steps[i].WriteCheckpoint? && steps[i].key == k
    && forall j :: i < j < |steps| && steps[j].WriteCheckpoint? ==> steps[j].key != k
  }

  lemma StepRestores(b: Bucket, ancestor: Option<set<Sst>>, step: Step, k: Lex.Key)
    requires k in Next(b, ancestor, step).indexes
    ensures var b' := Next(b, ancestor, step);
            if step.WriteCheckpoint? && step.key == k then Restored(b', k) == set f | f in step.files
            else k in b.indexes && Restored(b', k) == Restored(b, k)
  {
    if step.WriteCheckpoint? { WriteRestores(b, ancestor, step.key, step.files, k); }
  }

  lemma WrittenMore(steps: seq<Step>, i: int, k: Lex.Key)
    requires steps != [] && WrittenBy(steps[..|steps| - 1], i, k)
    requires !(steps[|steps| - 1].WriteCheckpoint? && steps[|steps| - 1].key == k)
    ensures WrittenBy(steps, i, k) && steps[i] == steps[..|steps| - 1][i]
  {
    var init := steps[..|steps| - 1];
    assert forall j :: 0 <= j < |init| ==> init[j] == steps[j];
  }

  /** In every run, whatever was written, pinned and collected since, a checkpoint in
      the store stands for the files of the last write under its key. */
  lemma {:induction false} RunRestores(ancestor: Option<set<Sst>>, steps: seq<Step>, k: Lex.Key) returns (i: int)
    requires k in After(NO_OBJECTS, ancestor, steps).indexes
    ensures WrittenBy(steps, i, k) && Restored(After(NO_OBJECTS, ancestor, steps), k) == set f | f in steps[i].files
  {
    var init, step := steps[..|steps| - 1], steps[|steps| - 1];
    StepRestores(After(NO_OBJECTS, ancestor, init), ancestor, step, k);
    if step.WriteCheckpoint? && step.key == k {
      i := |steps| - 1;
    } else {
      i := RunRestores(ancestor, init, k);
      WrittenMore(steps, i, k);
    }
  }
}

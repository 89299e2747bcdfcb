/** Checkpoints in object storage: content-addressed SST files shared between
    checkpoints, one index per checkpoint, and garbage collection of both. */
module Checkpoint {
  import Lex
  import opened Entries

  type Sst = nat
  type Meta = nat

  /** manifest.json of one checkpoint: SSTs in this store, SSTs in the ancestor
      store of a branch, and the Pebble metadata files beside the index. */
  datatype Index = Index(ssts: set<Sst>, ancestors: set<Sst>, metas: set<Meta>)

  /** The objects of one store; a checkpoint's key is [term, revision]. */
  datatype Bucket = Bucket(indexes: map<Lex.Key, Index>, metas: map<Lex.Key, set<Meta>>, ssts: set<Sst>,
                           manifest: Option<Lex.Key>, branches: map<nat, Lex.Key>)

  /** One file of a local Pebble checkpoint. */
  datatype File = SstFile(sst: Sst) | MetaFile(meta: Meta)

  // ------------------------------------------------------------------ writing

  /** knownSSTSets: what the checkpoint named by the manifest already refers to;
      the ancestor's own listing when that names none. */
  function KnownLocal(b: Bucket): (r: set<Sst>) {
    if b.manifest.Some? && b.manifest.value in b.indexes then b.indexes[b.manifest.value].ssts else {}
  }

  function KnownAncestor(b: Bucket, ancestor: Option<set<Sst>>): (r: set<Sst>) {
    var known := if b.manifest.Some? && b.manifest.value in b.indexes then b.indexes[b.manifest.value].ancestors else {};
    if ancestor.Some? && known == {} then ancestor.value else known
  }

  function Ssts(files: seq<File>): (r: set<Sst>) {
    set f | f in files && f.SstFile? :: f.sst
  }

  function Metas(files: seq<File>): (r: set<Meta>) {
    set f | f in files && f.MetaFile? :: f.meta
  }

  /** The SSTs the checkpoint refers to in this store. */
  function OwnSsts(files: seq<File>, local: set<Sst>, inherited: set<Sst>): (r: set<Sst>) {
    set s | s in Ssts(files) && (s in local || s !in inherited)
  }

  /** WriteAtSequence and writeIndex. */
  function Write(b: Bucket, ancestor: Option<set<Sst>>, key: Lex.Key, files: seq<File>): (b': Bucket) {
    var local, inherited := KnownLocal(b), KnownAncestor(b, ancestor);
    var own := OwnSsts(files, local, inherited);
    var kept := if key in b.metas then b.metas[key] else {};
    b.(indexes := b.indexes[key := Index(own, Ssts(files) - own, Metas(files))],
       metas := b.metas[key := kept + Metas(files)],
       ssts := b.ssts + (own - local),
       manifest := Some(key))
  }

  // -------------------------------------------------------------- collecting

  function Keep(keep: int): (k: nat) {
    if keep < 1 then 1 else keep
  }

  function Listing(b: Bucket): (keys: seq<Lex.Key>)
    ensures |keys| == |b.indexes|
  {
    assert |b.indexes.Keys| == |b.indexes|;
    Lex.SortedKeys(b.indexes.Keys)
  }

  /** The checkpoints outside the newest keep, oldest first. */
  function Older(b: Bucket, keep: int): (keys: seq<Lex.Key>) {
    var l := Listing(b);
    if |l| <= Keep(keep) then [] else l[..|l| - Keep(keep)]
  }

  predicate Pinned(b: Bucket, k: Lex.Key) {
    k in b.branches.Values
  }

  /** What GCCheckpoints deletes. */
  predicate Doomed(b: Bucket, keep: int, k: Lex.Key) {
    k in Older(b, keep) && b.manifest != Some(k) && !Pinned(b, k)
  }

  /** s is used by one of the newest keep checkpoints or by a pinned one. */
  predicate Live(b: Bucket, keep: int, s: Sst) {
    exists k :: k in b.indexes && (k !in Older(b, keep) || Pinned(b, k)) && s in b.indexes[k].ssts
  }

  /** s is used by a deleted checkpoint and is not live. */
  predicate Orphan(b: Bucket, keep: int, s: Sst) {
    !Live(b, keep, s) && exists k :: k in b.indexes && Doomed(b, keep, k) && s in b.indexes[k].ssts
  }

  /** GCCheckpoints followed by GCOrphanSSTs. */
  function Collect(b: Bucket, keep: int): (b': Bucket) {
    b.(indexes := map k | k in b.indexes && !Doomed(b, keep, k) :: b.indexes[k],
       metas := map k | k in b.metas && !Doomed(b, keep, k) :: b.metas[k],
       ssts := set s | s in b.ssts && !Orphan(b, keep, s))
  }

  // ------------------------------------------------------------- restorability

  /** Everything restoreFromIndex downloads is there. */
  predicate Restorable(b: Bucket, ancestor: Option<set<Sst>>, k: Lex.Key)
    requires k in b.indexes
  {
    && b.indexes[k].ssts <= b.ssts
    && (b.indexes[k].ancestors != {} ==> ancestor.Some? && b.indexes[k].ancestors <= ancestor.value)
    && k in b.metas && b.indexes[k].metas <= b.metas[k]
  }

  ghost predicate AllRestorable(b: Bucket, ancestor: Option<set<Sst>>) {
    forall k :: k in b.indexes ==> Restorable(b, ancestor, k)
  }

  /** The manifest names the checkpoint with the greatest key. */
  ghost predicate ManifestIsNewest(b: Bucket) {
    if b.manifest.None? then b.indexes == map[]
    else b.manifest.value in b.indexes && forall k :: k in b.indexes ==> Lex.LessEq(k, b.manifest.value)
  }

  lemma WriteRestorable(b: Bucket, ancestor: Option<set<Sst>>, key: Lex.Key, files: seq<File>)
    requires AllRestorable(b, ancestor)
    ensures AllRestorable(Write(b, ancestor, key, files), ancestor)
  {
    var b' := Write(b, ancestor, key, files);
    if b.manifest.Some? && b.manifest.value in b.indexes { assert Restorable(b, ancestor, b.manifest.value); }
    forall k | k in b'.indexes ensures Restorable(b', ancestor, k) {
      if k != key { assert Restorable(b, ancestor, k); }
    }
  }

  /** A surviving checkpoint is restorable after a collection if and only if none
      of its SSTs was judged an orphan. */
  lemma CollectRestorableIff(b: Bucket, ancestor: Option<set<Sst>>, keep: int, k: Lex.Key)
    requires AllRestorable(b, ancestor) && k in b.indexes && !Doomed(b, keep, k)
    ensures k in Collect(b, keep).indexes
    ensures Restorable(Collect(b, keep), ancestor, k) <==> forall s :: s in b.indexes[k].ssts ==> !Orphan(b, keep, s)
  {
    assert Restorable(b, ancestor, k);
    var b' := Collect(b, keep);
    assert b'.metas[k] == b.metas[k];
    if Restorable(b', ancestor, k) {
      forall s | s in b.indexes[k].ssts ensures !Orphan(b, keep, s) {
        assert s in b'.ssts;
      }
    }
  }

  /** The newest keep checkpoints and the pinned ones always stay restorable. */
  lemma SafeStaysRestorable(b: Bucket, ancestor: Option<set<Sst>>, keep: int, k: Lex.Key)
    requires AllRestorable(b, ancestor) && k in b.indexes && (k !in Older(b, keep) || Pinned(b, k))
    ensures k in Collect(b, keep).indexes && Restorable(Collect(b, keep), ancestor, k)
  {
    CollectRestorableIff(b, ancestor, keep, k);
    assert forall s :: s in b.indexes[k].ssts ==> Live(b, keep, s);
  }

  /** The greatest key is never among the older ones. */
  lemma GreatestIsNewest(b: Bucket, keep: int, k: Lex.Key)
    requires k in b.indexes && forall x :: x in b.indexes ==> Lex.LessEq(x, k)
    ensures k !in Older(b, keep)
  {
    var l := Listing(b);
    assert k in l;
    assert l[|l| - 1] in l;
    assert forall i :: 0 <= i < |l| - 1 ==> Lex.Less(l[i], l[|l| - 1]);
  }

  lemma CollectRestorable(b: Bucket, ancestor: Option<set<Sst>>, keep: int)
    requires AllRestorable(b, ancestor) && ManifestIsNewest(b)
    ensures AllRestorable(Collect(b, keep), ancestor) && ManifestIsNewest(Collect(b, keep))
  {
    var b' := Collect(b, keep);
    if b.manifest.Some? { GreatestIsNewest(b, keep, b.manifest.value); }
    forall k | k in b'.indexes ensures Restorable(b', ancestor, k) {
      SafeStaysRestorable(b, ancestor, keep, k);
    }
  }

  // ------------------------------------------------------------------- runs

  datatype Step =
    | WriteCheckpoint(key: Lex.Key, files: seq<File>)
    | RegisterBranch(id: nat, key: Lex.Key)
    | UnregisterBranch(id: nat)
    | Gc(keep: int)

  /** Checkpoints are written with a (term, revision) that never goes back. */
  predicate InOrder(b: Bucket, step: Step) {
    step.WriteCheckpoint? && b.manifest.Some? ==> Lex.LessEq(b.manifest.value, step.key)
  }

  function Next(b: Bucket, ancestor: Option<set<Sst>>, step: Step): (b': Bucket) {
    match step
    case WriteCheckpoint(key, files) => Write(b, ancestor, key, files)
    case RegisterBranch(id, key) => b.(branches := b.branches[id := key])
    case UnregisterBranch(id) => b.(branches := b.branches - {id})
    case Gc(keep) => Collect(b, keep)
  }

  function After(b: Bucket, ancestor: Option<set<Sst>>, steps: seq<Step>): (b': Bucket) {
    if steps == [] then b else Next(After(b, ancestor, steps[..|steps| - 1]), ancestor, steps[|steps| - 1])
  }

  ghost predicate OrderedRun(b: Bucket, ancestor: Option<set<Sst>>, steps: seq<Step>) {
    steps == [] ||
    (OrderedRun(b, ancestor, steps[..|steps| - 1]) &&
     InOrder(After(b, ancestor, steps[..|steps| - 1]), steps[|steps| - 1]))
  }

  lemma LessEqTransitive(a: Lex.Key, b: Lex.Key, c: Lex.Key)
    requires Lex.LessEq(a, b) && Lex.LessEq(b, c)
    ensures Lex.LessEq(a, c)
  {
    Lex.LessTotal(a, b);
    if Lex.Less(c, a) && a != b { Lex.LessTransitive(c, a, b); }
  }

  lemma WriteNewest(b: Bucket, ancestor: Option<set<Sst>>, key: Lex.Key, files: seq<File>)
    requires ManifestIsNewest(b) && InOrder(b, WriteCheckpoint(key, files))
    ensures ManifestIsNewest(Write(b, ancestor, key, files))
  {
    var b' := Write(b, ancestor, key, files);
    Lex.LessIrreflexive(key);
    forall k | k in b'.indexes ensures Lex.LessEq(k, key) {
      if k != key { LessEqTransitive(k, b.manifest.value, key); }
    }
  }

  lemma StepKeeps(b: Bucket, ancestor: Option<set<Sst>>, step: Step)
    requires AllRestorable(b, ancestor) && ManifestIsNewest(b) && InOrder(b, step)
    ensures AllRestorable(Next(b, ancestor, step), ancestor) && ManifestIsNewest(Next(b, ancestor, step))
  {
    match step
    case WriteCheckpoint(key, files) =>
      WriteRestorable(b, ancestor, key, files);
      WriteNewest(b, ancestor, key, files);
    case Gc(keep) => CollectRestorable(b, ancestor, keep);
    case _ => SameObjects(b, Next(b, ancestor, step), ancestor);
  }

  lemma SameObjects(b: Bucket, b': Bucket, ancestor: Option<set<Sst>>)
    requires b' == b.(branches := b'.branches) && AllRestorable(b, ancestor)
    ensures AllRestorable(b', ancestor)
  {
    forall k | k in b'.indexes ensures Restorable(b', ancestor, k) {
      assert Restorable(b, ancestor, k);
    }
  }

  const NO_OBJECTS: Bucket := Bucket(map[], map[], {}, None, map[])

  /** Over any run of writes, branch registrations and collections with any keep,
      every checkpoint in the store can be restored. */
  lemma {:induction false} CheckpointsStayRestorable(ancestor: Option<set<Sst>>, steps: seq<Step>)
    requires OrderedRun(NO_OBJECTS, ancestor, steps)
    ensures var b := After(NO_OBJECTS, ancestor, steps);
            AllRestorable(b, ancestor) && ManifestIsNewest(b)
  {
    if steps != [] {
      CheckpointsStayRestorable(ancestor, steps[..|steps| - 1]);
      StepKeeps(After(NO_OBJECTS, ancestor, steps[..|steps| - 1]), ancestor, steps[|steps| - 1]);
    }
  }

  /** The step neither removes nor moves the pin of branch id. */
  predicate LeavesPin(step: Step, id: nat) {
    !(step.RegisterBranch? && step.id == id) && !(step.UnregisterBranch? && step.id == id)
  }

  ghost predicate PinHolds(b: Bucket, ancestor: Option<set<Sst>>, id: nat, k: Lex.Key) {
    && AllRestorable(b, ancestor) && ManifestIsNewest(b)
    && id in b.branches && b.branches[id] == k && k in b.indexes
  }

  lemma PinKept(b: Bucket, ancestor: Option<set<Sst>>, step: Step, id: nat, k: Lex.Key)
    requires PinHolds(b, ancestor, id, k) && InOrder(b, step) && LeavesPin(step, id)
    ensures PinHolds(Next(b, ancestor, step), ancestor, id, k)
  {
    StepKeeps(b, ancestor, step);
    assert Pinned(b, k);
  }

  lemma {:induction false} PinKeptOverRun(b: Bucket, ancestor: Option<set<Sst>>, steps: seq<Step>, id: nat, k: Lex.Key)
    requires PinHolds(b, ancestor, id, k) && OrderedRun(b, ancestor, steps)
    requires forall i :: 0 <= i < |steps| ==> LeavesPin(steps[i], id)
    ensures PinHolds(After(b, ancestor, steps), ancestor, id, k)
  {
    if steps != [] {
      PinKeptOverRun(b, ancestor, steps[..|steps| - 1], id, k);
      PinKept(After(b, ancestor, steps[..|steps| - 1]), ancestor, steps[|steps| - 1], id, k);
    }
  }

  /** From the registration of a branch until its pin is moved or removed, the
      checkpoint it was pinned to is in the store and can be restored, whatever is
      written, registered and collected meanwhile. */
  lemma PinnedSurvives(ancestor: Option<set<Sst>>, before: seq<Step>, id: nat, k: Lex.Key, steps: seq<Step>)
    requires OrderedRun(NO_OBJECTS, ancestor, before) && k in After(NO_OBJECTS, ancestor, before).indexes
    requires OrderedRun(Next(After(NO_OBJECTS, ancestor, before), ancestor, RegisterBranch(id, k)), ancestor, steps)
    requires forall i :: 0 <= i < |steps| ==> LeavesPin(steps[i], id)
    ensures var b := After(Next(After(NO_OBJECTS, ancestor, before), ancestor, RegisterBranch(id, k)), ancestor, steps);
            k in b.indexes && Restorable(b, ancestor, k)
  {
    CheckpointsStayRestorable(ancestor, before);
    StepKeeps(After(NO_OBJECTS, ancestor, before), ancestor, RegisterBranch(id, k));
    PinKeptOverRun(Next(After(NO_OBJECTS, ancestor, before), ancestor, RegisterBranch(id, k)), ancestor, steps, id, k);
  }

  /** Without the order of writes the manifest may name an old checkpoint; a
      collection keeps it but breaks it exactly when one of its SSTs is shared with
      a deleted checkpoint and with none of those that count as live. */
  lemma OldManifestBreaksIff(b: Bucket, ancestor: Option<set<Sst>>, keep: int, k: Lex.Key)
    requires AllRestorable(b, ancestor) && b.manifest == Some(k) && k in Older(b, keep)
    ensures k in Collect(b, keep).indexes
    ensures !Restorable(Collect(b, keep), ancestor, k) <==>
            exists s, d :: s in b.indexes[k].ssts && d in b.indexes && Doomed(b, keep, d) && s in b.indexes[d].ssts && !Live(b, keep, s)
  {
    CollectRestorableIff(b, ancestor, keep, k);
  }

  /** Three checkpoints of which the oldest is the manifest's. */
  function Three(a: Lex.Key, m: Lex.Key, n: Lex.Key, shared: Sst, other: Sst): (b: Bucket) {
    var i, j := Index({shared}, {}, {}), Index({other}, {}, {});
    Bucket(map[a := i, m := i, n := j], map[a := {}, m := {}, n := {}], {shared, other}, Some(a), map[])
  }

  lemma ListThree(keys: set<Lex.Key>, a: Lex.Key, m: Lex.Key, n: Lex.Key)
    requires Lex.Less(a, m) && Lex.Less(m, n) && Lex.Less(a, n) && keys == {a, m, n}
    ensures Lex.SortedKeys(keys) == [a, m, n]
  {
    var l: seq<Lex.Key> := [a, m, n];
    assert forall k :: k in l <==> k in keys;
    assert Lex.Sorted(l);
    Lex.SortedUnique(l, Lex.SortedKeys(keys));
  }

  lemma ThreeOlder(a: Lex.Key, m: Lex.Key, n: Lex.Key, shared: Sst, other: Sst)
    requires Lex.Less(a, m) && Lex.Less(m, n) && Lex.Less(a, n)
    ensures Older(Three(a, m, n, shared, other), 1) == [a, m]
  {
    var b := Three(a, m, n, shared, other);
    ListThree(b.indexes.Keys, a, m, n);
    OlderOfThree(b, a, m, n);
  }

  lemma OlderOfThree(b: Bucket, a: Lex.Key, m: Lex.Key, n: Lex.Key)
    requires Listing(b) == [a, m, n]
    ensures Older(b, 1) == [a, m]
  {
    assert [a, m, n][..2] == [a, m];
  }

  lemma OneSst(s: Sst)
    ensures Ssts([SstFile(s)]) == {s} && Metas([SstFile(s)]) == {}
  {
    assert SstFile(s) in [SstFile(s)];
  }

  lemma WriteOneSst(b: Bucket, key: Lex.Key, s: Sst)
    requires KnownAncestor(b, None) == {} && KnownLocal(b) <= b.ssts && key !in b.metas
    ensures Write(b, None, key, [SstFile(s)]) ==
            b.(indexes := b.indexes[key := Index({s}, {}, {})], metas := b.metas[key := {}], ssts := b.ssts + {s}, manifest := Some(key))
  {
    OneSst(s);
    assert OwnSsts([SstFile(s)], KnownLocal(b), {}) == {s};
    assert b.ssts + ({s} - KnownLocal(b)) == b.ssts + {s};
    assert {s} - {s} == {} && {} + Metas([SstFile(s)]) == {};
  }

  /** Writing the three with the oldest key last leads there. */
  lemma ThreeWritten(a: Lex.Key, m: Lex.Key, n: Lex.Key, shared: Sst, other: Sst)
    requires a != m && m != n && a != n
    ensures After(NO_OBJECTS, None, OutOfOrder(a, m, n, shared, other)) == Three(a, m, n, shared, other)
  {
    var s1, s2, s3 := WriteCheckpoint(m, [SstFile(shared)]), WriteCheckpoint(n, [SstFile(other)]),
                      WriteCheckpoint(a, [SstFile(shared)]);
    WriteOneSst(NO_OBJECTS, m, shared);
    var b1 := Next(NO_OBJECTS, None, s1);
    WriteOneSst(b1, n, other);
    var b2 := Next(b1, None, s2);
    WriteOneSst(b2, a, shared);
    var b3, three := Next(b2, None, s3), Three(a, m, n, shared, other);
    assert b3.indexes == three.indexes && b3.metas == three.metas && b3.ssts == three.ssts;
    AfterMore(NO_OBJECTS, None, [], s1);
    AfterMore(NO_OBJECTS, None, [] + [s1], s2);
    AfterMore(NO_OBJECTS, None, [] + [s1] + [s2], s3);
    assert OutOfOrder(a, m, n, shared, other) == [] + [s1] + [s2] + [s3];
  }

  lemma AfterMore(b: Bucket, ancestor: Option<set<Sst>>, steps: seq<Step>, step: Step)
    ensures After(b, ancestor, steps + [step]) == Next(After(b, ancestor, steps), ancestor, step)
  {
    assert (steps + [step])[..|steps|] == steps;
  }

  function OutOfOrder(a: Lex.Key, m: Lex.Key, n: Lex.Key, shared: Sst, other: Sst): (steps: seq<Step>) {
    [WriteCheckpoint(m, [SstFile(shared)]), WriteCheckpoint(n, [SstFile(other)]), WriteCheckpoint(a, [SstFile(shared)])]
  }

  lemma ThreeRestorable(a: Lex.Key, m: Lex.Key, n: Lex.Key, shared: Sst, other: Sst)
    ensures AllRestorable(Three(a, m, n, shared, other), None)
  {
  }

  lemma SharedNotLive(a: Lex.Key, m: Lex.Key, n: Lex.Key, shared: Sst, other: Sst)
    requires Lex.Less(a, m) && Lex.Less(m, n) && Lex.Less(a, n) && a != m && m != n && a != n && shared != other
    ensures !Live(Three(a, m, n, shared, other), 1, shared) && Doomed(Three(a, m, n, shared, other), 1, m)
    ensures a in Older(Three(a, m, n, shared, other), 1)
  {
    ThreeOlder(a, m, n, shared, other);
    assert m in [a, m] && a in [a, m];
  }

  /** Writes with keys out of order reach a store that a collection breaks, for any
      SST the two older checkpoints share. */
  lemma OldManifestCanBreak(a: Lex.Key, m: Lex.Key, n: Lex.Key, shared: Sst, other: Sst)
    requires Lex.Less(a, m) && Lex.Less(m, n) && shared != other
    ensures var b := After(NO_OBJECTS, None, OutOfOrder(a, m, n, shared, other));
            AllRestorable(b, None) && a in Collect(b, 1).indexes && !Restorable(Collect(b, 1), None, a)
  {
    Lex.LessTransitive(a, m, n);
    Lex.LessIrreflexive(a);
    Lex.LessIrreflexive(m);
    Lex.LessIrreflexive(n);
    ThreeWritten(a, m, n, shared, other);
    ThreeRestorable(a, m, n, shared, other);
    SharedNotLive(a, m, n, shared, other);
    assert shared in Three(a, m, n, shared, other).indexes[m].ssts;
    OldManifestBreaksIff(Three(a, m, n, shared, other), None, 1, a);
  }
}

/** The checkpoint manager's operations as they change the object store. */
module CheckpointStore {
  import Lex
  import opened Entries
  import opened Checkpoint
  import opened Retention

  class Manager {
    var indexes: map<Lex.Key, Index>
    var metas: map<Lex.Key, set<Meta>>
    var ssts: set<Sst>
    var manifest: Option<Lex.Key>
    var branches: map<nat, Lex.Key>

    ghost function Abs(): (b: Bucket)
      reads this
    {
      Bucket(indexes, metas, ssts, manifest, branches)
    }

    constructor ()
      ensures Abs() == Bucket(map[], map[], {}, None, map[])
    {
      indexes, metas, ssts, manifest, branches := map[], map[], {}, None, map[];
    }

    method RegisterBranch(id: nat, key: Lex.Key)
      modifies this`branches
      ensures Abs() == Next(old(Abs()), None, Step.RegisterBranch(id, key))
    {
      branches := branches[id := key];
    }

    method UnregisterBranch(id: nat)
      modifies this`branches
      ensures Abs() == Next(old(Abs()), None, Step.UnregisterBranch(id))
    {
      branches := branches - {id};
    }

    method KnownSstSets(ancestor: Option<set<Sst>>) returns (local: set<Sst>, inherited: set<Sst>)
      ensures local == KnownLocal(Abs()) && inherited == KnownAncestor(Abs(), ancestor)
    {
      local, inherited := {}, {};
      if manifest.Some? && manifest.value in indexes {
        local, inherited := indexes[manifest.value].ssts, indexes[manifest.value].ancestors;
      }
      if ancestor.Some? && inherited == {} {
        inherited := ancestor.value;
      }
    }

    /** Uploads what is not there yet, then the index, then the manifest. */
    method WriteAtSequence(key: Lex.Key, files: seq<File>, ancestor: Option<set<Sst>>)
      modifies this
      ensures Abs() == Write(old(Abs()), ancestor, key, files)
    {
      var local, inherited := KnownSstSets(ancestor);
      var sstFiles, ancestorFiles := Upload(key, files, local, inherited);
      var metaFiles := UploadMetas(key, files);
      indexes := indexes[key := Index(sstFiles, ancestorFiles, metaFiles)];
      manifest := Some(key);
    }

    method Upload(key: Lex.Key, files: seq<File>, local: set<Sst>, inherited: set<Sst>)
      returns (sstFiles: set<Sst>, ancestorFiles: set<Sst>)
      modifies this`ssts
      ensures sstFiles == OwnSsts(files, local, inherited)
      ensures ancestorFiles == Ssts(files) - sstFiles
      ensures ssts == old(ssts) + (sstFiles - local)
    {
      sstFiles, ancestorFiles := {}, {};
      for i := 0 to |files|
        invariant sstFiles == OwnSsts(files[..i], local, inherited)
        invariant ancestorFiles == Ssts(files[..i]) - sstFiles
        invariant ssts == old(ssts) + (sstFiles - local)
      {
        SstsMore(files, i);
        match files[i]
        case MetaFile(_) =>
        case SstFile(s) =>
          if s in local {
            sstFiles := sstFiles + {s};
          } else if s in inherited {
            ancestorFiles := ancestorFiles + {s};
          } else {
            sstFiles := sstFiles + {s};
            ssts := ssts + {s};
          }
      }
      assert files[..|files|] == files;
    }

    method UploadMetas(key: Lex.Key, files: seq<File>) returns (metaFiles: set<Meta>)
      modifies this`metas
      ensures metaFiles == Metas(files)
      ensures metas == old(metas)[key := (if key in old(metas) then old(metas)[key] else {}) + metaFiles]
    {
      metaFiles := {};
      var kept := if key in metas then metas[key] else {};
      metas := metas[key := kept];
      for i := 0 to |files|
        invariant metaFiles == Metas(files[..i])
        invariant key in metas && metas == old(metas)[key := metas[key]] && metas[key] == kept + metaFiles
      {
        MetasMore(files, i);
        match files[i]
        case SstFile(_) =>
        case MetaFile(m) =>
          metaFiles := metaFiles + {m};
          metas := metas[key := metas[key] + {m}];
      }
      assert files[..|files|] == files;
    }

    /** The SSTs of the checkpoints in keys. */
    method Referenced(keys: set<Lex.Key>) returns (r: set<Sst>)
      ensures forall s :: s in r <==> exists k :: k in keys && k in indexes && s in indexes[k].ssts
    {
      r := {};
      var todo := keys;
      while todo != {}
        invariant todo <= keys
        invariant forall s :: s in r <==> exists k :: k in keys && k !in todo && k in indexes && s in indexes[k].ssts
        decreases |todo|
      {
        var k := Pick(todo);
        if k in indexes {
          r := r + indexes[k].ssts;
        }
        todo := todo - {k};
      }
    }

    /** Deletes the checkpoints outside the newest keep, except the manifest's and
        the pinned ones; returns the SSTs only they referred to. */
    method GcCheckpoints(keep: int) returns (orphans: set<Sst>)
      modifies this`indexes, this`metas
      ensures Abs() == Collect(old(Abs()), keep).(ssts := ssts)
      ensures forall k :: k in indexes <==> k in old(indexes) && (Protected(old(Abs()), keep, k) || manifest == Some(k))
      ensures forall s :: s in orphans <==> Orphan(old(Abs()), keep, s)
    {
      KeptAre(Abs(), keep);
      orphans := DeleteOld(keep);
    }

    method DeleteOld(keep: int) returns (orphans: set<Sst>)
      modifies this`indexes, this`metas
      ensures Abs() == Collect(old(Abs()), keep).(ssts := ssts)
      ensures forall s :: s in orphans <==> Orphan(old(Abs()), keep, s)
    {
      ghost var b := Abs();
      var n := if keep < 1 then 1 else keep;
      var keys := Lex.SortedKeys(indexes.Keys);
      var pinned := branches.Values;
      orphans := {};
      if |keys| <= n {
        NothingOld(b, keep);
        return;
      }
      var older, newest := keys[..|keys| - n], keys[|keys| - n..];
      OldOnes(b, keep, keys, n, older);
      var live := Referenced((set k | k in newest) + pinned);
      orphans := DeleteOlder(older, pinned, live);
      LiveIs(b, keep, (set k | k in newest), live);
      CollectIs(b, keep, live, orphans, indexes, metas);
    }

    method DeleteOlder(older: seq<Lex.Key>, pinned: set<Lex.Key>, live: set<Sst>) returns (orphans: set<Sst>)
      requires Lex.Sorted(older) && forall i :: 0 <= i < |older| ==> older[i] in indexes
      modifies this`indexes, this`metas
      ensures Left(old(indexes), indexes, manifest, older, pinned) && Left(old(metas), metas, manifest, older, pinned)
      ensures Freed(old(indexes), orphans, live, manifest, older, pinned)
    {
      orphans := {};
      for i := 0 to |older|
        invariant Left(old(indexes), indexes, manifest, older[..i], pinned)
        invariant Left(old(metas), metas, manifest, older[..i], pinned)
        invariant Freed(old(indexes), orphans, live, manifest, older[..i], pinned)
      {
        var k := older[i];
        GoesMore(manifest, older, pinned, i);
        if manifest == Some(k) || k in pinned {
          continue;
        }
        NotYet(manifest, older, pinned, i);
        orphans := orphans + (indexes[k].ssts - live);
        indexes := indexes - {k};
        metas := metas - {k};
      }
      assert older[..|older|] == older;
    }

    method GcOrphanSsts(candidates: set<Sst>)
      modifies this`ssts
      ensures ssts == old(ssts) - candidates
    {
      ssts := ssts - candidates;
    }

    /** One collection with nothing written in between. */
    method CollectAll(keep: int)
      modifies this
      ensures Abs() == Checkpoint.Collect(old(Abs()), keep)
      ensures forall k :: k in indexes <==> k in old(indexes) && (Protected(old(Abs()), keep, k) || manifest == Some(k))
    {
      var orphans := GcCheckpoints(keep);
      GcOrphanSsts(orphans);
    }
  }

  lemma OldOnes(b: Bucket, keep: int, keys: seq<Lex.Key>, n: nat, older: seq<Lex.Key>)
    requires keys == Lex.SortedKeys(b.indexes.Keys) && n == (if keep < 1 then 1 else keep) && n < |keys| && older == keys[..|keys| - n]
    ensures older == Older(b, keep) && keys == Listing(b) && n == Keep(keep) && Lex.Sorted(older)
    ensures forall i :: 0 <= i < |older| ==> older[i] in b.indexes
  {
    forall i | 0 <= i < |older| ensures older[i] in b.indexes { assert keys[i] in keys; }
  }

  lemma SstsMore(files: seq<File>, i: nat)
    requires i < |files|
    ensures Ssts(files[..i + 1]) == Ssts(files[..i]) + if files[i].SstFile? then {files[i].sst} else {}
  {
    assert files[..i + 1] == files[..i] + [files[i]];
  }

  lemma MetasMore(files: seq<File>, i: nat)
    requires i < |files|
    ensures Metas(files[..i + 1]) == Metas(files[..i]) + if files[i].MetaFile? then {files[i].meta} else {}
  {
    assert files[..i + 1] == files[..i] + [files[i]];
  }

  predicate Goes(manifest: Option<Lex.Key>, older: seq<Lex.Key>, pinned: set<Lex.Key>, k: Lex.Key) {
    k in older && manifest != Some(k) && k !in pinned
  }

  /** What is left of m once the keys that go are gone. */
  ghost predicate Left<T>(m: map<Lex.Key, T>, m': map<Lex.Key, T>, manifest: Option<Lex.Key>, older: seq<Lex.Key>, pinned: set<Lex.Key>) {
    && (forall k :: k in m' <==> k in m && !Goes(manifest, older, pinned, k))
    && (forall k :: k in m' ==> m'[k] == m[k])
  }

  /** The SSTs of the checkpoints that go, unless live. */
  ghost predicate Freed(m: map<Lex.Key, Index>, orphans: set<Sst>, live: set<Sst>, manifest: Option<Lex.Key>,
                        older: seq<Lex.Key>, pinned: set<Lex.Key>) {
    forall s :: s in orphans <==> s !in live && exists k :: k in m && Goes(manifest, older, pinned, k) && s in m[k].ssts
  }

  lemma GoesMore(manifest: Option<Lex.Key>, older: seq<Lex.Key>, pinned: set<Lex.Key>, i: nat)
    requires i < |older|
    ensures forall k :: Goes(manifest, older[..i + 1], pinned, k) <==>
              Goes(manifest, older[..i], pinned, k) || (k == older[i] && manifest != Some(k) && k !in pinned)
  {
    assert older[..i + 1] == older[..i] + [older[i]];
  }

  lemma NotYet(manifest: Option<Lex.Key>, older: seq<Lex.Key>, pinned: set<Lex.Key>, i: nat)
    requires i < |older| && Lex.Sorted(older)
    ensures !Goes(manifest, older[..i], pinned, older[i])
  {
    Lex.LessIrreflexive(older[i]);
  }

  lemma NothingOld(b: Bucket, keep: int)
    requires |Listing(b)| <= Keep(keep)
    ensures Collect(b, keep) == b && forall s :: !Orphan(b, keep, s)
  {
    assert Collect(b, keep).indexes == b.indexes && Collect(b, keep).metas == b.metas;
  }

  lemma LiveIs(b: Bucket, keep: int, newest: set<Lex.Key>, live: set<Sst>)
    requires |Listing(b)| > Keep(keep)
    requires var l := Listing(b); forall k :: k in newest <==> k in l[|l| - Keep(keep)..]
    requires forall s :: s in live <==> exists k :: k in newest + b.branches.Values && k in b.indexes && s in b.indexes[k].ssts
    ensures forall s :: s in live <==> Live(b, keep, s)
  {
    Split(b, keep);
  }

  lemma CollectIs(b: Bucket, keep: int, live: set<Sst>, orphans: set<Sst>, indexes: map<Lex.Key, Index>, metas: map<Lex.Key, set<Meta>>)
    requires forall s :: s in live <==> Live(b, keep, s)
    requires Left(b.indexes, indexes, b.manifest, Older(b, keep), b.branches.Values)
    requires Left(b.metas, metas, b.manifest, Older(b, keep), b.branches.Values)
    requires Freed(b.indexes, orphans, live, b.manifest, Older(b, keep), b.branches.Values)
    ensures indexes == Collect(b, keep).indexes && metas == Collect(b, keep).metas
    ensures forall s :: s in orphans <==> Orphan(b, keep, s)
  {
    CollectMaps(b, keep, indexes, metas);
    OrphansAre(b, keep, live, orphans);
  }

  lemma CollectMaps(b: Bucket, keep: int, indexes: map<Lex.Key, Index>, metas: map<Lex.Key, set<Meta>>)
    requires Left(b.indexes, indexes, b.manifest, Older(b, keep), b.branches.Values)
    requires Left(b.metas, metas, b.manifest, Older(b, keep), b.branches.Values)
    ensures indexes == Collect(b, keep).indexes && metas == Collect(b, keep).metas
  {
    GoesIsDoomed(b, keep);
    forall k ensures k in indexes <==> k in b.indexes && !Doomed(b, keep, k) {}
    forall k ensures k in metas <==> k in b.metas && !Doomed(b, keep, k) {}
    SameMap(b.indexes, indexes, Collect(b, keep).indexes);
    SameMap(b.metas, metas, Collect(b, keep).metas);
  }

  lemma SameMap<T>(m: map<Lex.Key, T>, a: map<Lex.Key, T>, b: map<Lex.Key, T>)
    requires (forall k :: k in a <==> k in b) && (forall k :: k in a ==> k in m && a[k] == m[k]) && (forall k :: k in b ==> k in m && b[k] == m[k])
    ensures a == b
  {
  }

  lemma GoesIsDoomed(b: Bucket, keep: int)
    ensures forall k :: Goes(b.manifest, Older(b, keep), b.branches.Values, k) <==> Doomed(b, keep, k)
  {
  }

  lemma OrphansAre(b: Bucket, keep: int, live: set<Sst>, orphans: set<Sst>)
    requires forall s :: s in live <==> Live(b, keep, s)
    requires Freed(b.indexes, orphans, live, b.manifest, Older(b, keep), b.branches.Values)
    ensures forall s :: s in orphans <==> Orphan(b, keep, s)
  {
    GoesIsDoomed(b, keep);
  }

  /** Every listed checkpoint is either older or among the newest keep. */
  lemma Split(b: Bucket, keep: int)
    requires |Listing(b)| > Keep(keep)
    ensures var l := Listing(b);
            forall k :: k in b.indexes ==> (k !in Older(b, keep) <==> k in l[|l| - Keep(keep)..])
  {
    var l := Listing(b);
    var c := |l| - Keep(keep);
    forall k | k in b.indexes ensures k !in Older(b, keep) <==> k in l[c..] {
      assert k in l;
      assert l == l[..c] + l[c..];
      if k in l[..c] && k in l[c..] {
        var i, j :| 0 <= i < c && l[i] == k && c <= j < |l| && l[j] == k;
        assert Lex.Less(l[i], l[j]);
        Lex.LessIrreflexive(k);
      }
    }
  }
}

/** The Pebble-backed state machine: applies WAL entries in batches and serves reads. */
module Store {
  import Lex
  import opened Entries
  import opened Mvcc
  import opened StoreState
  import opened StoreProofs
  import opened StoreReads
  import opened StoreLists
  import opened Ranges
  import opened Reopen

  class Store {
    var db: DB
    var currentRev: int
    var compactRev: int
    var lastSeq: int
    /** Every entry applied or recovered so far, in order. */
    ghost var hist: seq<Entry>

    ghost function Abs(): (s: State)
      reads this
    {
      State(db, currentRev, compactRev, lastSeq)
    }

    ghost predicate Valid()
      reads this
    {
      Represents(Abs(), hist)
    }

    constructor ()
      ensures Valid() && Abs() == EMPTY && hist == []
    {
      db := EMPTY.db;
      currentRev, compactRev, lastSeq := 0, 0, 0;
      hist := [];
    }

    /** Open and loadMeta, on the files of a store that has held h. */
    constructor Open(files: DB, ghost h: seq<Entry>)
      ensures Abs() == LoadMeta(files) && hist == h
    {
      db := files;
      compactRev := if files.metaCompact.Some? then files.metaCompact.value else 0;
      var seqNo := if files.metaSeq.Some? then files.metaSeq.value else 0;
      var rev := 0;
      if files.metaRev.Some? {
        rev := files.metaRev.value;
      } else {
        rev := FindLastLogRev(files.log);
      }
      currentRev, lastSeq := rev, if seqNo < rev then rev else seqNo;
      hist := h;
    }

    // ---------------------------------------------------------------- writes

    method Apply(entries: seq<Entry>)
      modifies this
      ensures Abs() == ApplyBatch(old(Abs()), entries, false) && hist == old(hist) + entries
      ensures old(Valid()) && ValidLog(old(hist) + entries) ==> Valid()
    {
      ghost var s0, h0 := Abs(), hist;
      if entries == [] {
        assert h0 + entries == h0;
        return;
      }
      var b := ApplyAll(entries);
      CommitWrites(b.writes, b.maxRev, b.maxSeq);
      hist := hist + entries;
      if Represents(s0, h0) && ValidLog(h0 + entries) {
        ApplyRepresents(s0, h0, entries, false);
      }
    }

    /** Startup replay: the same, with leftovers of an older term cleared first.
        RecoverBatches says what this gives over a store that still holds some. */
    method Recover(entries: seq<Entry>)
      modifies this
      ensures Abs() == ApplyBatch(old(Abs()), entries, true) && hist == old(hist) + entries
      ensures old(Valid()) && ValidLog(old(hist) + entries) ==> Valid()
    {
      ghost var s0, h0 := Abs(), hist;
      if entries == [] {
        assert h0 + entries == h0;
        return;
      }
      var b := RecoverAll(entries);
      CommitWrites(b.writes, b.maxRev, b.maxSeq);
      hist := hist + entries;
      if Represents(s0, h0) && ValidLog(h0 + entries) {
        ApplyRepresents(s0, h0, entries, true);
      }
    }

    /** The batch of all entries; the watermark moves as compactions are met. */
    method ApplyAll(entries: seq<Entry>) returns (b: Batch)
      modifies this`compactRev
      ensures b == BatchOf(old(Abs()), entries, false) && compactRev == b.compactRev
    {
      ghost var s0 := Abs();
      b := Batch([], compactRev, 0, 0);
      BatchUpToEnds(s0, entries, false);
      for i := 0 to |entries|
        invariant db == s0.db && compactRev == b.compactRev && b == BatchUpTo(s0, entries, i, false)
      {
        var b' := ApplyOne(b, entries[i]);
        BatchUpToNext(s0, entries, i, false, b, b');
        b := b';
      }
    }

    method RecoverAll(entries: seq<Entry>) returns (b: Batch)
      modifies this`compactRev
      ensures b == BatchOf(old(Abs()), entries, true) && compactRev == b.compactRev
    {
      ghost var s0 := Abs();
      b := Batch([], compactRev, 0, 0);
      BatchUpToEnds(s0, entries, true);
      for i := 0 to |entries|
        invariant db == s0.db && compactRev == b.compactRev && b == BatchUpTo(s0, entries, i, true)
      {
        var b' := RecoverOne(b, entries[i]);
        BatchUpToNext(s0, entries, i, true, b, b');
        b := b';
      }
    }

    method ApplyOne(b: Batch, e: Entry) returns (b': Batch)
      requires b.compactRev == compactRev
      modifies this`compactRev
      ensures b' == AddEntry(db, b, e, false) && compactRev == b'.compactRev
    {
      var maxSeq := Max(b.maxSeq, e.Sequence());
      if e.op == OpCompact {
        var writes := ApplyCompact(b.writes, e.prevRev);
        b' := Batch(writes, compactRev, b.maxRev, maxSeq);
      } else {
        var writes := ApplyEntryWrites(e);
        b' := Batch(b.writes + [] + writes, compactRev, Max(b.maxRev, e.revision), maxSeq);
      }
    }

    method RecoverOne(b: Batch, e: Entry) returns (b': Batch)
      requires b.compactRev == compactRev
      modifies this`compactRev
      ensures b' == AddEntry(db, b, e, true) && compactRev == b'.compactRev
    {
      var maxSeq := Max(b.maxSeq, e.Sequence());
      if e.op == OpCompact {
        var writes := ApplyCompact(b.writes, e.prevRev);
        b' := Batch(writes, compactRev, b.maxRev, maxSeq);
      } else {
        var stale := CleanupWrites(e);
        var writes := ApplyEntryWrites(e);
        b' := Batch(b.writes + stale + writes, compactRev, Max(b.maxRev, e.revision), maxSeq);
      }
    }

    method CommitWrites(writes: seq<Write>, maxRev: int, maxSeq: int)
      modifies this
      ensures Abs() == CommitBatch(old(Abs()), Batch(writes, old(compactRev), maxRev, maxSeq))
      ensures hist == old(hist)
    {
      var newDb := Commit(db, writes);
      if maxRev > 0 {
        newDb := newDb.(metaRev := Some(maxRev));
      }
      if maxSeq > 0 {
        newDb := newDb.(metaSeq := Some(maxSeq));
      }
      db := newDb;
      if maxRev > currentRev {
        currentRev := maxRev;
      }
      if maxSeq > lastSeq {
        lastSeq := maxSeq;
      }
    }

    method CleanupWrites(e: Entry) returns (ws: seq<Write>)
      ensures ws == Cleanup(db, e)
    {
      if e.op == OpTxn {
        ws := PurgeRevision(e.revision);
      } else {
        ws := PurgeIndex([e.revision], e.key);
      }
    }

    method PurgeIndex(at: Lex.Key, key: Key) returns (ws: seq<Write>)
      ensures ws == StaleIndex(db.log, at, key)
    {
      ws := [];
      if at in db.log {
        var r := db.log[at];
        if !r.delete && r.key != key {
          ws := [DelIdx(r.key)];
        }
      }
    }

    method PurgeRevision(rev: int) returns (ws: seq<Write>)
      ensures ws == StaleRows(db.log, rev)
    {
      ws := PurgeRows(Scan(db.log, rev, rev + 1));
    }

    method PurgeRows(keys: seq<Lex.Key>) returns (ws: seq<Write>)
      requires forall k :: k in keys ==> k in db.log
      ensures ws == CleanupTxn(db.log, keys)
    {
      ws := [];
      CleanupUpToEnds(db.log, keys);
      for i := 0 to |keys|
        invariant ws == CleanupUpTo(db.log, keys, i)
      {
        CleanupUpToMore(db.log, keys, i);
        var k := keys[i];
        var stale := if db.log[k].delete then [] else [DelIdx(db.log[k].key)];
        ws := ws + stale + [DelLog(k)];
      }
    }

    method ApplyEntryWrites(e: Entry) returns (ws: seq<Write>)
      requires IsData(e)
      ensures ws == EntryWrites(e)
    {
      if e.op == OpTxn {
        ws := [];
        for i := 0 to |e.ops|
          invariant ws == SubWrites(e.revision, e.ops[..i])
        {
          assert e.ops[..i + 1][..i] == e.ops[..i];
          var o := e.ops[i];
          ws := ws + [SetLog([e.revision, i % 0x10000], RecordOf(o)), IndexWrite(e.revision, o)];
        }
        assert e.ops[..|e.ops|] == e.ops;
      } else {
        var o := SubOp(e.op, e.key, e.value, e.lease, e.createRev, e.prevRev, e.version);
        ws := [SetLog([e.revision], RecordOf(o)), IndexWrite(e.revision, o)];
      }
    }

    /** Adds the deletions of one compaction to the batch and moves the watermark. */
    method ApplyCompact(writes: seq<Write>, target: int) returns (ws: seq<Write>)
      modifies this`compactRev
      ensures ws == writes + CompactWrites(db, old(compactRev), target)
      ensures compactRev == target
    {
      var keys := Scan(db.log, Unsigned(compactRev), Unsigned(target));
      var deletes := SelectCompacted(keys, target);
      ws := writes + ([SetCompact(target)] + deletes);
      compactRev := target;
    }

    method SelectCompacted(keys: seq<Lex.Key>, target: int) returns (deletes: seq<Write>)
      requires forall k :: k in keys ==> k in db.log && |k| > 0
      ensures deletes == CompactDeletes(db.log, keys, target)
    {
      deletes := [];
      for i := 0 to |keys|
        invariant deletes == CompactDeletes(db.log, keys[..i], target)
      {
        assert keys[..i + 1][..i] == keys[..i];
        var k := keys[i];
        var later := HasLaterRevision(db.log[k].key, k[0], target);
        if !later {
          continue;
        }
        deletes := deletes + [DelLog(k)];
      }
      assert keys[..|keys|] == keys;
    }

    method HasLaterRevision(key: Key, afterRev: int, upTo: int) returns (later: bool)
      ensures later == HasLater(db.log, key, afterRev, upTo)
    {
      if afterRev >= upTo {
        return false;
      }
      var keys := Scan(db.log, Unsigned(afterRev + 1), Unsigned(upTo + 1));
      for i := 0 to |keys|
        invariant forall j :: 0 <= j < i ==> db.log[keys[j]].key != key
      {
        if db.log[keys[i]].key == key {
          assert keys[i] in keys;
          return true;
        }
      }
      return false;
    }

    // ----------------------------------------------------------------- reads

    /** Why a revision may not be read, if it may not. */
    method ResolveReadRevision(revision: int) returns (r: Read<int>)
      ensures revision == 0 ==> r == Ok(currentRev)
      ensures revision != 0 && compactRev > 0 && revision < compactRev ==> r == ErrCompacted
      ensures revision != 0 && !(compactRev > 0 && revision < compactRev) ==>
                r == if revision > currentRev then ErrFutureRevision else Ok(revision)
    {
      if revision == 0 {
        return Ok(currentRev);
      }
      if compactRev > 0 && revision < compactRev {
        return ErrCompacted;
      }
      if revision > currentRev {
        return ErrFutureRevision;
      }
      return Ok(revision);
    }

    /** The current value of a key is its value in the serial state. */
    method Get(key: Key) returns (r: Read<Option<KeyValue>>)
      requires Valid()
      ensures r == Ok(Lookup(ViewOf(hist), key)) == CurrentAnswer(Abs(), key)
    {
      CurrentIsSerial(Abs(), hist, key);
      if key !in db.idx || db.idx[key] == 0 {
        return Ok(None);
      }
      var kv := GetLogEntry(key, db.idx[key]);
      if kv.None? {
        return ErrRowNotFound;
      }
      return Ok(Some(kv.value));
    }

    method GetLogEntry(key: Key, rev: int) returns (r: Option<KeyValue>)
      ensures r == LogEntry(db.log, key, rev)
    {
      if [rev] in db.log {
        return Some(RecordToKV(key, rev, db.log[[rev]]));
      }
      var keys := Scan(db.log, rev, rev + 1);
      var found := FindFirst(keys, key);
      if found.None? {
        return None;
      }
      return Some(RecordToKV(key, rev, db.log[found.value]));
    }

    method FindFirst(keys: seq<Lex.Key>, key: Key) returns (r: Option<Lex.Key>)
      requires forall k :: k in keys ==> k in db.log
      ensures r == FirstRow(db.log, keys, key)
    {
      for i := 0 to |keys|
        invariant FirstRow(db.log, keys, key) == FirstRow(db.log, keys[i..], key)
      {
        assert keys[i..][1..] == keys[i + 1..];
        if db.log[keys[i]].key == key {
          return Some(keys[i]);
        }
      }
      return None;
    }

    /** The revisions other than "current" that reads accept. */
    ghost predicate Permits(revision: int)
      reads this
    {
      revision != 0 && !(compactRev > 0 && revision < compactRev) && revision <= currentRev
    }

    /** A permitted read tells what the stored rows tell, and that is the serial
        state at the revision from the highest compaction target on. */
    method GetAt(key: Key, revision: int) returns (r: Read<Option<KeyValue>>)
      requires Valid()
      ensures r == AnswerAt(Abs(), key, revision)
      ensures revision == 0 ==> r == Ok(Lookup(ViewOf(hist), key))
      ensures revision != 0 && compactRev > 0 && revision < compactRev ==> r == ErrCompacted
      ensures revision > currentRev && !(compactRev > 0 && revision < compactRev) && revision != 0 ==> r == ErrFutureRevision
      ensures Permits(revision) ==> r == Ok(Lookup(StoredView(db.log, revision), key))
      ensures revision > 0 && MaxCompact(hist) <= revision <= currentRev ==> r == Ok(Lookup(ViewAt(hist, revision), key))
    {
      CompactBelowMax(hist);
      var target := ResolveReadRevision(revision);
      if !target.Ok? {
        return match target case ErrCompacted => ErrCompacted case _ => ErrFutureRevision;
      }
      if revision == 0 {
        r := Get(key);
        return;
      }
      StoredLookup(db.log, key, revision);
      if revision > 0 && MaxCompact(hist) <= revision {
        StoredIsSerial(Abs(), hist, revision);
      }
      var kv := GetAtRevision(key, revision);
      return Ok(kv);
    }

    method GetAtRevision(key: Key, rev: int) returns (r: Option<KeyValue>)
      ensures r == ReadAt(db.log, key, rev)
    {
      var keys := Scan(db.log, 0, Unsigned(rev + 1));
      var last := FindLast(keys, key);
      if last.None? {
        return None;
      }
      if db.log[last.value].delete {
        return None;
      }
      return Some(RecordToKV(db.log[last.value].key, last.value[0], db.log[last.value]));
    }

    method FindLast(keys: seq<Lex.Key>, key: Key) returns (r: Option<Lex.Key>)
      requires forall k :: k in keys ==> k in db.log
      ensures r == LastRow(db.log, keys, key)
    {
      var i := |keys|;
      assert keys[..i] == keys;
      while i > 0
        invariant 0 <= i <= |keys|
        invariant LastRow(db.log, keys, key) == LastRow(db.log, keys[..i], key)
      {
        assert keys[..i][..i - 1] == keys[..i - 1];
        i := i - 1;
        if db.log[keys[i]].key == key {
          return Some(keys[i]);
        }
      }
      return None;
    }

    /** A permitted listing is the reference listing of what the stored rows tell,
        and so of the serial state from the highest compaction target on. */
    method ListRange(prefix: Key, revision: int, fromKey: Key, limit: int) returns (r: Read<seq<KeyValue>>)
      requires Valid()
      ensures revision == 0 ==> r == Ok(ListOf(ViewOf(hist), prefix, fromKey, limit))
      ensures revision != 0 && compactRev > 0 && revision < compactRev ==> r == ErrCompacted
      ensures revision > currentRev && !(compactRev > 0 && revision < compactRev) && revision != 0 ==> r == ErrFutureRevision
      ensures Permits(revision) ==> r == Ok(ListOf(StoredView(db.log, revision), prefix, fromKey, limit))
      ensures revision > 0 && MaxCompact(hist) <= revision <= currentRev ==>
                r == Ok(ListOf(ViewAt(hist, revision), prefix, fromKey, limit))
    {
      CompactBelowMax(hist);
      var target := ResolveReadRevision(revision);
      if !target.Ok? {
        return match target case ErrCompacted => ErrCompacted case _ => ErrFutureRevision;
      }
      if revision == 0 {
        r := ListCurrent(prefix, fromKey, limit);
        return;
      }
      if revision > 0 && MaxCompact(hist) <= revision {
        StoredIsSerial(Abs(), hist, revision);
      }
      var out := ListStored(prefix, revision, fromKey, limit);
      return Ok(out);
    }

    /** The historical half of ListRange: fold, sort, skip and cut. */
    method ListStored(prefix: Key, revision: int, fromKey: Key, limit: int) returns (out: seq<KeyValue>)
      requires Valid()
      ensures out == ListOf(StoredView(db.log, revision), prefix, fromKey, limit)
    {
      var latest := FoldLog(Scan(db.log, 1, Unsigned(revision + 1)), prefix);
      ghost var v := StoredView(db.log, revision);
      RepresentedRowsPositive(Abs(), hist);
      StoredFold(db.log, prefix, revision);
      var sorted := SortedNames(latest.Keys);
      FromOnSorted(sorted, fromKey);
      var names := SelectNames(sorted, fromKey, limit);
      FoldListsSame(v, prefix, fromKey);
      out := LookupAll(latest, names);
      ValuesSame(latest, v, names);
    }

    method ListCurrent(prefix: Key, fromKey: Key, limit: int) returns (r: Read<seq<KeyValue>>)
      requires Valid()
      ensures r == Ok(ListOf(ViewOf(hist), prefix, fromKey, limit))
    {
      var names := IterateIndex(prefix, fromKey);
      var out := LookupIndexed(names, limit);
      if out.None? {
        return ErrRowNotFound;
      }
      return Ok(out.value);
    }

    method LookupIndexed(names: seq<Key>, limit: int) returns (out: Option<seq<KeyValue>>)
      requires Valid() && forall k :: k in names ==> k in ViewOf(hist)
      ensures out == Some(Values(ViewOf(hist), Limit(names, limit)))
    {
      var kvs := [];
      for i := 0 to |names|
        invariant limit > 0 ==> i <= limit
        invariant kvs == Values(ViewOf(hist), names[..i]) && |kvs| == i
      {
        if limit > 0 && |kvs| >= limit {
          return Some(kvs);
        }
        ValuesNext(ViewOf(hist), names, i);
        LogEntryIsSerial(Abs(), hist, names[i]);
        var kv := GetLogEntry(names[i], db.idx[names[i]]);
        if kv.None? {
          return None;
        }
        kvs := kvs + [kv.value];
      }
      assert names[..|names|] == names;
      return Some(kvs);
    }

    /** The index iterator of listCurrent and countCurrent. */
    method IterateIndex(prefix: Key, fromKey: Key) returns (names: seq<Key>)
      requires Valid()
      ensures names == SortedNames(set k | k in ViewOf(hist) && Selected(k, prefix, fromKey))
    {
      var lower := LowerBound(prefix, fromKey);
      var upper := ComputeUpperBound(prefix);
      var inRange := set k | k in db.idx && InBounds(k, lower, upper);
      forall k | k in db.idx ensures InBounds(k, lower, upper) <==> Selected(k, prefix, fromKey) {
        BoundsSelect(k, prefix, fromKey);
      }
      assert inRange == set k | k in ViewOf(hist) && Selected(k, prefix, fromKey);
      names := SortedNames(inRange);
    }

    /** The count is the length of the unlimited listing. */
    method CountRange(prefix: Key, revision: int, fromKey: Key) returns (r: Read<int>)
      requires Valid()
      ensures revision == 0 ==> r == Ok(|ListOf(ViewOf(hist), prefix, fromKey, 0)|)
      ensures revision != 0 && compactRev > 0 && revision < compactRev ==> r == ErrCompacted
      ensures revision > currentRev && !(compactRev > 0 && revision < compactRev) && revision != 0 ==> r == ErrFutureRevision
      ensures Permits(revision) ==> r == Ok(|ListOf(StoredView(db.log, revision), prefix, fromKey, 0)|)
      ensures revision > 0 && MaxCompact(hist) <= revision <= currentRev ==>
                r == Ok(|ListOf(ViewAt(hist, revision), prefix, fromKey, 0)|)
    {
      if revision == 0 {
        var names := IterateIndex(prefix, fromKey);
        var n := 0;
        for i := 0 to |names|
          invariant n == i
        {
          n := n + 1;
        }
        ValuesLength(ViewOf(hist), names);
        return Ok(n);
      }
      var list := ListRange(prefix, revision, fromKey, 0);
      match list {
        case Ok(kvs) => return Ok(|kvs|);
        case ErrCompacted => return ErrCompacted;
        case ErrFutureRevision => return ErrFutureRevision;
        case ErrRowNotFound => return ErrRowNotFound;
      }
    }

    method FoldLog(keys: seq<Lex.Key>, prefix: Key) returns (latest: View)
      requires forall k :: k in keys ==> k in db.log && |k| > 0
      ensures latest == Latest(db.log, keys, prefix)
    {
      latest := map[];
      for i := 0 to |keys|
        invariant latest == Latest(db.log, keys[..i], prefix)
      {
        assert keys[..i + 1][..i] == keys[..i];
        var k := keys[i];
        var row := db.log[k];
        if !HasPrefix(row.key, prefix) {
          continue;
        }
        if row.delete {
          latest := latest - {row.key};
          continue;
        }
        latest := latest[row.key := RecordToKV(row.key, k[0], row)];
      }
      assert keys[..|keys|] == keys;
    }
  }

  /** The sorted keys from fromKey on, up to limit of them. */
  method SelectNames(names: seq<Key>, fromKey: Key, limit: int) returns (taken: seq<Key>)
    ensures taken == Limit(FromOn(names, fromKey), limit)
  {
    taken := [];
    for i := 0 to |names|
      invariant taken == FromOn(names[..i], fromKey)
      invariant limit > 0 ==> |taken| <= limit
    {
      assert names[..i + 1][..i] == names[..i];
      var key := names[i];
      if fromKey != [] && Lex.Less(key, fromKey) {
        continue;
      }
      if limit > 0 && |taken| >= limit {
        FromOnPrefix(names, i, fromKey);
        return;
      }
      taken := taken + [key];
    }
    assert names[..|names|] == names;
  }

  method LookupAll(latest: View, names: seq<Key>) returns (out: seq<KeyValue>)
    requires forall k :: k in names ==> k in latest
    ensures out == Values(latest, names)
  {
    out := [];
    for i := 0 to |names|
      invariant out == Values(latest, names[..i])
    {
      assert names[..i + 1][..i] == names[..i];
      out := out + [latest[names[i]]];
    }
    assert names[..|names|] == names;
  }
}

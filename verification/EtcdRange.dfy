/** The etcd Range call: prefix ranges are scanned narrowly and counted or cut
    without looking at values, and must answer as a filter of all keys would. */
module EtcdRange {
  import Lex
  import opened Entries
  import opened Mvcc
  import opened Ranges
  import opened StoreLists
  import opened StoreState
  import opened StoreReads
  import StoreProofs
  import S = Store

  /** "\x00" stands for no upper end. */
  const OPEN: Key := [0]
  /** The prefix "\x00t4/" of the keys kept for the server itself. */
  const INTERNAL: Key := [0, 116, 52, 47]

  predicate IsInternal(k: Key) {
    HasPrefix(k, INTERNAL)
  }

  predicate MatchRange(k: Key, key: Key, end: Key) {
    !IsInternal(k) && Lex.LessEq(key, k) && (end == OPEN || Lex.Less(k, end))
  }

  // ------------------------------------------------------------- prefix ranges

  function RangeEnd(p: Key): (end: Key) {
    match UpperBound(p)
    case Some(u) => u
    case None => OPEN
  }

  method PrefixRangeEnd(prefix: Key) returns (end: Key)
    ensures end == RangeEnd(prefix)
  {
    var i := |prefix| - 1;
    assert prefix[..i + 1] == prefix;
    while i >= 0
      invariant -1 <= i < |prefix| && UpperBound(prefix) == UpperBound(prefix[..i + 1])
    {
      assert prefix[..i + 1][..i] == prefix[..i];
      if prefix[i] < 255 {
        return prefix[..i] + [prefix[i] + 1];
      }
      i := i - 1;
    }
    assert prefix[..0] == [];
    return OPEN;
  }

  lemma {:induction false} BoundIsNotOpen(p: Key)
    ensures UpperBound(p).Some? ==> UpperBound(p).value != OPEN
  {
    if p != [] {
      var n := |p| - 1;
      if p[n] < 255 {
        assert UpperBound(p).value[n] == p[n] + 1;
      } else {
        BoundIsNotOpen(p[..n]);
      }
    }
  }

  /** A key has prefix p exactly when it lies in [p, RangeEnd(p)), where "\x00" is
      the open end. */
  lemma PrefixIsRange(k: Key, p: Key)
    ensures HasPrefix(k, p) <==> Lex.LessEq(p, k) && (RangeEnd(p) == OPEN || Lex.Less(k, RangeEnd(p)))
  {
    PrefixIffInRange(k, p);
    BoundIsNotOpen(p);
  }

  function ScanPrefix(key: Key, end: Key): (p: Key) {
    if RangeEnd(key) == end then key else []
  }

  predicate ExactPrefix(key: Key, end: Key) {
    key != [] && key[0] != 0 && RangeEnd(key) == end
  }

  /** Narrowing the scan loses no match. */
  lemma ScanCoversMatches(k: Key, key: Key, end: Key)
    requires MatchRange(k, key, end)
    ensures HasPrefix(k, ScanPrefix(key, end))
  {
    PrefixIsRange(k, key);
  }

  /** On an exact prefix range the prefix decides alone. */
  lemma ExactPrefixDecides(k: Key, key: Key, end: Key)
    requires ExactPrefix(key, end)
    ensures MatchRange(k, key, end) <==> HasPrefix(k, key)
  {
    PrefixIsRange(k, key);
    if HasPrefix(k, key) {
      assert k[0] == k[..|key|][0] == key[0];
    }
  }

  /** watchScan: the prefix to watch, and which keys to report. */
  predicate WatchMatches(k: Key, key: Key, end: Key) {
    if end == [] then k == key else Lex.LessEq(key, k) && (end == OPEN || Lex.Less(k, end))
  }

  function WatchPrefix(key: Key, end: Key): (p: Key) {
    if end == [] then key else ScanPrefix(key, end)
  }

  /** No key the watch asks for lies outside the watched prefix. */
  lemma WatchScanCovers(k: Key, key: Key, end: Key)
    requires WatchMatches(k, key, end)
    ensures HasPrefix(k, WatchPrefix(key, end))
  {
    if end != [] { PrefixIsRange(k, key); }
  }

  // ------------------------------------------------------------- the reference

  datatype Response = Response(kvs: seq<KeyValue>, count: int, more: bool)

  function Stripped(kvs: seq<KeyValue>, keysOnly: bool): (r: seq<KeyValue>) {
    seq(|kvs|, i requires 0 <= i < |kvs| => if keysOnly then kvs[i].(value := []) else kvs[i])
  }

  function Matches(v: View, key: Key, end: Key): (names: seq<Key>)
    ensures forall k :: k in names ==> k in v
  {
    SortedNames(set k | k in v && (if end == [] then k == key && !IsInternal(k) else MatchRange(k, key, end)))
  }

  /** Every live key is looked at, in order. */
  function Reference(v: View, key: Key, end: Key, limit: int, countOnly: bool, keysOnly: bool): (r: Response) {
    var names := Matches(v, key, end);
    if countOnly then Response([], |names|, false)
    else if end == [] then Response(Stripped(Values(v, names), keysOnly), |names|, false)
    else Response(Stripped(Values(v, Limit(names, limit)), keysOnly), |names|, limit > 0 && |names| > limit)
  }

  // -------------------------------------------------------- filtering a listing

  /** The entries of a listing that match. */
  function Filter(kvs: seq<KeyValue>, key: Key, end: Key): (r: seq<KeyValue>) {
    if kvs == [] then []
    else
      Filter(kvs[..|kvs| - 1], key, end) + if MatchRange(kvs[|kvs| - 1].key, key, end) then [kvs[|kvs| - 1]] else []
  }

  function FilterNames(names: seq<Key>, key: Key, end: Key): (r: seq<Key>)
    ensures forall k :: k in r <==> k in names && MatchRange(k, key, end)
  {
    if names == [] then []
    else
      FilterNames(names[..|names| - 1], key, end) +
      if MatchRange(names[|names| - 1], key, end) then [names[|names| - 1]] else []
  }

  lemma {:induction false} FilterSorted(names: seq<Key>, key: Key, end: Key)
    requires Lex.Sorted(names)
    ensures Lex.Sorted(FilterNames(names, key, end))
  {
    if names != [] {
      var init, k := names[..|names| - 1], names[|names| - 1];
      FilterSorted(init, key, end);
      var f := FilterNames(init, key, end);
      forall i | 0 <= i < |f| ensures Lex.Less(f[i], k) {
        assert f[i] in init;
      }
    }
  }

  ghost predicate Keyed(v: View) {
    forall k :: k in v ==> v[k].key == k
  }

  lemma {:induction false} FilterValues(v: View, names: seq<Key>, key: Key, end: Key)
    requires Keyed(v) && forall k :: k in names ==> k in v
    ensures Filter(Values(v, names), key, end) == Values(v, FilterNames(names, key, end))
  {
    if names != [] {
      var init, k := names[..|names| - 1], names[|names| - 1];
      FilterValues(v, init, key, end);
      var vs := Values(v, names);
      assert vs[..|vs| - 1] == Values(v, init) && vs[|vs| - 1] == v[k];
      var f := FilterNames(init, key, end);
      assert (f + [k])[..|f + [k]| - 1] == f;
      if MatchRange(k, key, end) {
        assert FilterNames(names, key, end) == f + [k];
      } else {
        assert FilterNames(names, key, end) == f + [] == f;
        assert Filter(vs, key, end) == Filter(Values(v, init), key, end) + [];
      }
    }
  }

  /** All keys with the scan prefix. */
  function Listed(v: View, key: Key, end: Key): (names: seq<Key>)
    ensures forall k :: k in names ==> k in v
  {
    SortedNames(set k | k in v && Selected(k, ScanPrefix(key, end), []))
  }

  /** Filtering the narrow listing gives what filtering everything would. */
  lemma NarrowIsEnough(v: View, key: Key, end: Key)
    requires end != []
    ensures FilterNames(Listed(v, key, end), key, end) == Matches(v, key, end)
  {
    var l, m := Listed(v, key, end), Matches(v, key, end);
    FilterSorted(l, key, end);
    forall k | k in v && MatchRange(k, key, end) ensures k in l {
      ScanCoversMatches(k, key, end);
    }
    Lex.SortedUnique(FilterNames(l, key, end), m);
  }

  /** On an exact prefix range nothing needs filtering. */
  lemma ExactNeedsNoFilter(v: View, key: Key, end: Key)
    requires ExactPrefix(key, end) && end != []
    ensures Listed(v, key, end) == Matches(v, key, end)
  {
    var l, m := Listed(v, key, end), Matches(v, key, end);
    forall k | k in v ensures MatchRange(k, key, end) <==> Selected(k, ScanPrefix(key, end), []) {
      ExactPrefixDecides(k, key, end);
    }
    assert forall k :: k in l <==> k in m;
    Lex.SortedUnique(l, m);
  }

  // ------------------------------------------------------------------ the states read

  lemma {:induction false} AppliedKeyed(v: View, rev: int, ops: seq<SubOp>)
    requires Keyed(v)
    ensures Keyed(ApplySubs(v, rev, ops))
  {
    if ops != [] { AppliedKeyed(v, rev, ops[..|ops| - 1]); }
  }

  lemma {:induction false} LatestKeyed(log: Log, keys: seq<Lex.Key>, prefix: Key)
    requires forall k :: k in keys ==> k in log && |k| > 0
    ensures Keyed(Latest(log, keys, prefix))
  {
    if keys != [] { LatestKeyed(log, keys[..|keys| - 1], prefix); }
  }

  lemma {:induction false} ViewOfKeyed(es: seq<Entry>)
    ensures Keyed(ViewOf(es))
  {
    if es != [] {
      ViewOfKeyed(es[..|es| - 1]);
      AppliedKeyed(ViewOf(es[..|es| - 1]), es[|es| - 1].revision, SubOps(es[|es| - 1]));
    }
  }

  /** The state a read at revision sees; 0 means the current one. */
  ghost function ReadView(db: S.Store, revision: int): (v: View)
    reads db
    ensures Keyed(v)
  {
    LatestKeyed(db.db.log, Scan(db.db.log, 0, Unsigned(revision + 1)), []);
    ViewOfKeyed(db.hist);
    if revision == 0 then ViewOf(db.hist) else StoredView(db.db.log, revision)
  }

  ghost predicate Readable(db: S.Store, revision: int)
    reads db
  {
    revision == 0 || (revision > 0 && db.Permits(revision))
  }

  ghost predicate Compacted(db: S.Store, revision: int)
    reads db
  {
    revision > 0 && db.compactRev > 0 && revision < db.compactRev
  }

  ghost predicate Future(db: S.Store, revision: int)
    reads db
  {
    revision > 0 && revision > db.currentRev && !Compacted(db, revision)
  }

  // ------------------------------------------------------------------- the call

  method Strip(kvs: seq<KeyValue>, keysOnly: bool) returns (r: seq<KeyValue>)
    ensures r == Stripped(kvs, keysOnly)
  {
    r := [];
    for i := 0 to |kvs|
      invariant r == Stripped(kvs[..i], keysOnly)
    {
      r := r + [if keysOnly then kvs[i].(value := []) else kvs[i]];
    }
    assert kvs[..|kvs|] == kvs;
  }

  function Cut(kvs: seq<KeyValue>, limit: int): (r: seq<KeyValue>) {
    if limit > 0 && |kvs| > limit then kvs[..limit] else kvs
  }

  lemma {:induction false} ValuesFront(v: View, names: seq<Key>, n: nat)
    requires n <= |names| && forall k :: k in names ==> k in v
    ensures |Values(v, names)| == |names| && Values(v, names)[..n] == Values(v, names[..n])
  {
    ValuesLength(v, names);
    if n < |names| {
      ValuesFront(v, names[..|names| - 1], n);
      assert names[..|names| - 1][..n] == names[..n];
      assert Values(v, names)[..n] == Values(v, names[..|names| - 1])[..n];
    } else {
      assert names[..n] == names;
      assert Values(v, names)[..n] == Values(v, names);
    }
  }

  lemma ValuesCut(v: View, names: seq<Key>, limit: int)
    requires forall k :: k in names ==> k in v
    ensures Cut(Values(v, names), limit) == Values(v, Limit(names, limit)) && |Values(v, names)| == |names|
  {
    ValuesLength(v, names);
    if limit > 0 && |names| > limit { ValuesFront(v, names, limit); }
  }

  /** The matching entries of a listing, cut at limit, and how many match. */
  method CollectMatching(all: seq<KeyValue>, key: Key, end: Key, limit: int) returns (kvs: seq<KeyValue>, total: int)
    ensures total == |Filter(all, key, end)| && kvs == Cut(Filter(all, key, end), limit)
  {
    kvs, total := [], 0;
    for i := 0 to |all|
      invariant total == |Filter(all[..i], key, end)| && kvs == Cut(Filter(all[..i], key, end), limit)
    {
      assert all[..i + 1][..i] == all[..i];
      if !MatchRange(all[i].key, key, end) {
        assert Filter(all[..i + 1], key, end) == Filter(all[..i], key, end) + [];
        continue;
      }
      total := total + 1;
      if limit > 0 && |kvs| >= limit {
        continue;
      }
      kvs := kvs + [all[i]];
    }
    assert all[..|all|] == all;
  }

  lemma ExactReference(v: View, key: Key, end: Key, limit: int)
    requires ExactPrefix(key, end) && end != []
    ensures ListOf(v, key, [], limit) == Values(v, Limit(Matches(v, key, end), limit))
    ensures |ListOf(v, key, [], 0)| == |Matches(v, key, end)|
  {
    ExactNeedsNoFilter(v, key, end);
    ValuesLength(v, Matches(v, key, end));
  }

  // rangeCount, rangeList and rangeGet.

  method CountAt(db: S.Store, prefix: Key, revision: int) returns (r: Read<int>)
    requires db.Valid()
    ensures Readable(db, revision) ==> r == Ok(|ListOf(ReadView(db, revision), prefix, [], 0)|)
    ensures Future(db, revision) ==> r == ErrFutureRevision
  {
    r := db.CountRange(prefix, revision, []);
  }

  method ListAt(db: S.Store, prefix: Key, revision: int, limit: int) returns (r: Read<seq<KeyValue>>)
    requires db.Valid()
    ensures Readable(db, revision) ==> r == Ok(ListOf(ReadView(db, revision), prefix, [], limit))
    ensures Future(db, revision) ==> r == ErrFutureRevision
  {
    r := db.ListRange(prefix, revision, [], limit);
  }

  method OneAt(db: S.Store, key: Key, revision: int) returns (r: Read<Option<KeyValue>>)
    requires db.Valid()
    ensures Readable(db, revision) ==> r == Ok(Lookup(ReadView(db, revision), key))
    ensures Future(db, revision) ==> r == ErrFutureRevision
  {
    r := db.GetAt(key, revision);
  }

  /** The fast path: the prefix decides, so counting and cutting need no filter. */
  method RangeExact(db: S.Store, key: Key, end: Key, revision: int, limit: int, countOnly: bool, keysOnly: bool)
    returns (r: Read<Response>)
    requires db.Valid() && ExactPrefix(key, end) && end != [] && (countOnly || limit > 0)
    ensures Readable(db, revision) ==> r == Ok(Reference(ReadView(db, revision), key, end, limit, countOnly, keysOnly))
    ensures Future(db, revision) ==> r == ErrFutureRevision
  {
    ExactReference(ReadView(db, revision), key, end, limit);
    var total := CountAt(db, key, revision);
    if !total.Ok? {
      return Failed(total);
    }
    if countOnly {
      return Ok(Response([], total.value, false));
    }
    var all := ListAt(db, key, revision, limit);
    if !all.Ok? {
      return Failed(all);
    }
    var kvs := Strip(all.value, keysOnly);
    return Ok(Response(kvs, total.value, total.value > limit));
  }

  function Failed<T>(r: Read<T>): (r': Read<Response>)
    requires !r.Ok?
  {
    match r
    case ErrCompacted => ErrCompacted
    case ErrFutureRevision => ErrFutureRevision
    case ErrRowNotFound => ErrRowNotFound
  }

  lemma FilteredReference(v: View, key: Key, end: Key, limit: int)
    requires Keyed(v) && end != []
    ensures var f := Filter(ListOf(v, ScanPrefix(key, end), [], 0), key, end);
            |f| == |Matches(v, key, end)| && Cut(f, limit) == Values(v, Limit(Matches(v, key, end), limit))
  {
    FilterValues(v, Listed(v, key, end), key, end);
    NarrowIsEnough(v, key, end);
    ValuesCut(v, Matches(v, key, end), limit);
  }

  method RangeFiltered(db: S.Store, key: Key, end: Key, revision: int, limit: int, countOnly: bool, keysOnly: bool)
    returns (r: Read<Response>)
    requires db.Valid() && end != []
    ensures Readable(db, revision) ==> r == Ok(Reference(ReadView(db, revision), key, end, limit, countOnly, keysOnly))
    ensures Future(db, revision) ==> r == ErrFutureRevision
  {
    FilteredReference(ReadView(db, revision), key, end, limit);
    var all := ListAt(db, ScanPrefix(key, end), revision, 0);
    if !all.Ok? {
      return Failed(all);
    }
    var kvs, total := CollectMatching(all.value, key, end, limit);
    if countOnly {
      return Ok(Response([], total, false));
    }
    kvs := Strip(kvs, keysOnly);
    return Ok(Response(kvs, total, limit > 0 && total > limit));
  }

  lemma OneReference(v: View, key: Key)
    ensures Matches(v, key, []) == if key in v && !IsInternal(key) then [key] else []
  {
    var names: seq<Key> := if key in v && !IsInternal(key) then [key] else [];
    assert forall k :: k in Matches(v, key, []) <==> k in names;
    Lex.SortedUnique(names, Matches(v, key, []));
  }

  method RangeOne(db: S.Store, key: Key, revision: int, limit: int, countOnly: bool, keysOnly: bool)
    returns (r: Read<Response>)
    requires db.Valid()
    ensures Readable(db, revision) ==> r == Ok(Reference(ReadView(db, revision), key, [], limit, countOnly, keysOnly))
    ensures Future(db, revision) && !IsInternal(key) ==> r == ErrFutureRevision
  {
    ghost var v := ReadView(db, revision);
    OneReference(v, key);
    assert Stripped(Values(v, []), keysOnly) == [];
    if IsInternal(key) {
      return Ok(Response([], 0, false));
    }
    var kv := OneAt(db, key, revision);
    if !kv.Ok? {
      return Failed(kv);
    }
    if countOnly {
      return Ok(Response([], if kv.value.Some? then 1 else 0, false));
    }
    if kv.value.None? {
      return Ok(Response([], 0, false));
    }
    assert [key][..0] == [];
    assert key in v ==> Values(v, [key]) == [v[key]];
    var kvs := Strip([kv.value.value], keysOnly);
    return Ok(Response(kvs, 1, false));
  }

  // ------------------------------------------------------- revisions on the wire

  /** Wire revisions are one above the store's, so that none is 0. */
  function ToEtcd(rev: int): (wire: int) {
    rev + 1
  }

  function FromEtcd(wire: int): (rev: int) {
    if wire <= 0 then 0 else wire - 1
  }

  datatype WireKV = WireKV(key: Key, value: Value, modRevision: int, createRevision: int, lease: int, version: int)

  datatype WireResponse = WireResponse(revision: int, kvs: seq<WireKV>, count: int, more: bool)

  function OnWire(kv: KeyValue): (w: WireKV) {
    WireKV(kv.key, kv.value, ToEtcd(kv.revision), ToEtcd(kv.createRev), kv.lease, if kv.version <= 0 then 1 else kv.version)
  }

  function AllOnWire(kvs: seq<KeyValue>): (ws: seq<WireKV>) {
    seq(|kvs|, i requires 0 <= i < |kvs| => OnWire(kvs[i]))
  }

  /** The answer to a request for a wire revision, 0 or less meaning the current
      one: the header names the revision that was read. */
  function WireAnswer(ref: Response, currentRev: int, wire: int): (r: WireResponse) {
    WireResponse(if wire <= 0 then ToEtcd(currentRev) else wire, AllOnWire(ref.kvs), ref.count, ref.more)
  }

  /** The state at a wire revision; the first one comes before every write. */
  ghost function WireView(db: S.Store, wire: int): (v: View)
    reads db
  {
    if wire == 1 then map[] else ReadView(db, FromEtcd(wire))
  }

  ghost predicate WireCompacted(db: S.Store, wire: int)
    reads db
  {
    wire > 0 && db.compactRev > 0 && wire - 1 < db.compactRev
  }

  lemma EmptyReference(key: Key, end: Key, limit: int, countOnly: bool, keysOnly: bool)
    ensures Reference(map[], key, end, limit, countOnly, keysOnly) == Response([], 0, false)
  {
    assert Matches(map[], key, end) == [];
  }

  lemma EmptyAnswer(currentRev: int, key: Key, end: Key, limit: int, countOnly: bool, keysOnly: bool)
    ensures WireAnswer(Reference(map[], key, end, limit, countOnly, keysOnly), currentRev, 1) == WireResponse(1, [], 0, false)
  {
    EmptyReference(key, end, limit, countOnly, keysOnly);
    assert AllOnWire([]) == [];
  }

  lemma {:induction false} NothingBeforeFirst(es: seq<Entry>)
    requires ValidLog(es)
    ensures ViewAt(es, 0) == map[]
  {
    if es != [] {
      NothingBeforeFirst(es[..|es| - 1]);
      StoreProofs.CountersNonNegative(es[..|es| - 1]);
    }
  }

  /** A wire revision at or above every compaction target reads the serial state
      before it. */
  lemma WireViewIsSerial(db: S.Store, wire: int)
    requires db.Valid() && wire >= 1 && MaxCompact(db.hist) <= wire - 1
    ensures WireView(db, wire) == ViewAt(db.hist, wire - 1)
  {
    if wire == 1 {
      NothingBeforeFirst(db.hist);
    } else {
      StoredIsSerial(db.Abs(), db.hist, wire - 1);
    }
  }

  /** Range answers as looking at every live key would, at the revision asked for. */
  method Range(db: S.Store, key: Key, end: Key, wire: int, limit: int, countOnly: bool, keysOnly: bool)
    returns (r: Read<WireResponse>)
    requires db.Valid()
    ensures WireCompacted(db, wire) ==> r == ErrCompacted
    ensures Future(db, wire - 1) && !(end == [] && IsInternal(key)) ==> r == ErrFutureRevision
    ensures !WireCompacted(db, wire) && wire - 1 <= db.currentRev ==>
              r == Ok(WireAnswer(Reference(WireView(db, wire), key, end, limit, countOnly, keysOnly), db.currentRev, wire))
  {
    var readRev := FromEtcd(wire);
    if wire > 0 {
      if db.compactRev > 0 && readRev < db.compactRev {
        return ErrCompacted;
      }
      if readRev == 0 {
        EmptyAnswer(db.currentRev, key, end, limit, countOnly, keysOnly);
        return Ok(WireResponse(ToEtcd(0), [], 0, false));
      }
    }
    r := RangeOnWire(db, key, end, wire, limit, countOnly, keysOnly);
  }

  /** The rest of Range: read, and convert the answer. */
  method RangeOnWire(db: S.Store, key: Key, end: Key, wire: int, limit: int, countOnly: bool, keysOnly: bool)
    returns (r: Read<WireResponse>)
    requires db.Valid() && wire != 1 && !WireCompacted(db, wire)
    ensures Future(db, wire - 1) && !(end == [] && IsInternal(key)) ==> r == ErrFutureRevision
    ensures wire - 1 <= db.currentRev ==>
              r == Ok(WireAnswer(Reference(WireView(db, wire), key, end, limit, countOnly, keysOnly), db.currentRev, wire))
  {
    var readRev := FromEtcd(wire);
    assert wire - 1 <= db.currentRev ==> Readable(db, readRev);
    var answer := RangeAt(db, key, end, readRev, limit, countOnly, keysOnly);
    if !answer.Ok? {
      return FailedWire(answer);
    }
    var kvs := Convert(answer.value.kvs);
    return Ok(WireResponse(ToEtcd(if readRev > 0 then readRev else db.currentRev), kvs, answer.value.count, answer.value.more));
  }

  function FailedWire<T>(r: Read<T>): (r': Read<WireResponse>)
    requires !r.Ok?
  {
    match r
    case ErrCompacted => ErrCompacted
    case ErrFutureRevision => ErrFutureRevision
    case ErrRowNotFound => ErrRowNotFound
  }

  method Convert(kvs: seq<KeyValue>) returns (ws: seq<WireKV>)
    ensures ws == AllOnWire(kvs)
  {
    ws := [];
    for i := 0 to |kvs|
      invariant ws == AllOnWire(kvs[..i])
    {
      ws := ws + [OnWire(kvs[i])];
    }
    assert kvs[..|kvs|] == kvs;
  }

  /** The read paths of Range, at a revision of the store. */
  method RangeAt(db: S.Store, key: Key, end: Key, revision: int, limit: int, countOnly: bool, keysOnly: bool)
    returns (r: Read<Response>)
    requires db.Valid()
    ensures Future(db, revision) && !(end == [] && IsInternal(key)) ==> r == ErrFutureRevision
    ensures Readable(db, revision) ==> r == Ok(Reference(ReadView(db, revision), key, end, limit, countOnly, keysOnly))
  {
    if end == [] {
      r := RangeOne(db, key, revision, limit, countOnly, keysOnly);
      return;
    }
    var rangeEnd := PrefixRangeEnd(key);
    if key != [] && key[0] != 0 && rangeEnd == end && (countOnly || limit > 0) {
      r := RangeExact(db, key, end, revision, limit, countOnly, keysOnly);
    } else {
      r := RangeFiltered(db, key, end, revision, limit, countOnly, keysOnly);
    }
  }
}

/** Range reads: sorted listings of live keys by prefix, lower bound and limit. */
module StoreLists {
  import Lex
  import opened Entries
  import opened Mvcc
  import opened StoreState
  import opened StoreProofs
  import opened StoreReads
  import opened Ranges

  /** Key names in lexicographic order. */
  function SortedNames(s: set<Key>): (r: seq<Key>)
    ensures Lex.Sorted(r)
    ensures forall k :: k in r <==> k in s
    ensures |r| == |s|
    decreases |s|
  {
    if s == {} then [] else
      var k: Key := Lex.Least(s);
      var rest := SortedNames(s - {k});
      assert forall i :: 0 <= i < |rest| ==> rest[i] in s - {k};
      [k] + rest
  }

  predicate Selected(k: Key, prefix: Key, fromKey: Key) {
    HasPrefix(k, prefix) && (fromKey == [] || Lex.LessEq(fromKey, k))
  }

  function Limit(s: seq<Key>, limit: int): (r: seq<Key>)
    ensures forall k :: k in r ==> k in s
  {
    if limit > 0 && |s| > limit then s[..limit] else s
  }

  function Values(v: View, names: seq<Key>): (r: seq<KeyValue>)
    requires forall k :: k in names ==> k in v
  {
    if names == [] then [] else Values(v, names[..|names| - 1]) + [v[names[|names| - 1]]]
  }

  lemma ValuesNext(v: View, names: seq<Key>, i: nat)
    requires i < |names| && forall k :: k in names ==> k in v
    ensures Values(v, names[..i + 1]) == Values(v, names[..i]) + [v[names[i]]]
  {
    assert names[..i + 1][..i] == names[..i];
  }

  /** The reference listing: the live keys that match, in order, cut at limit. */
  function ListOf(v: View, prefix: Key, fromKey: Key, limit: int): (r: seq<KeyValue>) {
    Values(v, Limit(SortedNames(set k | k in v && Selected(k, prefix, fromKey)), limit))
  }

  // ------------------------------------------------------ index iteration bounds

  function LowerBound(prefix: Key, fromKey: Key): (lower: Key) {
    if fromKey != [] && Lex.Less(prefix, fromKey) then fromKey else prefix
  }

  predicate InBounds(k: Key, lower: Key, upper: Option<Key>) {
    Lex.LessEq(lower, k) && (upper.Some? ==> Lex.Less(k, upper.value))
  }

  /** Iterating the index between its bounds visits exactly the selected keys. */
  lemma BoundsSelect(k: Key, prefix: Key, fromKey: Key)
    ensures InBounds(k, LowerBound(prefix, fromKey), UpperBound(prefix)) <==> Selected(k, prefix, fromKey)
  {
    PrefixIffInRange(k, prefix);
    Lex.LessTotal(prefix, fromKey);
    if Lex.Less(prefix, fromKey) && Lex.Less(k, prefix) {
      Lex.LessTransitive(k, prefix, fromKey);
    }
    if Lex.Less(fromKey, prefix) && Lex.Less(k, fromKey) {
      Lex.LessTransitive(k, fromKey, prefix);
    }
  }

  // ---------------------------------------------------------------- the log fold

  /** The map ListRange builds from the scanned rows, oldest first. */
  function Latest(log: Log, keys: seq<Lex.Key>, prefix: Key): (m: View)
    requires forall k :: k in keys ==> k in log && |k| > 0
  {
    if keys == [] then map[]
    else
      var k := keys[|keys| - 1];
      var m := Latest(log, keys[..|keys| - 1], prefix);
      if !HasPrefix(log[k].key, prefix) then m
      else if log[k].delete then m - {log[k].key}
      else m[log[k].key := RecordToKV(log[k].key, k[0], log[k])]
  }

  lemma {:induction false} LatestLookup(log: Log, keys: seq<Lex.Key>, prefix: Key, key: Key)
    requires forall k :: k in keys ==> k in log && |k| > 0
    ensures var r := LastRow(log, keys, key);
            Lookup(Latest(log, keys, prefix), key) ==
            if HasPrefix(key, prefix) && r.Some? then RowValue(log, r.value) else None
  {
    if keys != [] {
      LatestLookup(log, keys[..|keys| - 1], prefix, key);
    }
  }

  function WithPrefix(v: View, prefix: Key): (r: View) {
    map k | k in v && HasPrefix(k, prefix) :: v[k]
  }

  /** What the stored rows say at a revision, whether or not compaction spared
      the rows that matter there. */
  function StoredView(log: Log, rev: int): (v: View) {
    Latest(log, Scan(log, 0, Unsigned(rev + 1)), [])
  }

  /** Point reads and the fold tell the same. */
  lemma StoredLookup(log: Log, key: Key, rev: int)
    ensures Lookup(StoredView(log, rev), key) == ReadAt(log, key, rev)
  {
    LatestLookup(log, Scan(log, 0, Unsigned(rev + 1)), [], key);
  }

  lemma StoredFold(log: Log, prefix: Key, rev: int)
    requires PositiveRows(log)
    ensures Latest(log, Scan(log, 1, Unsigned(rev + 1)), prefix) == WithPrefix(StoredView(log, rev), prefix)
  {
    var keys, keys0 := Scan(log, 1, Unsigned(rev + 1)), Scan(log, 0, Unsigned(rev + 1));
    Lex.SortedUnique(keys, keys0);
    var m, v := Latest(log, keys, prefix), WithPrefix(StoredView(log, rev), prefix);
    forall key: Key ensures Lookup(m, key) == Lookup(v, key) {
      LatestLookup(log, keys, prefix, key);
      StoredLookup(log, key, rev);
    }
    SameLookups(m, v);
  }

  /** From the highest compaction target on, the stored rows tell the serial state. */
  lemma StoredIsSerial(s: State, es: seq<Entry>, rev: int)
    requires Represents(s, es) && rev >= MaxCompact(es) && rev >= 0
    ensures StoredView(s.db.log, rev) == ViewAt(es, rev)
  {
    forall key: Key ensures Lookup(StoredView(s.db.log, rev), key) == Lookup(ViewAt(es, rev), key) {
      StoredLookup(s.db.log, key, rev);
      ReadAtIsSerial(s, es, key, rev);
    }
    SameLookups(StoredView(s.db.log, rev), ViewAt(es, rev));
  }

  /** The fold over a compacted log is the serial state at the revision. */
  lemma LatestIsSerial(s: State, es: seq<Entry>, prefix: Key, rev: int)
    requires Represents(s, es) && rev >= MaxCompact(es) && rev >= 0
    ensures Latest(s.db.log, Scan(s.db.log, 1, Unsigned(rev + 1)), prefix) == WithPrefix(ViewAt(es, rev), prefix)
  {
    RepresentedRowsPositive(s, es);
    StoredFold(s.db.log, prefix, rev);
    StoredIsSerial(s, es, rev);
  }

  function FromOn(names: seq<Key>, fromKey: Key): (r: seq<Key>) {
    if names == [] then []
    else
      var k := names[|names| - 1];
      var init := FromOn(names[..|names| - 1], fromKey);
      if fromKey != [] && Lex.Less(k, fromKey) then init else init + [k]
  }

  lemma {:induction false} FromOnSorted(names: seq<Key>, fromKey: Key)
    requires Lex.Sorted(names)
    ensures Lex.Sorted(FromOn(names, fromKey))
    ensures forall k :: k in FromOn(names, fromKey) <==> k in names && (fromKey == [] || Lex.LessEq(fromKey, k))
  {
    if names != [] {
      var init, k := names[..|names| - 1], names[|names| - 1];
      FromOnSorted(init, fromKey);
      assert names == init + [k];
      var r := FromOn(init, fromKey);
      forall i | 0 <= i < |r| ensures Lex.Less(r[i], k) {
        assert r[i] in init;
      }
    }
  }

  /** Sorting the folded keys and skipping those below fromKey gives the reference listing. */
  lemma FoldListsSame(v: View, prefix: Key, fromKey: Key)
    ensures FromOn(SortedNames(WithPrefix(v, prefix).Keys), fromKey) == SortedNames(set k | k in v && Selected(k, prefix, fromKey))
  {
    var names := SortedNames(WithPrefix(v, prefix).Keys);
    FromOnSorted(names, fromKey);
    Lex.SortedUnique(FromOn(names, fromKey), SortedNames(set k | k in v && Selected(k, prefix, fromKey)));
  }

  lemma {:induction false} ValuesSame(a: View, b: View, names: seq<Key>)
    requires forall k :: k in names ==> k in a && k in b && a[k] == b[k]
    ensures Values(a, names) == Values(b, names)
  {
    if names != [] { ValuesSame(a, b, names[..|names| - 1]); }
  }

  lemma {:induction false} ValuesLength(v: View, names: seq<Key>)
    requires forall k :: k in names ==> k in v
    ensures |Values(v, names)| == |names|
  {
    if names != [] { ValuesLength(v, names[..|names| - 1]); }
  }

  /** What comes later only extends the listing. */
  lemma {:induction false} FromOnPrefix(names: seq<Key>, i: nat, fromKey: Key)
    requires i <= |names|
    ensures FromOn(names[..i], fromKey) <= FromOn(names, fromKey)
    decreases |names|
  {
    if i < |names| {
      var init := names[..|names| - 1];
      assert init[..i] == names[..i];
      FromOnPrefix(init, i, fromKey);
    } else {
      assert names[..i] == names;
    }
  }
}

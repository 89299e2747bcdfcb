/** Lexicographic order on integer sequences, and the sorted listing of a set
    of keys.  Object-store listings, Pebble iterators and etcd key ranges all
    visit keys in this order. */
module Lex {

  type Key = seq<int>

  /** a sorts strictly before b. */
  predicate Less(a: Key, b: Key)
    decreases |a|
  {
    |b| > 0 && (|a| == 0 || a[0] < b[0] || (a[0] == b[0] && Less(a[1..], b[1..])))
  }

  predicate LessEq(a: Key, b: Key) {
    !Less(b, a)
  }

  lemma {:induction false} LessIrreflexive(a: Key)
    ensures !Less(a, a)
    decreases |a|
  {
    if |a| > 0 {
      LessIrreflexive(a[1..]);
    }
  }

  lemma {:induction false} LessTransitive(a: Key, b: Key, c: Key)
    requires Less(a, b) && Less(b, c)
    ensures Less(a, c)
    decreases |a|
  {
    if |a| > 0 && a[0] == b[0] == c[0] {
      LessTransitive(a[1..], b[1..], c[1..]);
    }
  }

  lemma {:induction false} LessTotal(a: Key, b: Key)
    ensures a == b || Less(a, b) || Less(b, a)
    decreases |a|
  {
    if |a| > 0 && |b| > 0 && a[0] == b[0] {
      LessTotal(a[1..], b[1..]);
      assert a == [a[0]] + a[1..] && b == [b[0]] + b[1..];
    }
  }

  lemma LessAsymmetric(a: Key, b: Key)
    requires Less(a, b)
    ensures !Less(b, a)
  {
    if Less(b, a) {
      LessTransitive(a, b, a);
      LessIrreflexive(a);
    }
  }

  lemma LessPair(a: Key, b: Key)
    requires |a| == 2 && |b| == 2
    ensures Less(a, b) <==> a[0] < b[0] || (a[0] == b[0] && a[1] < b[1])
  {
    var a', b' := a[1..], b[1..];
    assert Less(a', b') <==> a'[0] < b'[0] || (a'[0] == b'[0] && Less(a'[1..], b'[1..]));
    assert !Less(a'[1..], b'[1..]);
  }

  predicate Sorted(s: seq<Key>) {
    forall i, j :: 0 <= i < j < |s| ==> Less(s[i], s[j])
  }

  predicate IsLeast(k: Key, s: set<Key>) {
    k in s && forall x :: x in s ==> x == k || Less(k, x)
  }

  lemma {:induction false} LeastExists(s: set<Key>)
    requires s != {}
    ensures exists k :: IsLeast(k, s)
    decreases |s|
  {
    var x :| x in s;
    if s == {x} {
      assert IsLeast(x, s);
    } else {
      var rest := s - {x};
      LeastExists(rest);
      var m :| IsLeast(m, rest);
      LessTotal(x, m);
      if Less(x, m) {
        forall y | y in s ensures y == x || Less(x, y) {
          if y != x && y != m { LessTransitive(x, m, y); }
        }
        assert IsLeast(x, s);
      } else {
        assert IsLeast(m, s);
      }
    }
  }

  lemma LeastUnique(s: set<Key>)
    ensures forall a, b :: IsLeast(a, s) && IsLeast(b, s) ==> a == b
  {
    forall a, b | IsLeast(a, s) && IsLeast(b, s) ensures a == b {
      if a != b { LessAsymmetric(a, b); }
    }
  }

  function Least(s: set<Key>): (k: Key)
    requires s != {}
    ensures IsLeast(k, s)
  {
    LeastExists(s);
    LeastUnique(s);
    var k :| k in s && IsLeast(k, s);
    k
  }

  /** The keys of s in ascending order, as List and the Pebble iterators return them. */
  function SortedKeys(s: set<Key>): (r: seq<Key>)
    ensures Sorted(r)
    ensures forall k :: k in r <==> k in s
    ensures |r| == |s|
    decreases |s|
  {
    if s == {} then [] else
      var k := Least(s);
      var rest := SortedKeys(s - {k});
      assert forall i :: 0 <= i < |rest| ==> rest[i] in s - {k};
      [k] + rest
  }

  /** A set has only one sorted listing. */
  lemma {:induction false} SortedUnique(a: seq<Key>, b: seq<Key>)
    requires Sorted(a) && Sorted(b) && forall k :: k in a <==> k in b
    ensures a == b
  {
    assert b != [] ==> b[0] in b;
    if a != [] {
      assert a[0] in b;
      var i :| 0 <= i < |b| && b[i] == a[0];
      assert b[0] in a;
      var j :| 0 <= j < |a| && a[j] == b[0];
      if i > 0 && j > 0 { LessAsymmetric(a[0], a[j]); }
      LessIrreflexive(a[0]);
      assert a[0] == b[0] && a == [a[0]] + a[1..] && b == [b[0]] + b[1..];
      assert forall k :: k in a[1..] ==> k in a && k != a[0];
      assert forall k :: k in b[1..] ==> k in b && k != b[0];
      SortedUnique(a[1..], b[1..]);
    }
  }
}

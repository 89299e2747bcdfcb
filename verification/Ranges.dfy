/** Prefix ranges over byte-string keys: the half-open interval a prefix stands for. */
module Ranges {
  import Lex
  import opened Entries

  predicate HasPrefix(k: Key, p: Key) {
    |p| <= |k| && k[..|p|] == p
  }

  /** The least key above every key with prefix p; None when there is none. */
  function UpperBound(p: Key): (u: Option<Key>) {
    if p == [] then None
    else
      var n := |p| - 1;
      if p[n] < 255 then Some(p[..n] + [p[n] + 1]) else UpperBound(p[..n])
  }

  /** upperBound increments from the last byte, carrying over 0xff. */
  method ComputeUpperBound(prefix: Key) returns (u: Option<Key>)
    ensures u == UpperBound(prefix)
  {
    var b := prefix;
    var i := |b| - 1;
    assert prefix[..i + 1] == prefix;
    while i >= 0
      invariant -1 <= i < |b| && |b| == |prefix|
      invariant b[..i + 1] == prefix[..i + 1]
      invariant UpperBound(prefix) == UpperBound(prefix[..i + 1])
    {
      var byte: int := b[i];
      var next: Byte := (byte + 1) % 256;
      b := b[i := next];
      assert prefix[..i + 1][..i] == prefix[..i];
      if b[i] != 0 {
        assert b[..i + 1] == prefix[..i] + [prefix[i] + 1];
        return Some(b[..i + 1]);
      }
      assert b[..i] == prefix[..i];
      i := i - 1;
    }
    assert prefix[..0] == [];
    return None;
  }

  /** The same bound computed from the first byte. */
  lemma {:induction false} UpperBoundFront(p: Key)
    requires p != []
    ensures UpperBound(p) == match UpperBound(p[1..])
                             case Some(u) => Some([p[0]] + u)
                             case None => if p[0] < 255 then Some([p[0] + 1]) else None
  {
    var n := |p| - 1;
    if n == 0 {
      assert p[..0] == [] && p[1..] == [] && p[..0] + [p[0]] == p;
      assert p[0] < 255 ==> p[..0] + [p[0] + 1] == [p[0] + 1];
    } else {
      var t := p[1..];
      assert t[..n - 1] == p[..n][1..] && t[n - 1] == p[n];
      if p[n] < 255 {
        assert p[..n] + [p[n] + 1] == [p[0]] + (t[..n - 1] + [t[n - 1] + 1]);
      } else {
        UpperBoundFront(p[..n]);
      }
    }
  }

  /** A key has prefix p exactly when it lies at or above p and below the bound. */
  lemma {:induction false} PrefixIffInRange(k: Key, p: Key)
    ensures HasPrefix(k, p) <==> Lex.LessEq(p, k) && (UpperBound(p).Some? ==> Lex.Less(k, UpperBound(p).value))
    decreases |p|
  {
    if p != [] {
      UpperBoundFront(p);
      if k != [] {
        PrefixIffInRange(k[1..], p[1..]);
        assert p == [p[0]] + p[1..] && k == [k[0]] + k[1..];
        assert HasPrefix(k, p) <==> k[0] == p[0] && HasPrefix(k[1..], p[1..]) by {
          if HasPrefix(k, p) {
            assert k[1..][..|p| - 1] == k[..|p|][1..];
          }
          if k[0] == p[0] && HasPrefix(k[1..], p[1..]) {
            assert k[..|p|] == [k[0]] + k[1..][..|p| - 1];
          }
        }
        if UpperBound(p[1..]).Some? {
          assert UpperBound(p).value[1..] == UpperBound(p[1..]).value;
        } else if p[0] < 255 {
          assert UpperBound(p).value == [p[0] + 1];
          assert UpperBound(p).value[1..] == [];
        }
      }
    }
  }
}

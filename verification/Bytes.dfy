/** Fixed-width big-endian numbers and two's-complement integers. */
module Bytes {
  import Lex
  import opened Entries

  const TWO32 := 0x1_0000_0000
  const TWO63 := 0x8000_0000_0000_0000
  const TWO64 := 0x1_0000_0000_0000_0000

  predicate Int64(x: int) {
    -TWO63 <= x < TWO63
  }

  /** The unsigned reading of a 64-bit integer, and back. */
  function Unsigned64(x: int): (u: nat)
    ensures u < TWO64
  {
    x % TWO64
  }

  function Signed64(u: nat): (x: int) {
    var v := u % TWO64;
    if v < TWO63 then v else v - TWO64
  }

  lemma SignedUnsigned(x: int)
    requires Int64(x)
    ensures Signed64(Unsigned64(x)) == x
  {
  }

  lemma UnsignedSmall(x: nat)
    requires x < TWO64
    ensures Unsigned64(x) == x
  {
  }

  /** 256 to the n. */
  function Pow(n: nat): (p: nat)
    ensures p > 0
  {
    if n == 0 then 1 else 256 * Pow(n - 1)
  }

  /** The n low bytes of x, most significant first. */
  function Big(n: nat, x: nat): (bs: seq<Byte>)
    ensures |bs| == n
  {
    if n == 0 then [] else Big(n - 1, x / 256) + [x % 256]
  }

  function Num(bs: seq<Byte>): (x: nat) {
    if bs == [] then 0 else 256 * Num(bs[..|bs| - 1]) + bs[|bs| - 1]
  }

  lemma {:induction false} NumBig(n: nat, x: nat)
    ensures x < Pow(n) ==> Num(Big(n, x)) == x
  {
    if n > 0 {
      NumBig(n - 1, x / 256);
      assert Big(n, x)[..n - 1] == Big(n - 1, x / 256);
    }
  }

  lemma {:induction false} NumBound(bs: seq<Byte>)
    ensures Num(bs) < Pow(|bs|)
  {
    if bs != [] { NumBound(bs[..|bs| - 1]); }
  }

  lemma {:induction false} NumConcat(a: seq<Byte>, b: seq<Byte>)
    ensures Num(a + b) == Num(a) * Pow(|b|) + Num(b)
  {
    if b == [] {
      assert a + b == a;
    } else {
      var b0 := b[..|b| - 1];
      NumConcat(a, b0);
      assert (a + b)[..|a + b| - 1] == a + b0;
      calc {
        Num(a + b);
        256 * Num(a + b0) + b[|b| - 1];
        256 * (Num(a) * Pow(|b0|) + Num(b0)) + b[|b| - 1];
        { assert 256 * (Num(a) * Pow(|b0|)) == Num(a) * (256 * Pow(|b0|)); }
        Num(a) * Pow(|b|) + Num(b);
      }
    }
  }

  lemma Pows()
    ensures Pow(2) == 0x1_0000 && Pow(4) == TWO32 && Pow(8) == TWO64
  {
    assert Pow(2) == 256 * Pow(1) && Pow(1) == 256 * Pow(0);
    assert Pow(4) == 256 * Pow(3) && Pow(3) == 256 * Pow(2);
    assert Pow(8) == 256 * Pow(7) && Pow(7) == 256 * Pow(6) && Pow(6) == 256 * Pow(5) && Pow(5) == 256 * Pow(4);
  }

  lemma Num64(x: int)
    requires Int64(x)
    ensures Signed64(Num(Big(8, Unsigned64(x)))) == x
  {
    Pows();
    NumBig(8, Unsigned64(x));
    SignedUnsigned(x);
  }

  lemma Num32(x: nat)
    requires x < TWO32
    ensures Num(Big(4, x)) == x
  {
    Pows();
    NumBig(4, x);
  }

  lemma Num32Mod(x: nat)
    requires x < TWO32
    ensures Num(Big(4, x % TWO32)) == x
  {
    assert x % TWO32 == x;
    Num32(x);
  }

  lemma Middle(a: seq<Byte>, b: seq<Byte>, c: seq<Byte>)
    ensures (a + b + c)[|a|..|a| + |b|] == b
  {
  }

  lemma Inside(a: seq<Byte>, b: seq<Byte>, c: seq<Byte>, i: nat, j: nat)
    requires i <= j <= |b|
    ensures (a + b + c)[|a| + i..|a| + j] == b[i..j]
  {
  }

  lemma NumField(x: int)
    ensures Num(Big(8, Unsigned64(x))) == Unsigned64(x)
  {
    Pows();
    NumBig(8, Unsigned64(x));
  }

  // ------------------------------------------------------------------- order

  lemma {:induction false} LessPrefix(p: seq<int>, a: seq<int>, b: seq<int>)
    ensures Lex.Less(p + a, p + b) <==> Lex.Less(a, b)
  {
    if p == [] {
      assert p + a == a && p + b == b;
    } else {
      LessPrefix(p[1..], a, b);
      assert (p + a)[1..] == p[1..] + a && (p + b)[1..] == p[1..] + b;
    }
  }

  /** Keys of one length are ordered by their number, then by what follows. */
  lemma {:induction false} BigOrder(n: nat, x: nat, y: nat, s: seq<int>, t: seq<int>)
    requires x < Pow(n) && y < Pow(n)
    ensures Lex.Less(Big(n, x) + s, Big(n, y) + t) <==> x < y || (x == y && Lex.Less(s, t))
    decreases n
  {
    if n == 0 {
      assert Big(0, x) + s == s && Big(0, y) + t == t;
    } else {
      var s', t': seq<int> := [x % 256] + s, [y % 256] + t;
      assert Big(n, x) + s == Big(n - 1, x / 256) + s';
      assert Big(n, y) + t == Big(n - 1, y / 256) + t';
      BigOrder(n - 1, x / 256, y / 256, s', t');
      assert s'[1..] == s && t'[1..] == t;
    }
  }
}

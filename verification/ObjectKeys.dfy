/** Names of archived segments and of checkpoints: zero-padded decimal numbers
    that the object store lists in the order of its bytes. */
module ObjectKeys {
  import Lex
  import opened Entries
  import opened Bytes

  const SLASH := 47
  const ZERO := 48

  /** 10 to the n. */
  function Tens(n: nat): (p: nat)
    ensures p > 0
  {
    if n == 0 then 1 else 10 * Tens(n - 1)
  }

  /** The n low decimal digits of x. */
  function Digits(n: nat, x: nat): (s: seq<int>)
    ensures |s| == n && forall i :: 0 <= i < n ==> ZERO <= s[i] <= ZERO + 9
  {
    if n == 0 then [] else Digits(n - 1, x / 10) + [ZERO + x % 10]
  }

  function Value10(s: seq<int>): (x: int) {
    if s == [] then 0 else 10 * Value10(s[..|s| - 1]) + (s[|s| - 1] - ZERO)
  }

  /** How many digits x needs. */
  function Width(x: nat): (n: nat)
    ensures n > 0 && x < Tens(n)
  {
    if x < 10 then (assert Tens(1) == 10 * Tens(0); 1) else 1 + Width(x / 10)
  }

  /** %0nd: at least n digits. */
  function Padded(n: nat, x: nat): (s: seq<int>) {
    if x < Tens(n) then Digits(n, x) else Digits(Width(x), x)
  }

  /** "wal/{term}/{first}". */
  function SegmentKey(term: nat, first: nat): (s: seq<int>) {
    [119, 97, 108] + [SLASH] + (Padded(10, term) + [SLASH] + Padded(20, first))
  }

  // ------------------------------------------------------------------ parsing

  /** The part before the first slash and the part after it. */
  function SplitSlash(s: seq<int>): (r: Option<(seq<int>, seq<int>)>) {
    if s == [] then None
    else if s[0] == SLASH then Some(([], s[1..]))
    else
      var r := SplitSlash(s[1..]);
      if r.None? then None else Some(([s[0]] + r.value.0, r.value.1))
  }

  /** parseWALKey; anything else than three parts is term 0, sequence 0. */
  function ParseSegmentKey(s: seq<int>): (r: (int, int)) {
    var a := SplitSlash(s);
    if a.None? then (0, 0)
    else
      var b := SplitSlash(a.value.1);
      if b.None? then (0, 0) else (Value10(b.value.0), Value10(b.value.1))
  }

  lemma {:induction false} SplitBack(a: seq<int>, b: seq<int>)
    requires forall i :: 0 <= i < |a| ==> a[i] != SLASH
    ensures SplitSlash(a + [SLASH] + b) == Some((a, b))
  {
    if a == [] {
      assert a + [SLASH] + b == [SLASH] + b;
      assert ([SLASH] + b)[1..] == b;
    } else {
      SplitBack(a[1..], b);
      assert (a + [SLASH] + b)[1..] == a[1..] + [SLASH] + b;
      assert [a[0]] + a[1..] == a;
    }
  }

  lemma {:induction false} DigitsBack(n: nat, x: nat)
    ensures x < Tens(n) ==> Value10(Digits(n, x)) == x
  {
    if n > 0 {
      DigitsBack(n - 1, x / 10);
      assert Digits(n, x)[..n - 1] == Digits(n - 1, x / 10);
    }
  }

  lemma PaddedBack(n: nat, x: nat)
    ensures Value10(Padded(n, x)) == x && forall i :: 0 <= i < |Padded(n, x)| ==> Padded(n, x)[i] != SLASH
  {
    DigitsBack(n, x);
    DigitsBack(Width(x), x);
  }

  /** A segment's key gives back its term and first sequence. */
  lemma KeyRoundTrip(term: nat, first: nat)
    ensures ParseSegmentKey(SegmentKey(term, first)) == (term, first)
  {
    SplitBack([119, 97, 108], Padded(10, term) + [SLASH] + Padded(20, first));
    PaddedBack(10, term);
    PaddedBack(20, first);
    SplitBack(Padded(10, term), Padded(20, first));
  }

  // ------------------------------------------------------------------- order

  /** Numbers of one width are ordered by value, then by what follows. */
  lemma {:induction false} DigitsOrder(n: nat, x: nat, y: nat, s: seq<int>, t: seq<int>)
    requires x < Tens(n) && y < Tens(n)
    ensures Lex.Less(Digits(n, x) + s, Digits(n, y) + t) <==> x < y || (x == y && Lex.Less(s, t))
    decreases n
  {
    if n == 0 {
      assert Digits(0, x) + s == s && Digits(0, y) + t == t;
    } else {
      var s', t': seq<int> := [ZERO + x % 10] + s, [ZERO + y % 10] + t;
      assert Digits(n, x) + s == Digits(n - 1, x / 10) + s';
      assert Digits(n, y) + t == Digits(n - 1, y / 10) + t';
      DigitsOrder(n - 1, x / 10, y / 10, s', t');
      assert s'[1..] == s && t'[1..] == t;
    }
  }

  lemma FirstOrder(x: nat, y: nat)
    requires x < Tens(20) && y < Tens(20)
    ensures Lex.Less([SLASH] + Padded(20, x), [SLASH] + Padded(20, y)) <==> x < y
  {
    LessPrefix([SLASH], Digits(20, x), Digits(20, y));
    DigitsOrder(20, x, y, [], []);
    assert Digits(20, x) + [] == Digits(20, x) && Digits(20, y) + [] == Digits(20, y);
  }

  /** Keys of terms that fit ten digits are listed in order of (term, sequence). */
  lemma KeyOrder(t1: nat, f1: nat, t2: nat, f2: nat)
    requires t1 < Tens(10) && t2 < Tens(10) && f1 < Tens(20) && f2 < Tens(20)
    ensures Lex.Less(SegmentKey(t1, f1), SegmentKey(t2, f2)) <==> Lex.Less([t1, f1], [t2, f2])
  {
    var p: seq<int> := [119, 97, 108] + [SLASH];
    var s, t := [SLASH] + Padded(20, f1), [SLASH] + Padded(20, f2);
    assert SegmentKey(t1, f1) == p + (Digits(10, t1) + s);
    assert SegmentKey(t2, f2) == p + (Digits(10, t2) + t);
    LessPrefix(p, Digits(10, t1) + s, Digits(10, t2) + t);
    DigitsOrder(10, t1, t2, s, t);
    FirstOrder(f1, f2);
    Lex.LessPair([t1, f1], [t2, f2]);
  }

  lemma {:induction false} NinesAndOne(n: nat, x: nat)
    requires n > 0
    ensures x == Tens(n) - 1 ==> Digits(n, x)[0] == ZERO + 9
    ensures x == Tens(n) ==> Digits(n + 1, x)[0] == ZERO + 1
  {
    if n == 1 {
      assert Tens(1) == 10 * Tens(0);
      assert Digits(1, x) == Digits(0, x / 10) + [ZERO + x % 10];
      assert Digits(2, x) == Digits(1, x / 10) + [ZERO + x % 10];
      assert Digits(1, x / 10) == Digits(0, x / 100) + [ZERO + (x / 10) % 10];
    } else {
      NinesAndOne(n - 1, x / 10);
      assert Tens(n) == 10 * Tens(n - 1);
    }
  }

  lemma {:induction false} WidthOfTens(n: nat, x: nat)
    requires x == Tens(n)
    ensures Width(x) == n + 1
  {
    if n > 0 {
      assert x / 10 == Tens(n - 1);
      WidthOfTens(n - 1, x / 10);
    }
  }

  lemma FirstDigits(last: nat)
    requires last == Tens(10) - 1
    ensures Padded(10, last) != [] && Padded(10, last)[0] == ZERO + 9
    ensures Padded(10, last + 1) != [] && Padded(10, last + 1)[0] == ZERO + 1
  {
    WidthOfTens(10, last + 1);
    NinesAndOne(10, last);
    NinesAndOne(10, last + 1);
  }

  lemma LessByFirst(a: seq<int>, b: seq<int>, s: seq<int>)
    requires a != [] && b != [] && a[0] < b[0]
    ensures Lex.Less(a + s, b + s)
  {
  }

  lemma KeyParts(term: nat, first: nat)
    ensures SegmentKey(term, first) == ([119, 97, 108] + [SLASH]) + (Padded(10, term) + ([SLASH] + Padded(20, first)))
  {
  }

  /** The first term with eleven digits is listed before the term it follows. */
  lemma EleventhDigitBreaksOrder(first: nat, last: nat)
    requires last == Tens(10) - 1
    ensures Lex.Less(SegmentKey(last + 1, first), SegmentKey(last, first))
  {
    var p: seq<int> := [119, 97, 108] + [SLASH];
    var s := [SLASH] + Padded(20, first);
    var a, b := Padded(10, last + 1), Padded(10, last);
    KeyParts(last + 1, first);
    KeyParts(last, first);
    FirstDigits(last);
    LessByFirst(a, b, s);
    LessPrefix(p, a + s, b + s);
  }

  /** Listing order is term order for all terms up to a highest one if and only if
      that one fits ten digits. */
  lemma TermsListInOrderIff(highest: nat)
    ensures (forall t1: nat, t2: nat :: t1 < t2 <= highest ==> Lex.Less(SegmentKey(t1, 1), SegmentKey(t2, 1)))
            <==> highest < Tens(10)
  {
    if highest < Tens(10) {
      assert Tens(20) > 1 by { assert Tens(20) == 10 * Tens(19); }
      forall t1: nat, t2: nat | t1 < t2 <= highest ensures Lex.Less(SegmentKey(t1, 1), SegmentKey(t2, 1)) {
        KeyOrder(t1, 1, t2, 1);
        Lex.LessPair([t1, 1], [t2, 1]);
      }
    } else {
      var last := Tens(10) - 1;
      EleventhDigitBreaksOrder(1, last);
      Lex.LessAsymmetric(SegmentKey(last + 1, 1), SegmentKey(last, 1));
      assert last < last + 1 <= highest;
    }
  }
}

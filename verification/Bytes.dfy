/** Numbers as bytes, most significant first, their text, and the order of both. */
module Bytes {
  type byte = x: int | 0 <= x < 256

  function Power(n: nat): (p: nat)
    ensures p >= 1
  {
    if n == 0 then 1 else 256 * Power(n - 1)
  }

  function BigEndian(v: nat, n: nat): (b: seq<byte>)
    ensures |b| == n
  {
    if n == 0 then [] else BigEndian(v / 256, n - 1) + [v % 256]
  }

  function Value(b: seq<byte>): nat {
    if b == [] then 0 else Value(b[..|b| - 1]) * 256 + b[|b| - 1]
  }

  /** Writes a number into `n` bytes of a buffer. */
  method Put(a: array<byte>, at: nat, n: nat, v: nat)
    requires at + n <= a.Length
    modifies a
    ensures a[at..at + n] == BigEndian(v, n)
    ensures a[..at] == old(a[..at]) && a[at + n..] == old(a[at + n..])
  {
    var rest, k := v, n;
    while k > 0
      invariant 0 <= k <= n
      invariant BigEndian(rest, k) + a[at + k..at + n] == BigEndian(v, n)
      invariant a[..at] == old(a[..at]) && a[at + n..] == old(a[at + n..])
    {
      ghost var tail := a[at + k..at + n];
      k := k - 1;
      a[at + k] := rest % 256;
      assert a[at + k..at + n] == [(rest % 256) as byte] + tail;
      rest := rest / 256;
    }
  }

  lemma {:induction false} ValueOfBigEndian(v: nat, n: nat)
    requires v < Power(n)
    ensures Value(BigEndian(v, n)) == v
  {
    if n > 0 {
      ValueOfBigEndian(v / 256, n - 1);
      assert BigEndian(v, n)[..n - 1] == BigEndian(v / 256, n - 1);
    }
  }

  /** The order of two lists of the same length, by their first difference. */
  predicate Precedes<T(==)>(a: seq<T>, b: seq<T>, less: (T, T) -> bool)
    requires |a| == |b|
  {
    a != [] && (less(a[0], b[0]) || (a[0] == b[0] && Precedes(a[1..], b[1..], less)))
  }

  lemma {:induction false} PrecedesAppend<T>(a: seq<T>, a': seq<T>, b: seq<T>, b': seq<T>, less: (T, T) -> bool)
    requires |a| == |b| && |a'| == |b'|
    requires forall x :: !less(x, x)
    ensures Precedes(a + a', b + b', less) <==> Precedes(a, b, less) || (a == b && Precedes(a', b', less))
  {
    if a == [] {
      assert a + a' == a' && b + b' == b';
    } else {
      PrecedesAppend(a[1..], a', b[1..], b', less);
      assert (a + a')[1..] == a[1..] + a' && (b + b')[1..] == b[1..] + b';
      assert a == b <==> a[0] == b[0] && a[1..] == b[1..] by {
        assert a == [a[0]] + a[1..] && b == [b[0]] + b[1..];
      }
    }
  }

  predicate ByteLess(x: byte, y: byte) {
    x < y
  }

  predicate CharLess(x: char, y: char) {
    x < y
  }

  /** The bytes of numbers are ordered as the numbers. */
  lemma {:induction false} BigEndianKeepsOrder(v: nat, w: nat, n: nat)
    requires v < Power(n) && w < Power(n)
    ensures Precedes(BigEndian(v, n), BigEndian(w, n), ByteLess) <==> v < w
    ensures BigEndian(v, n) == BigEndian(w, n) <==> v == w
  {
    if n > 0 {
      BigEndianKeepsOrder(v / 256, w / 256, n - 1);
      var a, b := BigEndian(v / 256, n - 1), BigEndian(w / 256, n - 1);
      PrecedesAppend(a, [(v % 256) as byte], b, [(w % 256) as byte], ByteLess);
      ValueOfBigEndian(v, n);
      ValueOfBigEndian(w, n);
    }
  }

  /** A hexadecimal digit. */
  function Digit(d: nat): char
    requires d < 16
  {
    "0123456789abcdef"[d]
  }

  function Pair(x: byte): (t: string)
    ensures |t| == 2
  {
    [Digit(x / 16), Digit(x % 16)]
  }

  /** Two digits for every byte. */
  function Hex(b: seq<byte>): (t: string)
    ensures |t| == 2 * |b|
  {
    if b == [] then "" else Pair(b[0]) + Hex(b[1..])
  }

  lemma DigitOrder(d: nat, e: nat)
    requires d < 16 && e < 16
    ensures CharLess(Digit(d), Digit(e)) <==> d < e
    ensures Digit(d) == Digit(e) <==> d == e
  {
  }

  lemma PairOrder(x: byte, y: byte)
    ensures Precedes(Pair(x), Pair(y), CharLess) <==> x < y
    ensures Pair(x) == Pair(y) <==> x == y
  {
    var s, t := Pair(x), Pair(y);
    DigitOrder(x / 16, y / 16);
    DigitOrder(x % 16, y % 16);
    assert Precedes(s[1..], t[1..], CharLess) <==> CharLess(s[1], t[1]) by {
      assert s[1..][1..] == [] && t[1..][1..] == [];
    }
    assert s == t ==> s[0] == t[0] && s[1] == t[1];
  }

  /** The text of bytes is ordered as the bytes. */
  lemma {:induction false} HexKeepsOrder(a: seq<byte>, b: seq<byte>)
    requires |a| == |b|
    ensures Precedes(Hex(a), Hex(b), CharLess) <==> Precedes(a, b, ByteLess)
    ensures Hex(a) == Hex(b) <==> a == b
  {
    if a != [] {
      HexKeepsOrder(a[1..], b[1..]);
      PairOrder(a[0], b[0]);
      PrecedesAppend(Pair(a[0]), Hex(a[1..]), Pair(b[0]), Hex(b[1..]), CharLess);
      SameHalves(Pair(a[0]), Hex(a[1..]), Pair(b[0]), Hex(b[1..]));
      assert Hex(a) == Pair(a[0]) + Hex(a[1..]) && Hex(b) == Pair(b[0]) + Hex(b[1..]);
      SameFirstAndRest(a, b);
    }
  }

  lemma SameFirstAndRest(a: seq<byte>, b: seq<byte>)
    requires a != [] && b != []
    ensures a == b <==> a[0] == b[0] && a[1..] == b[1..]
  {
    assert a == [a[0]] + a[1..] && b == [b[0]] + b[1..];
  }

  lemma SameHalves<T>(s: seq<T>, s': seq<T>, t: seq<T>, t': seq<T>)
    requires |s| == |t|
    ensures s + s' == t + t' <==> s == t && s' == t'
  {
    assert (s + s')[..|s|] == s && (s + s')[|s|..] == s';
    assert (t + t')[..|t|] == t && (t + t')[|t|..] == t';
  }
}

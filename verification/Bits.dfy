/** The bit operations of 64-bit words on natural numbers, and what they compute. */
module Bits {
  function Pow2(k: nat): (p: nat)
    ensures p >= 1
  {
    if k == 0 then 1 else 2 * Pow2(k - 1)
  }

  function And(a: nat, b: nat): nat
  {
    if a == 0 || b == 0 then 0
    else 2 * And(a / 2, b / 2) + (if a % 2 == 1 && b % 2 == 1 then 1 else 0)
  }

  function Or(a: nat, b: nat): nat
  {
    if a == 0 then b
    else if b == 0 then a
    else 2 * Or(a / 2, b / 2) + (if a % 2 == 1 || b % 2 == 1 then 1 else 0)
  }

  function Xor(a: nat, b: nat): nat
  {
    if a == 0 then b
    else if b == 0 then a
    else 2 * Xor(a / 2, b / 2) + (if a % 2 != b % 2 then 1 else 0)
  }

  /** A 64-bit shift to the left drops what leaves the word. */
  function ShiftLeft(a: nat, k: nat): nat {
    a * Pow2(k) % Pow2(64)
  }

  lemma DivUnique(x: nat, m: nat, q: nat, r: nat)
    requires r < m && x == q * m + r
    ensures x / m == q && x % m == r
  {
    var q', r' := x / m, x % m;
    assert x == q' * m + r';
    if q < q' {
      MoreThanOne(q, q', m);
    } else if q' < q {
      MoreThanOne(q', q, m);
    }
  }

  lemma MoreThanOne(q: nat, q': nat, m: nat)
    requires q < q'
    ensures q * m + m <= q' * m
  {
    var d := q' - q - 1;
    assert q' * m == q * m + m + d * m;
    assert 0 <= d * m;
  }

  /** A mask of `k` ones keeps the remainder. */
  lemma {:induction false} AndMask(a: nat, k: nat)
    ensures And(a, Pow2(k) - 1) == a % Pow2(k)
  {
    if k > 0 {
      AndMask(a / 2, k - 1);
      AndOnes(a, Pow2(k - 1));
      HalfMod(a, Pow2(k - 1));
    }
  }

  /** A mask with one more one keeps one more digit. */
  lemma AndOnes(a: nat, p: nat)
    requires p > 0
    ensures And(a, 2 * p - 1) == 2 * And(a / 2, p - 1) + a % 2
  {
    assert (2 * p - 1) / 2 == p - 1 && (2 * p - 1) % 2 == 1;
  }

  lemma HalfMod(a: nat, p: nat)
    requires p > 0
    ensures a % (2 * p) == 2 * (a / 2 % p) + a % 2
  {
    var q, r := a / 2 / p, a / 2 % p;
    assert a / 2 == p * q + r;
    assert a == q * (2 * p) + (2 * r + a % 2);
    DivUnique(a, 2 * p, q, 2 * r + a % 2);
  }

  /** The union of words without common bits is their sum. */
  lemma {:induction false} OrDisjoint(a: nat, b: nat, k: nat)
    requires b < Pow2(k)
    ensures Or(a * Pow2(k), b) == a * Pow2(k) + b
  {
    if k > 0 && a > 0 {
      var x := a * Pow2(k - 1);
      assert Or(x, b / 2) == x + b / 2 by {
        OrDisjoint(a, b / 2, k - 1);
      }
      assert a * Pow2(k) == 2 * x by {
        DoubleProduct(Pow2(k - 1), a);
      }
      OrDouble(x, b);
    }
  }

  lemma OrDouble(a: nat, b: nat)
    ensures Or(2 * a, b) == 2 * Or(a, b / 2) + b % 2
  {
  }

  /** A shift keeps the bits that fit into the word. */
  lemma ShiftLeftKeeps(a: nat, k: nat)
    requires k <= 64
    ensures ShiftLeft(a, k) == a % Pow2(64 - k) * Pow2(k)
  {
    PowAdd(64 - k, k);
    ProductMod(a, Pow2(64 - k), Pow2(k));
  }

  lemma ProductMod(a: nat, m: nat, p: nat)
    requires m > 0 && p > 0
    ensures m * p > 0 && a * p % (m * p) == a % m * p
  {
    var q, r := a / m, a % m;
    MoreThanOne(r, m, p);
    assert r * p >= 0;
    assert a * p == q * (m * p) + r * p by {
      assert a == q * m + r;
      assert (q * m + r) * p == q * m * p + r * p;
      assert q * m * p == q * (m * p);
    }
    DivUnique(a * p, m * p, q, r * p);
  }

  lemma ModMod(a: nat, m: nat, p: nat)
    requires m > 0 && p > 0 && m * p > 0
    ensures a % (m * p) % m == a % m
  {
    var q, r := a / (m * p), a % (m * p);
    assert a == m * p * q + r;
    var k := p * q;
    assert m * p * q == k * m;
    Multiple(r, m, k);
  }

  lemma Multiple(r: nat, m: nat, k: nat)
    requires m > 0
    ensures (k * m + r) % m == r % m
  {
    var j, x := r / m, r % m;
    assert r == j * m + x;
    assert (k + j) * m == k * m + j * m;
    DivUnique(k * m + r, m, k + j, x);
  }

  lemma {:induction false} PowAdd(j: nat, k: nat)
    ensures Pow2(j) * Pow2(k) == Pow2(j + k)
  {
    if j > 0 {
      PowAdd(j - 1, k);
      DoubleProduct(Pow2(j - 1), Pow2(k));
    }
  }

  lemma DoubleProduct(p: nat, q: nat)
    ensures 2 * p * q == 2 * (p * q)
  {
  }

  lemma {:induction false} XorAssociates(a: nat, b: nat, c: nat)
    ensures Xor(Xor(a, b), c) == Xor(a, Xor(b, c))
    decreases a + b + c
  {
    if a > 0 && b > 0 && c > 0 {
      XorAssociates(a / 2, b / 2, c / 2);
      XorStep(a, b);
      XorStep(b, c);
      XorStep(Xor(a, b), c);
      XorStep(a, Xor(b, c));
    }
  }

  lemma XorStep(a: nat, b: nat)
    ensures Xor(a, b) == 2 * Xor(a / 2, b / 2) + (if a % 2 != b % 2 then 1 else 0)
    ensures Xor(a, b) / 2 == Xor(a / 2, b / 2)
    ensures Xor(a, b) % 2 == if a % 2 != b % 2 then 1 else 0
  {
  }

  lemma {:induction false} XorSelf(a: nat)
    ensures Xor(a, a) == 0
  {
    if a > 0 {
      XorSelf(a / 2);
    }
  }

  /** Xor with a fixed word is injective. */
  lemma XorCancels(h: nat, a: nat, b: nat)
    ensures Xor(h, a) == Xor(h, b) <==> a == b
  {
    XorSelf(h);
    XorAssociates(h, h, a);
    XorAssociates(h, h, b);
  }

  lemma XorRightCancels(a: nat, b: nat, h: nat)
    ensures Xor(a, h) == Xor(b, h) <==> a == b
  {
    XorSelf(h);
    XorAssociates(a, h, h);
    XorAssociates(b, h, h);
  }

  lemma {:induction false} XorBounded(a: nat, b: nat, k: nat)
    requires a < Pow2(k) && b < Pow2(k)
    ensures Xor(a, b) < Pow2(k)
  {
    if k > 0 && a > 0 && b > 0 {
      XorBounded(a / 2, b / 2, k - 1);
    }
  }
}

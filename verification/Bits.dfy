/** Powers of two and the bit tricks the table plays with them.  Unsigned words
    are natural numbers; `BitAnd` is `&` on their binary digits, and `ShiftRight`
    drops low digits. */
module Bits {

  const WORD: nat := 0x1_0000_0000

  type byte = x: int | 0 <= x < 0x100
  type word = x: int | 0 <= x < 0x1_0000_0000    // unsigned, 32 bits

  function Pow2(k: nat): (n: nat)
    ensures 0 < n
  {
    if k == 0 then 1 else 2 * Pow2(k - 1)
  }

  function Min(a: nat, b: nat): nat { if a <= b then a else b }

  /** Bitwise AND. */
  function BitAnd(x: nat, y: nat): nat {
    if x == 0 || y == 0 then 0
    else 2 * BitAnd(x / 2, y / 2) + (x % 2) * (y % 2)
  }

  function ShiftRight(x: nat, k: nat): nat {
    if k == 0 then x else ShiftRight(x / 2, k - 1)
  }

  /** Bitwise exclusive or. */
  function Xor(x: nat, y: nat): nat {
    if x == 0 then y
    else if y == 0 then x
    else 2 * Xor(x / 2, y / 2) + (x % 2 + y % 2) % 2
  }

  function CeilDiv(n: nat, d: nat): nat
    requires 0 < d
  {
    n / d + (if n % d == 0 then 0 else 1)
  }

  /** Masking with 2^k - 1 is the remainder modulo 2^k. */
  lemma {:induction false} MaskIsMod(x: nat, k: nat)
    ensures BitAnd(x, Pow2(k) - 1) == x % Pow2(k)
  {
    if k == 0 {
    } else if x == 0 {
      assert 0 % Pow2(k) == 0;
    } else {
      var p := Pow2(k - 1);
      var m := 2 * p - 1;
      assert m / 2 == p - 1 && m % 2 == 1;
      MaskIsMod(x / 2, k - 1);
      ModDouble(x, p);
    }
  }

  lemma ModDouble(x: nat, p: nat)
    requires 0 < p
    ensures x % (2 * p) == 2 * (x / 2 % p) + x % 2
  {
    var h := x / 2;
    var q, r := h / p, h % p;
    assert h == p * q + r;
    var y := 2 * r + x % 2;
    assert x == 2 * h + x % 2;
    assert x == (2 * p) * q + y by {
      assert 2 * (p * q) == (2 * p) * q;
    }
    ModUnique(x, 2 * p, q, y);
  }

  lemma ModUnique(x: int, d: nat, q: int, r: nat)
    requires 0 < d && x == d * q + r && r < d
    ensures x % d == r && x / d == q
  {
    var q', r' := x / d, x % d;
    assert x == d * q' + r';
    assert d * (q - q') == r' - r by {
      assert d * (q - q') == d * q - d * q';
    }
    if q > q' {
      assert d * (q - q') >= d by { MulAtLeast(d, q - q'); }
    } else if q < q' {
      assert d * (q' - q) >= d by { MulAtLeast(d, q' - q); }
    }
  }

  lemma MulAtLeast(d: nat, k: nat)
    requires 0 < k
    ensures d * k >= d
  {
  }

  /** Two hashes in one bucket of a doubled table were in one bucket before. */
  lemma ModOfDouble(x: nat, n: nat)
    requires 0 < n
    ensures x % (2 * n) % n == x % n
    ensures x % (2 * n) == x % n || x % (2 * n) == x % n + n
  {
    var q, r := x / n, x % n;
    assert x == n * q + r;
    var h, b := q / 2, q % 2;
    assert q == 2 * h + b;
    assert x == (2 * n) * h + (n * b + r) by {
      assert n * (2 * h + b) == n * (2 * h) + n * b;
      assert n * (2 * h) == (2 * n) * h;
    }
    assert n * b == 0 || n * b == n;
    ModUnique(x, 2 * n, h, n * b + r);
    if b == 0 {
      ModUnique(r, n, 0, r);
    } else {
      ModUnique(n + r, n, 1, r);
    }
  }

  lemma Pow2Next(k: nat)
    ensures Pow2(k + 1) == 2 * Pow2(k)
  {
  }

  lemma DoubleFactor(a: nat, b: nat)
    ensures 2 * (a * b) == (2 * a) * b
  {
  }

  lemma {:induction false} Pow2Sum(j: nat, k: nat)
    ensures Pow2(j + k) == Pow2(j) * Pow2(k)
  {
    hide Pow2;
    if j == 0 {
      Pow2Zero();
    } else {
      Pow2Sum(j - 1, k);
      Pow2Next(j - 1 + k);
      Pow2Next(j - 1);
      DoubleFactor(Pow2(j - 1), Pow2(k));
    }
  }

  lemma Pow2Zero()
    ensures Pow2(0) == 1
  {
  }

  lemma HalfQuotient(x: nat, p: nat)
    requires 0 < p
    ensures x / 2 / p == x / (2 * p)
  {
    var q, r := x / 2 / p, x / 2 % p;
    assert x / 2 == p * q + r;
    DoubleFactor(p, q);
    ModUnique(x, 2 * p, q, 2 * r + x % 2);
  }

  /** Shifting right by k is division by 2^k. */
  lemma {:induction false} ShiftIsDiv(x: nat, k: nat)
    ensures ShiftRight(x, k) == x / Pow2(k)
  {
    hide Pow2;
    if k == 0 {
      Pow2Zero();
    } else {
      ShiftIsDiv(x / 2, k - 1);
      Pow2Next(k - 1);
      HalfQuotient(x, Pow2(k - 1));
    }
  }

  /** The shift-and-mask value of the expansion code is the ceiling of n / 2^k. */
  lemma {:induction false} ShiftMaskIsCeil(n: nat, k: nat)
    ensures ShiftRight(n, k) + (if BitAnd(n, Pow2(k) - 1) != 0 then 1 else 0) == CeilDiv(n, Pow2(k))
  {
    MaskIsMod(n, k);
    ShiftIsDiv(n, k);
  }

  lemma {:induction false} XorStep(x: nat, y: nat)
    ensures Xor(x, y) == 2 * Xor(x / 2, y / 2) + (x % 2 + y % 2) % 2
  {
  }

  lemma HalvesOf(h: nat, p: nat)
    requires p < 2
    ensures (2 * h + p) / 2 == h && (2 * h + p) % 2 == p
  {
  }

  /** Exclusive or with the same word undoes itself. */
  lemma {:induction false} XorInverse(x: nat, s: nat)
    ensures Xor(Xor(x, s), s) == x
    decreases x + s
  {
    hide Xor;
    if x + s > 0 {
      XorInverse(x / 2, s / 2);
      var h, p := Xor(x / 2, s / 2), (x % 2 + s % 2) % 2;
      XorStep(x, s);
      HalvesOf(h, p);
      XorStep(2 * h + p, s);
      assert (p + s % 2) % 2 == x % 2;
    } else {
      XorZero();
    }
  }

  lemma XorZero()
    ensures Xor(0, 0) == 0
  {
  }

  lemma {:induction false} XorBound(x: nat, y: nat, k: nat)
    requires x < Pow2(k) && y < Pow2(k)
    ensures Xor(x, y) < Pow2(k)
  {
    if x > 0 && y > 0 {
      XorBound(x / 2, y / 2, k - 1);
    }
  }
}

/**
  Unsigned 64-bit words as the C code uses them: wrapping increment and
  subtraction, `&`, `|`, `^`, `>>` and the `index & mask` form of modulo.

  A word is a number below 2^64. The bitwise operators are defined digit by
  digit on the binary expansion, so that every fact about them is proved here
  from that definition.
 */
module Words {

  const TWO64: nat := 0x1_0000_0000_0000_0000
  const UINT64_MAX: nat := 0xFFFF_FFFF_FFFF_FFFF

  type Word = x: int | 0 <= x < TWO64

  function Pow2(k: nat): (r: nat)
    ensures r >= 1
  {
    if k == 0 then 1 else 2 * Pow2(k - 1)
  }

  ghost predicate IsPow2(n: nat) {
    exists k: nat :: n == Pow2(k)
  }

  /** Conversion of a mathematical integer to `uint64_t`. */
  function Wrap(x: int): Word {
    x % TWO64
  }

  /** `a - b` on `uint64_t`. */
  function Diff(a: Word, b: Word): Word {
    (a - b) % TWO64
  }

  /** `a & b` */
  function And(a: nat, b: nat): nat
    decreases a
  {
    if a == 0 then 0
    else 2 * And(a / 2, b / 2) + (if a % 2 == 1 && b % 2 == 1 then 1 else 0)
  }

  /** `a | b` */
  function Or(a: nat, b: nat): nat
    decreases a + b
  {
    if a == 0 && b == 0 then 0
    else 2 * Or(a / 2, b / 2) + (if a % 2 == 1 || b % 2 == 1 then 1 else 0)
  }

  /** `a ^ b` */
  function Xor(a: nat, b: nat): nat
    decreases a + b
  {
    if a == 0 && b == 0 then 0
    else 2 * Xor(a / 2, b / 2) + (if a % 2 != b % 2 then 1 else 0)
  }

  /** `a >> k` */
  function Shr(a: nat, k: nat): nat {
    if k == 0 then a else Shr(a / 2, k - 1)
  }

  // ---------------------------------------------------------------- powers

  lemma {:induction false} Pow2Add(a: nat, b: nat)
    ensures Pow2(a + b) == Pow2(a) * Pow2(b)
  {
    if a != 0 {
      Pow2Add(a - 1, b);
      assert Pow2(a + b) == 2 * Pow2(a - 1 + b);
    }
  }

  lemma {:induction false} Pow2Mono(a: nat, b: nat)
    requires a < b
    ensures Pow2(a) < Pow2(b)
    decreases b
  {
    if a < b - 1 { Pow2Mono(a, b - 1); }
  }

  lemma Pow2MonoLe(a: nat, b: nat)
    ensures a <= b ==> Pow2(a) <= Pow2(b)
  {
    if a < b { Pow2Mono(a, b); }
  }

  /** The powers the word sizes need. */
  lemma Pow2At(k: nat)
    ensures k == 10 ==> Pow2(k) == 1024
    ensures k == 32 ==> Pow2(k) == 0x1_0000_0000
    ensures k == 63 ==> Pow2(k) == 0x8000_0000_0000_0000
    ensures k == 64 ==> Pow2(k) == TWO64
  {
    assert Pow2(8) == 256 by { assert Pow2(4) == 16; Pow2Add(4, 4); }
    assert Pow2(10) == 1024;
    assert Pow2(16) == 0x1_0000 by { Pow2Add(8, 8); }
    assert Pow2(32) == 0x1_0000_0000 by { Pow2Add(16, 16); }
    assert Pow2(64) == TWO64 by { Pow2Add(32, 32); }
    assert Pow2(64) == 2 * Pow2(63);
  }

  /** A power of two that fits a word has an exponent below 64. */
  lemma Pow2Exponent(k: nat)
    requires Pow2(k) < TWO64
    ensures k < 64
  {
    var w := 64;
    Pow2At(w);
    Pow2MonoLe(w, k);
  }

  // ------------------------------------------------------ division and mod

  /** The quotient and remainder are the only ones. */
  lemma {:induction false} DivModUnique(x: int, m: nat, q: int, r: int)
    requires m > 0 && x == q * m + r && 0 <= r < m
    ensures x / m == q && x % m == r
  {
    var d := x / m - q;
    assert x == (x / m) * m + x % m;
    assert d * m == r - x % m;
    assert d >= 1 ==> d * m >= m;
    assert d <= -1 ==> d * m <= 0 - m;
  }

  /** (x mod a*b) mod a == x mod a */
  lemma ModOfMod(x: int, a: nat, b: nat)
    requires a > 0 && b > 0
    ensures a * b > 0
    ensures (x % (a * b)) % a == x % a
  {
    var m := a * b;
    assert m > 0;
    var q, r := x / m, x % m;
    assert x == q * m + r;
    var q2, r2 := r / a, r % a;
    assert r == q2 * a + r2;
    assert x == (q * b + q2) * a + r2 by {
      assert q * m == (q * b) * a;
      assert (q * b + q2) * a == (q * b) * a + q2 * a;
    }
    DivModUnique(x, a, q * b + q2, r2);
  }

  /** One binary digit of the remainder by an even divisor. */
  lemma HalveMod(x: nat, h: nat)
    requires h > 0
    ensures x % (2 * h) == 2 * ((x / 2) % h) + x % 2
  {
    var q, r := (x / 2) / h, (x / 2) % h;
    assert x / 2 == q * h + r;
    assert 2 * (q * h) == q * (2 * h);
    DivModUnique(x, 2 * h, q, 2 * r + x % 2);
  }

  /** Positions closer than the capacity never share a slot. */
  lemma ModDistinct(p: nat, q: nat, cap: nat)
    requires cap > 0 && p < q < p + cap
    ensures p % cap != q % cap
  {
    var d := q / cap - p / cap;
    assert q == (q / cap) * cap + q % cap && p == (p / cap) * cap + p % cap;
    assert q - p == d * cap + (q % cap - p % cap);
    assert d <= 0 ==> d * cap <= 0;
    assert d >= 1 ==> d * cap >= cap;
  }

  // ------------------------------------------------------- wrapping counters

  /** Subtraction of wrapped counters recovers the true distance. */
  lemma DiffOfWraps(a: nat, b: nat)
    requires b <= a < b + TWO64
    ensures Diff(Wrap(a), Wrap(b)) == a - b
  {
    var x, y := a / TWO64, b / TWO64;
    assert a == x * TWO64 + Wrap(a) && b == y * TWO64 + Wrap(b);
    assert Wrap(a) - Wrap(b) == (y - x) * TWO64 + (a - b);
    DivModUnique(Wrap(a) - Wrap(b), TWO64, y - x, a - b);
  }

  lemma WrapSucc(a: nat)
    ensures Wrap(Wrap(a) + 1) == Wrap(a + 1)
  {
    var q, r := (Wrap(a) + 1) / TWO64, Wrap(Wrap(a) + 1);
    assert a + 1 == (a / TWO64 + q) * TWO64 + r;
    DivModUnique(a + 1, TWO64, a / TWO64 + q, r);
  }

  /** The 32-bit sequence number does not see the 64-bit wrap. */
  lemma WrapMod32(h: nat)
    ensures Wrap(h) % 0x1_0000_0000 == h % 0x1_0000_0000
  {
    ModOfMod(h, 0x1_0000_0000, 0x1_0000_0000);
  }

  /** Wrapped counters are equal exactly when the true ones are. */
  lemma WrapInjective(a: nat, b: nat)
    requires b <= a < b + TWO64
    ensures Wrap(a) == Wrap(b) <==> a == b
  {
    DiffOfWraps(a, b);
  }

  // ---------------------------------------------------------------- bitwise

  /** `x & (2^k - 1)` is `x mod 2^k`. */
  lemma {:induction false} AndMask(x: nat, k: nat)
    ensures And(x, Pow2(k) - 1) == x % Pow2(k)
    decreases k
  {
    if k == 0 {
      AndZero(x);
    } else if x != 0 {
      AndMask(x / 2, k - 1);
      HalveMod(x, Pow2(k - 1));
      assert (Pow2(k) - 1) / 2 == Pow2(k - 1) - 1 && (Pow2(k) - 1) % 2 == 1;
    }
  }

  lemma {:induction false} AndZero(x: nat)
    ensures And(x, 0) == 0
  {
    if x != 0 { AndZero(x / 2); }
  }

  lemma {:induction false} AndAtMost(x: nat, y: nat)
    ensures And(x, y) <= y
  {
    if x != 0 { AndAtMost(x / 2, y / 2); }
  }

  lemma {:induction false} AndSelf(x: nat)
    ensures And(x, x) == x
  {
    if x != 0 { AndSelf(x / 2); }
  }

  /** The masked index of a wrapped counter is the true position mod capacity. */
  lemma MaskedIndex(p: nat, cap: nat)
    requires IsPow2(cap) && cap < TWO64
    ensures And(Wrap(p), cap - 1) == p % cap
  {
    var k: nat :| cap == Pow2(k);
    Pow2Exponent(k);
    AndMask(Wrap(p), k);
    Pow2Add(k, 64 - k);
    Pow2At(k + (64 - k));
    ModOfMod(p, cap, Pow2(64 - k));
  }

  lemma {:induction false} ShrShr(x: nat, a: nat, b: nat)
    ensures Shr(Shr(x, a), b) == Shr(x, a + b)
  {
    if a != 0 { ShrShr(x / 2, a - 1, b); }
  }

  /** Dropping k digits drops them all from a number that has no more. */
  lemma {:induction false} ShrBound(x: nat, k: nat)
    ensures x < (Shr(x, k) + 1) * Pow2(k)
    ensures x < Pow2(k) ==> Shr(x, k) == 0
  {
    if k != 0 {
      ShrBound(x / 2, k - 1);
      DoubleProduct(Shr(x, k) + 1, Pow2(k - 1));
    }
  }

  lemma DoubleProduct(a: nat, b: nat)
    ensures a * (2 * b) == 2 * (a * b)
  {
  }

  lemma {:induction false} OrShr(x: nat, y: nat, m: nat)
    ensures Shr(Or(x, y), m) == Or(Shr(x, m), Shr(y, m))
    decreases m
  {
    if m != 0 {
      assert Or(x, y) / 2 == Or(x / 2, y / 2);
      OrShr(x / 2, y / 2, m - 1);
    }
  }

  /** `x | (2^j - 1)` sets the low j bits and keeps the others. */
  lemma {:induction false} OrLowOnes(x: nat, j: nat)
    ensures Or(x, Pow2(j) - 1) == Shr(x, j) * Pow2(j) + (Pow2(j) - 1)
    decreases j
  {
    if j == 0 {
      OrZero(x);
    } else {
      var h := Pow2(j - 1);
      OrLowOnes(x / 2, j - 1);
      assert (Pow2(j) - 1) / 2 == h - 1 && (Pow2(j) - 1) % 2 == 1;
      assert Or(x, Pow2(j) - 1) == 2 * Or(x / 2, h - 1) + 1;
      DoubleProduct(Shr(x, j), h);
    }
  }

  lemma {:induction false} OrZero(x: nat)
    ensures Or(x, 0) == x
  {
    if x != 0 { OrZero(x / 2); }
  }

  lemma {:induction false} ShrIsDiv(x: nat, k: nat)
    ensures Shr(x, k) == x / Pow2(k)
  {
    if k != 0 {
      ShrIsDiv(x / 2, k - 1);
      HalveDiv(x, Pow2(k - 1));
    }
  }

  lemma HalveDiv(x: nat, h: nat)
    requires h > 0
    ensures (x / 2) / h == x / (2 * h)
  {
    var q, r := (x / 2) / h, (x / 2) % h;
    assert x / 2 == q * h + r;
    assert 2 * (q * h) == q * (2 * h);
    DivModUnique(x, 2 * h, q, 2 * r + x % 2);
  }

  // ---------------------------------------------------------- binary digits

  /** Binary digit k of x. */
  function Bit(x: nat, k: nat): (d: nat)
    ensures d < 2
  {
    if k == 0 then x % 2 else Bit(x / 2, k - 1)
  }

  /** `|` sets a digit that either has, `^` tells whether they differ. */
  lemma {:induction false} OrBit(a: nat, b: nat, k: nat)
    ensures Bit(Or(a, b), k) == (if Bit(a, k) == 1 || Bit(b, k) == 1 then 1 else 0)
    decreases k
  {
    if k > 0 {
      assert Or(a, b) / 2 == Or(a / 2, b / 2);
      OrBit(a / 2, b / 2, k - 1);
    }
  }

  lemma {:induction false} XorBit(a: nat, b: nat, k: nat)
    ensures Bit(Xor(a, b), k) == (if Bit(a, k) != Bit(b, k) then 1 else 0)
    decreases k
  {
    if k > 0 {
      assert Xor(a, b) / 2 == Xor(a / 2, b / 2);
      XorBit(a / 2, b / 2, k - 1);
    }
  }

  /** Shifts move digits, and a remainder by a power of two keeps the low ones. */
  lemma {:induction false} ShrBit(x: nat, j: nat, k: nat)
    ensures Bit(Shr(x, j), k) == Bit(x, k + j)
    decreases j
  {
    if j > 0 { ShrBit(x / 2, j - 1, k); }
  }

  lemma {:induction false} TimesBit(x: nat, j: nat, k: nat)
    ensures Bit(x * Pow2(j), k) == (if k < j then 0 else Bit(x, k - j))
    decreases j
  {
    if j > 0 {
      var y := x * Pow2(j - 1);
      DoubleProduct(x, Pow2(j - 1));
      assert x * Pow2(j) == 2 * y && 2 * y / 2 == y;
      if k > 0 { TimesBit(x, j - 1, k - 1); }
    } else {
      assert x * Pow2(0) == x;
    }
  }

  lemma {:induction false} ModBit(x: nat, m: nat, k: nat)
    ensures Bit(x % Pow2(m), k) == (if k < m then Bit(x, k) else 0)
    decreases m
  {
    if m == 0 {
      ZeroDigits(k);
    } else {
      ModHalf(x, Pow2(m - 1));
      if k > 0 { ModBit(x / 2, m - 1, k - 1); }
    }
  }

  lemma ModHalf(x: nat, h: nat)
    requires h > 0
    ensures x % (2 * h) / 2 == (x / 2) % h && x % (2 * h) % 2 == x % 2
  {
    HalveMod(x, h);
  }

  lemma {:induction false} ZeroDigits(k: nat)
    ensures Bit(0, k) == 0
  {
    if k > 0 { ZeroDigits(k - 1); }
  }

  /** Exclusive or stays within the width of its operands. */
  lemma {:induction false} XorBound(a: nat, b: nat, k: nat)
    requires a < Pow2(k) && b < Pow2(k)
    ensures Xor(a, b) < Pow2(k)
    decreases k
  {
    if k != 0 && (a != 0 || b != 0) { XorBound(a / 2, b / 2, k - 1); }
  }

  /** Exclusive or with a fixed word can be undone. */
  lemma {:induction false} XorCancel(a: nat, b: nat)
    ensures Xor(Xor(a, b), b) == a
    decreases a + b
  {
    if a != 0 || b != 0 {
      XorCancel(a / 2, b / 2);
      assert Xor(a, b) / 2 == Xor(a / 2, b / 2);
    }
  }

  lemma {:induction false} XorCommutes(a: nat, b: nat)
    ensures Xor(a, b) == Xor(b, a)
    decreases a + b
  {
    if a != 0 || b != 0 { XorCommutes(a / 2, b / 2); }
  }
}

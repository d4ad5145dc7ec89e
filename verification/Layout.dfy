/**
  Power-of-two utilities (include/nabd/internal.h) and the region layout that
  nabd_open derives from them (src/nabd.c).
 */
module Layout {
  import opened Words

  const TWO63: nat := 0x8000_0000_0000_0000
  const CONTROL_SIZE: nat := 256
  const HEADER_SIZE: nat := 8
  const MAX_CONSUMERS: nat := 16
  const DEFAULT_CAPACITY: nat := 1024
  const DEFAULT_SLOT_SIZE: nat := 4096

  // ------------------------------------------------------ is_power_of_2

  /** `n && !(n & (n - 1))` */
  predicate IsPowerOfTwo(n: Word) {
    n != 0 && And(n, n - 1) == 0
  }

  /** The bit trick holds exactly for the powers of two. */
  lemma {:induction false} IsPowerOfTwoExact(n: Word)
    ensures IsPowerOfTwo(n) <==> IsPow2(n)
    decreases n
  {
    if n == 0 {
    } else if n % 2 == 1 {
      assert (n - 1) / 2 == n / 2;
      AndSelf(n / 2);
      if n == 1 {
        assert 1 == Pow2(0);
      } else if IsPow2(n) {
        OddPow2(n);
      }
    } else {
      var m: Word := n / 2;
      IsPowerOfTwoExact(m);
      assert (n - 1) / 2 == m - 1;
      assert And(n, n - 1) == 2 * And(m, m - 1);
      if IsPow2(m) {
        var k: nat :| m == Pow2(k);
        assert n == Pow2(k + 1);
      }
      if IsPow2(n) {
        var k: nat :| n == Pow2(k);
        assert m == Pow2(k - 1);
      }
    }
  }

  lemma OddPow2(n: nat)
    requires IsPow2(n) && n % 2 == 1
    ensures n == 1
  {
    var k: nat :| n == Pow2(k);
    Pow2Even(k);
  }

  lemma Pow2Even(k: nat)
    ensures k > 0 ==> Pow2(k) % 2 == 0
  {
  }

  // ---------------------------------------------------- next_power_of_2

  /** `x | (x >> k)` */
  function Spread(x: nat, k: nat): nat {
    Or(x, Shr(x, k))
  }

  /** The top k of the p + 1 binary digits of x are ones (all of them when k > p). */
  ghost predicate Run(x: nat, p: nat, k: nat) {
    if k <= p + 1 then Shr(x, p + 1 - k) == Pow2(k) - 1
    else x == Pow2(p + 1) - 1
  }

  lemma {:induction false} HasTopOne(x: nat) returns (p: nat)
    requires x > 0
    ensures Run(x, p, 1) && Pow2(p) <= x < Pow2(p + 1)
  {
    if x == 1 {
      p := 0;
    } else {
      var q := HasTopOne(x / 2);
      p := q + 1;
    }
  }

  lemma OnesTimes(j: nat, r: nat)
    ensures (Pow2(j) - 1) * Pow2(r) == Pow2(j + r) - Pow2(r)
  {
    Pow2Add(j, r);
  }

  lemma {:induction false} OnesShr(j: nat, d: nat)
    requires d <= j
    ensures Shr(Pow2(j) - 1, d) == Pow2(j - d) - 1
  {
    if d != 0 { OnesShr(j - 1, d - 1); }
  }

  /** Shifting by k and or-ing doubles the run of leading ones. */
  lemma SpreadDoubles(x: nat, p: nat, k: nat)
    requires 2 * k <= p + 1 && Run(x, p, k)
    ensures Run(Spread(x, k), p, 2 * k)
  {
    var m := p + 1 - 2 * k;
    OrShr(x, Shr(x, k), m);
    ShrShr(x, k, m);
    ShrShr(x, m, k);
    assert Shr(Shr(x, m), k) == Pow2(k) - 1;
    OrLowOnes(Shr(x, m), k);
    OnesTimes(k, k);
  }

  /** When fewer than k digits are left below the run, the step fills them all. */
  lemma SpreadFinishes(x: nat, p: nat, k: nat)
    requires k <= p + 1 < 2 * k && Run(x, p, k)
    ensures Run(Spread(x, k), p, 2 * k)
  {
    var r := p + 1 - k;
    ShrShr(x, r, k - r);
    OnesShr(k, k - r);
    assert Shr(x, k) == Pow2(r) - 1;
    OrLowOnes(x, r);
    OnesTimes(k, r);
  }

  /** A word that is all ones already stays so. */
  lemma SpreadKeeps(p: nat, k: nat)
    requires p + 1 < k
    ensures Spread(Pow2(p + 1) - 1, k) == Pow2(p + 1) - 1
  {
    Pow2Mono(p + 1, k);
    ShrBound(Pow2(p + 1) - 1, k);
    OrZero(Pow2(p + 1) - 1);
  }

  lemma SpreadStep(x: nat, p: nat, k: nat)
    requires Run(x, p, k)
    ensures Run(Spread(x, k), p, 2 * k)
  {
    if 2 * k <= p + 1 {
      SpreadDoubles(x, p, k);
    } else if k <= p + 1 {
      SpreadFinishes(x, p, k);
    } else {
      SpreadKeeps(p, k);
    }
  }

  lemma RunBound(x: nat, p: nat, k: nat)
    requires Run(x, p, k)
    ensures x < Pow2(p + 1)
  {
    if k <= p + 1 {
      Pow2Add(k, p + 1 - k);
      ShrBound(x, p + 1 - k);
    }
  }

  /** One line `n |= n >> k` of the cascade stays inside the word and doubles the run. */
  method OrShift(x: Word, k: nat, ghost p: nat) returns (y: Word)
    requires x != 0 ==> Run(x, p, k) && p < 64
    ensures y == Spread(x, k)
    ensures x != 0 ==> y != 0 && Run(y, p, 2 * k)
    ensures x == 0 ==> y == 0
  {
    ShrBound(0, k);
    if x != 0 {
      SpreadStep(x, p, k);
      RunBound(Spread(x, k), p, 2 * k);
      WordPow(p);
      OrNonZero(x, Shr(x, k));
    }
    y := Or(x, Shr(x, k));
  }

  lemma {:induction false} OrNonZero(a: nat, b: nat)
    requires a != 0
    ensures Or(a, b) != 0
  {
    if a % 2 == 0 { OrNonZero(a / 2, b / 2); }
  }

  /** r is the least power of two at or above n. */
  ghost predicate RoundsUp(n: nat, r: nat) {
    IsPow2(r) && n <= r && forall k: nat :: Pow2(k) >= n ==> r <= Pow2(k)
  }

  lemma RoundsUpFrom(n: nat, p: nat)
    requires Pow2(p) < n <= Pow2(p + 1)
    ensures RoundsUp(n, Pow2(p + 1))
  {
    forall k: nat | Pow2(k) >= n
      ensures Pow2(p + 1) <= Pow2(k)
    {
      Pow2MonoLe(k, p);
      Pow2MonoLe(p + 1, k);
    }
  }

  lemma RoundsUpSelf(k: nat)
    ensures RoundsUp(Pow2(k), Pow2(k))
  {
  }

  /**
    nabd_next_power_of_2. For 1 <= n <= 2^63 the result is the least power of
    two at or above n; the two ends of the range that the code does not guard
    (0 and everything above 2^63) both wrap to 0.
   */
  method NextPowerOfTwo(n: Word) returns (r: Word)
    ensures 1 <= n <= TWO63 ==> RoundsUp(n, r)
    ensures n == 0 || n > TWO63 ==> r == 0
  {
    var x: Word := Wrap(n - 1);
    ghost var p := 0;
    if x != 0 {
      p := HasTopOne(x);
      Pow2Exponent(p);
    }
    ghost var start := x;
    x := OrShift(x, 1, p);
    x := OrShift(x, 2, p);
    x := OrShift(x, 4, p);
    x := OrShift(x, 8, p);
    x := OrShift(x, 16, p);
    x := OrShift(x, 32, p);
    r := Wrap(x + 1);
    if start != 0 { RunOfAll(x, p); }
    CascadeResult(n, start, p, x);
  }

  /** Doubling a power of two below 2^63 stays within 2^63. */
  lemma WordPow(p: nat)
    ensures p < 63 ==> 2 * Pow2(p) <= TWO63
    ensures p == 63 ==> Pow2(p) == TWO63
  {
    Pow2At(p);
    var w := 63;
    Pow2At(w);
    Pow2MonoLe(p + 1, w);
  }

  lemma RunOfAll(x: nat, p: nat)
    requires p < 64 && Run(x, p, 64)
    ensures x == 2 * Pow2(p) - 1
  {
    if p == 63 { assert Shr(x, p + 1 - 64) == x; }
  }

  /** Subtracting and adding 1 on words. */
  lemma WrapOne(n: Word, x: Word)
    ensures Wrap(n - 1) == (if n == 0 then TWO64 - 1 else n - 1)
    ensures Wrap(x + 1) == (if x == TWO64 - 1 then 0 else x + 1)
  {
  }

  /** What the filled word says about the rounded size. */
  lemma CascadeResult(n: Word, start: Word, p: nat, x: Word)
    requires start == Wrap(n - 1)
    requires start == 0 ==> x == 0
    requires start != 0 ==> p < 64 && Pow2(p) <= start < 2 * Pow2(p) && x == 2 * Pow2(p) - 1
    ensures 1 <= n <= TWO63 ==> RoundsUp(n, Wrap(x + 1))
    ensures n == 0 || n > TWO63 ==> Wrap(x + 1) == 0
  {
    WrapOne(n, x);
    if start == 0 {
      RoundsUpSelf(0);
    } else {
      WordPow(p);
      if p < 63 { RoundsUpFrom(n, p); }
    }
  }

  // --------------------------------------------------------------- layout

  /** sizeof(nabd_control_t) + capacity * slot_size, computed on size_t */
  function RegionSize(capacity: Word, slotSize: Word): Word {
    Wrap(CONTROL_SIZE + capacity * slotSize)
  }

  /** Byte offset, from the start of the region, of the slot at a counter value (get_slot). */
  function SlotOffset(index: Word, capacity: Word, slotSize: Word): nat
    requires capacity > 0
  {
    CONTROL_SIZE + And(index, capacity - 1) * slotSize
  }

  /** Sizes a creator stores in the control block and an attacher reads back. */
  datatype Geometry = Geometry(capacity: Word, slotSize: Word)

  /** s is the least slot size at or above the one asked for with room for the header and 8 bytes. */
  ghost predicate LeastSlot(asked: nat, s: nat) {
    asked <= s && HEADER_SIZE + 8 <= s && (s == asked || s == HEADER_SIZE + 8)
  }

  /** The create-time normalisation of nabd_open. */
  method Normalise(capacity: Word, slotSize: Word) returns (g: Geometry)
    ensures slotSize > 0 ==> LeastSlot(slotSize, g.slotSize)
    ensures slotSize == 0 ==> g.slotSize == DEFAULT_SLOT_SIZE
    ensures capacity == 0 ==> g.capacity == DEFAULT_CAPACITY
    ensures 1 <= capacity <= TWO63 ==> RoundsUp(capacity, g.capacity)
    ensures capacity <= TWO63 ==> IsPow2(g.capacity) && g.capacity <= TWO63
    ensures capacity > TWO63 ==> g.capacity == 0
  {
    var c: Word, s: Word := capacity, slotSize;
    if c == 0 { c := DEFAULT_CAPACITY; }
    if s == 0 { s := DEFAULT_SLOT_SIZE; }
    ghost var asked := c;
    IsPowerOfTwoExact(c);
    if !IsPowerOfTwo(c) {
      c := NextPowerOfTwo(c);
    }
    SizeFits(asked, c);
    if s < HEADER_SIZE + 8 { s := HEADER_SIZE + 8; }
    g := Geometry(c, s);
  }

  /** A power of two in a word is at most 2^63 and is its own rounding. */
  lemma SizeFits(asked: Word, c: Word)
    ensures IsPow2(c) ==> c <= TWO63
    ensures IsPow2(c) && asked == c ==> RoundsUp(asked, c)
  {
    if IsPow2(c) {
      var k: nat :| c == Pow2(k);
      Pow2Exponent(k);
      WordPow(k);
      RoundsUpSelf(k);
    }
  }

  /**
    Every slot of a created queue lies inside the mapped region, for every
    counter value, exactly when the size computation does not overflow.
   */
  lemma RegionHoldsSlots(capacity: Word, slotSize: Word)
    requires IsPow2(capacity) && slotSize > 0
    ensures CONTROL_SIZE + capacity * slotSize < TWO64 <==>
      forall i: Word :: SlotOffset(i, capacity, slotSize) + slotSize <= RegionSize(capacity, slotSize)
  {
    var k: nat :| capacity == Pow2(k);
    if CONTROL_SIZE + capacity * slotSize < TWO64 {
      forall i: Word
        ensures SlotOffset(i, capacity, slotSize) + slotSize <= RegionSize(capacity, slotSize)
      {
        AndMask(i, k);
        RowInside(And(i, capacity - 1), capacity, slotSize);
      }
    } else {
      LastSlotEnd(capacity, slotSize, k);
      assert SlotOffset(capacity - 1, capacity, slotSize) + slotSize > RegionSize(capacity, slotSize);
    }
  }

  /** And the region ends where its last slot ends. */
  lemma RegionEndsWithSlots(capacity: Word, slotSize: Word)
    requires IsPow2(capacity) && CONTROL_SIZE + capacity * slotSize < TWO64
    ensures SlotOffset(capacity - 1, capacity, slotSize) + slotSize == RegionSize(capacity, slotSize)
  {
    var k: nat :| capacity == Pow2(k);
    LastSlotEnd(capacity, slotSize, k);
  }

  lemma LastSlotEnd(capacity: Word, slotSize: Word, k: nat)
    requires capacity == Pow2(k)
    ensures SlotOffset(capacity - 1, capacity, slotSize) + slotSize == CONTROL_SIZE + capacity * slotSize
  {
    AndMask(capacity - 1, k);
    DivModUnique(capacity - 1, capacity, 0, capacity - 1);
    assert (capacity - 1) * slotSize == capacity * slotSize - slotSize;
  }

  lemma RowInside(i: nat, rows: nat, width: nat)
    requires i < rows
    ensures i * width + width <= rows * width
  {
    assert (rows - i - 1) * width >= 0;
    assert rows * width == i * width + width + (rows - i - 1) * width;
  }

  /** Different rows never share a byte. */
  lemma RowsDisjoint(i: nat, j: nat, a: nat, b: nat, width: nat)
    requires i != j && a < width && b < width
    ensures i * width + a != j * width + b
  {
    if i < j { RowInside(i, j, width); } else { RowInside(j, i, width); }
  }

  /** The slots tile the region behind the control block: the slot of a position is row
      `position mod capacity`, past any number of wraps. */
  lemma SlotPlace(p: nat, capacity: Word, slotSize: Word)
    requires IsPow2(capacity)
    ensures var at := SlotOffset(Wrap(p), capacity, slotSize);
      && at == CONTROL_SIZE + p % capacity * slotSize
      && CONTROL_SIZE <= at && at + slotSize <= CONTROL_SIZE + capacity * slotSize
  {
    MaskedIndex(p, capacity);
    var row := p % capacity;
    RowInside(row, capacity, slotSize);
    assert row * slotSize >= 0;
  }

  /** Slots at positions less than capacity apart share no byte, past any number of wraps. */
  lemma LiveSlotsDisjoint(p: nat, q: nat, a: nat, b: nat, capacity: Word, slotSize: Word)
    requires IsPow2(capacity) && p < q < p + capacity
    requires a < slotSize && b < slotSize
    ensures SlotOffset(Wrap(p), capacity, slotSize) + a != SlotOffset(Wrap(q), capacity, slotSize) + b
  {
    MaskedIndex(p, capacity);
    MaskedIndex(q, capacity);
    ModDistinct(p, q, capacity);
    RowsDisjoint(p % capacity, q % capacity, a, b, slotSize);
  }
}

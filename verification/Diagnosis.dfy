/**
  The verdict on a control block and its recovery (src/persistence.c), and what an
  observer of a live queue can conclude from one load of head followed by one
  load of tail (nabd_diagnose, nabd_get_metrics, nabd_stats, nabd_fill_level).
 */
module Diagnosis {
  import opened Words
  import opened Spsc
  import opened SpscInvariant
  import opened SpscRuns
  import opened SpscWitness

  const NABD_MAGIC: Word := 0x4442_414E_0001_0000
  const NABD_VERSION: Word := 1      // (0 << 16) | 1

  datatype Health = Healthy | Empty | Corrupted | Incomplete | VersionError

  datatype Diagnostic = Diagnostic(
    state: Health, magicOk: bool, versionOk: bool, head: Word, tail: Word, pending: Word, capacity: Word)

  /** `head >= tail ? head - tail : 0` */
  function Pending(h: nat, t: nat): nat {
    if h >= t then h - t else 0
  }

  /** The verdict on the two loaded counters. */
  function Verdict(h: nat, t: nat, capacity: nat): Health {
    if Pending(h, t) > capacity then Corrupted
    else if Pending(h, t) == 0 then Empty
    else Healthy
  }

  /** The fields of the control block that recovery looks at. */
  datatype Control = Control(magic: Word, version: Word, capacity: Word, head: Word, tail: Word) {
    predicate Recognised() {
      magic == NABD_MAGIC && version == NABD_VERSION
    }

    function State(): Health {
      if magic != NABD_MAGIC then Corrupted
      else if version != NABD_VERSION then VersionError
      else Verdict(head, tail, capacity)
    }

    /** Messages between the counters, by the wrapping subtraction that push uses. */
    function Used(): Word {
      Diff(head, tail)
    }

    /** The counters describe a queue that holds 0..capacity messages, wrapped or not. */
    predicate Consistent() {
      Used() <= capacity
    }

    /** A forced recovery resets this block. */
    predicate NeedsReset() {
      State() != Healthy && State() != Empty
    }

    /** The control block after nabd_recover, with nobody else running. */
    function Recovered(force: bool): Control {
      if force && NeedsReset() then this.(tail := head) else this
    }
  }

  /** What each verdict says about the fields: a queue with messages is healthy, one with
      none (or with tail ahead) is empty, and only these two pass for a queue. */
  lemma StateExactly(c: Control)
    ensures var ours := c.magic == NABD_MAGIC && c.version == NABD_VERSION;
      && (c.State() == Healthy <==> ours && 0 < c.head - c.tail <= c.capacity)
      && (c.State() == Empty <==> ours && c.head <= c.tail)
      && (c.State() == VersionError <==> c.magic == NABD_MAGIC && c.version != NABD_VERSION)
      && (c.State() == Corrupted <==> c.magic != NABD_MAGIC || (ours && c.head - c.tail > c.capacity))
  {
  }

  // ---------------------------------------------------------- recovery laws

  /** Recovering twice is recovering once. */
  lemma RecoverIdempotent(c: Control, force: bool)
    ensures c.Recovered(force).Recovered(force) == c.Recovered(force)
  {
  }

  /** A reset block is diagnosed EMPTY exactly when magic and version are right. */
  lemma ResetIsEmpty(c: Control)
    ensures c.(tail := c.head).State() == Empty <==> c.Recognised()
  {
  }

  /** The value of a subtraction that goes below zero. */
  lemma DiffBelow(a: Word, b: Word)
    ensures b <= a ==> Diff(a, b) == a - b
    ensures a < b ==> Diff(a, b) == a - b + TWO64
  {
    if a < b { DivModUnique(a - b, TWO64, -1, a - b + TWO64); }
  }

  /**
    Forced recovery leaves consistent counters exactly when it is not misled by
    a tail ahead of head, which diagnosis reads as an empty queue, while the
    wrapping distance is more than the capacity.
   */
  lemma RecoverConsistentExactly(c: Control)
    ensures c.Recovered(true).Consistent() <==> !(c.Recognised() && c.tail > c.head && c.Used() > c.capacity)
  {
    DiffBelow(c.head, c.tail);
  }

  /**
    Diagnosis counts the messages right exactly when tail is not ahead of head.
    A tail ahead of head is diagnosed EMPTY though push and pop find messages.
   */
  lemma PendingExactly(c: Control)
    requires c.Recognised()
    ensures Pending(c.head, c.tail) == c.Used() <==> c.tail <= c.head
    ensures c.tail > c.head ==> c.State() == Empty && c.Used() > 0
  {
    DiffBelow(c.head, c.tail);
  }

  /** Each pop brings the wrapping distance down by one. */
  lemma UsedAfterPops(c: Control, pops: nat)
    requires pops <= c.Used()
    ensures Diff(c.head, Wrap(c.tail + pops)) == c.Used() - pops
  {
    DiffBelow(c.head, c.tail);
    DiffBelow(c.head, Wrap(c.tail + pops));
    if c.tail + pops >= TWO64 { DivModUnique(c.tail + pops, TWO64, 1, c.tail + pops - TWO64); }
  }

  /**
    The missed case is diagnosed EMPTY and left as it is, with or without force.
    With tail moved on by some number of pops, the check of push still says FULL
    exactly while the distance has not come below the capacity.
   */
  lemma TailAheadStaysStuck(c: Control, force: bool, pops: nat)
    requires c.Recognised() && c.head < c.tail && c.Used() > c.capacity && pops <= c.Used()
    ensures c.State() == Empty && c.Recovered(force) == c
    ensures Diff(c.head, Wrap(c.tail + pops)) >= c.capacity <==> pops <= c.Used() - c.capacity
  {
    UsedAfterPops(c, pops);
  }

  // -------------------------------------------------------- live observation

  /** `(int)((pending * 100) / capacity)`, the product on uint64_t. */
  function FillPercent(used: nat, capacity: nat): nat
    requires capacity > 0
  {
    PercentIsNat(Wrap(used * 100), capacity);
    Wrap(used * 100) / capacity
  }

  lemma PercentIsNat(x: nat, capacity: nat)
    requires capacity > 0
    ensures x / capacity >= 0
  {
    var q: int := x / capacity;
    assert x == q * capacity + x % capacity;
    assert q <= -1 ==> q * capacity <= 0 - capacity;
  }

  /** At most capacity messages never read as more than 100 percent, even when the
      product overflows. */
  lemma FillPercentBound(used: nat, capacity: nat)
    requires used <= capacity && capacity > 0
    ensures FillPercent(used, capacity) <= 100
  {
    var x := Wrap(used * 100);
    assert used * 100 == (used * 100 / TWO64) * TWO64 + x;
    assert x <= used * 100;
    var q := x / capacity;
    assert x == q * capacity + x % capacity;
    assert q >= 101 ==> q * capacity >= 101 * capacity;
  }

  /**
    An observer of a live queue loads head, then tail, while both sides run. Its
    pending count is within 0..capacity, so diagnosis never says CORRUPTED and
    the metrics fill percentage stays within 0..100.
   */
  lemma ObserverIsSane(c: Config, states: seq<State>, steps: seq<Step>, i: nat)
    requires IsRun(c, states, steps) && c.arith.Unbounded? && i < |states| && states[i].obs.OBoth?
    ensures var o := states[i].obs;
      && c.capacity > 0
      && Pending(o.h, o.t) <= c.capacity
      && Verdict(o.h, o.t, c.capacity) != Corrupted
      && FillPercent(Pending(o.h, o.t), c.capacity) <= 100
  {
    RunInv(c, states, steps, i);
    FillPercentBound(Pending(states[i].obs.h, states[i].obs.t), c.capacity);
  }

  /**
    What the two loads of a live queue are worth. They differ from the number of
    messages at the first moment by what was popped meanwhile, and from that at the
    second by what was pushed meanwhile; so pending never counts too many.
   */
  lemma ObserverUndercounts(c: Config, states: seq<State>, steps: seq<Step>, x: nat, y: nat, i: nat)
    requires IsRun(c, states, steps) && c.arith.Unbounded? && Observation(steps, x, y, i)
    ensures var o, first, second := states[i].obs, states[x].head - states[x].tail, states[y].head - states[y].tail;
      && o.OBoth?
      && o.h - o.t == first - (states[y].tail - states[x].tail) == second - (states[y].head - states[x].head)
      && Pending(o.h, o.t) <= first && Pending(o.h, o.t) <= second
  {
    ObserverLoads(c, states, steps, x, y, i);
    RunExtends(c, states, steps, x, y);
    RunInv(c, states, steps, x);
    RunInv(c, states, steps, y);
  }

  /**
    nabd_stats subtracts without the guard. Its used count of a live queue is
    right exactly when the loaded tail is not ahead of the loaded head; otherwise
    it is larger than the capacity. (Counters that have not wrapped.)
   */
  lemma StatsExactly(c: Config, states: seq<State>, steps: seq<Step>, i: nat)
    requires IsRun(c, states, steps) && c.arith.Unbounded? && i < |states| && states[i].obs.OBoth?
    requires states[i].head + c.capacity < TWO64
    ensures var o := states[i].obs;
      && o.h < TWO64 && o.t < TWO64
      && (o.t <= o.h ==> Diff(o.h, o.t) == o.h - o.t <= c.capacity)
      && (o.t > o.h ==> Diff(o.h, o.t) > c.capacity)
  {
    RunInv(c, states, steps, i);
    var o := states[i].obs;
    if o.t > o.h {
      DivModUnique(o.h - o.t, TWO64, -1, o.h - o.t + TWO64);
    }
  }

  /**
    What nabd_fill_level computes from those two loads, before it is converted to
    int. With tail not ahead of head it is the percentage, at most 100. With tail
    ahead by d it is the quotient of a word 100 * d below a multiple of 2^64.
   */
  lemma FillLevelExactly(c: Config, states: seq<State>, steps: seq<Step>, i: nat)
    requires IsRun(c, states, steps) && c.arith.Unbounded? && i < |states| && states[i].obs.OBoth?
    requires states[i].head + c.capacity < TWO64
    ensures var o := states[i].obs;
      && c.capacity > 0 && o.h < TWO64 && o.t < TWO64
      && var level := FillPercent(Diff(o.h, o.t), c.capacity);
      && (o.t <= o.h ==> level == Wrap((o.h - o.t) * 100) / c.capacity <= 100)
      && (o.t > o.h ==> level == Wrap(0 - 100 * (o.t - o.h)) / c.capacity)
  {
    StatsExactly(c, states, steps, i);
    RunInv(c, states, steps, i);
    var o := states[i].obs;
    if o.t <= o.h {
      FillPercentBound(o.h - o.t, c.capacity);
    } else {
      DiffBelow(o.h, o.t);
      WrapShift(0 - 100 * (o.t - o.h), 100);
    }
  }

  /** Multiples of 2^64 do not show. */
  lemma WrapShift(x: int, n: nat)
    ensures Wrap(x + n * TWO64) == Wrap(x)
  {
    assert x == (x / TWO64) * TWO64 + Wrap(x);
    assert x + n * TWO64 == (x / TWO64 + n) * TWO64 + Wrap(x);
    DivModUnique(x + n * TWO64, TWO64, x / TWO64 + n, Wrap(x));
  }

  /** And the bad case happens: a run in which the used count is 2^64 - 1 and the fill
      level does not fit int. */
  lemma StatsUnderflows() returns (states: seq<State>, steps: seq<Step>)
    ensures IsRun(C2, states, steps) && states[|steps|].obs.OBoth?
    ensures var o := states[|steps|].obs;
      && o.h < TWO64 && o.t < TWO64 && Diff(o.h, o.t) == UINT64_MAX
      && FillPercent(Diff(o.h, o.t), C2.capacity) > 0x7FFF_FFFF
  {
    states, steps := ObservedTailAhead();
    WrapShift(0 - 100, 100);
    DivModUnique(0 - 100, TWO64, -1, TWO64 - 100);
  }
}

/**
  The machine with wrapping 64-bit counters and masked indices simulates the
  unbounded one, step by step and over runs of any length, so every theorem
  about runs carries over past any number of counter wraps.
 */
module SpscWrapped {
  import opened Payload
  import opened Words
  import opened Spsc
  import opened SpscInvariant
  import opened SpscRuns

  // ----------------------------------------------------------- abstraction

  function WrapProducer(p: Producer): Producer {
    match p
    case PIdle => p
    case Called(_) => p
    case HasHead(req, h) => HasHead(req, Wrap(h))
    case HasTail(req, h, v) => HasTail(req, Wrap(h), Wrap(v))
    case Copying(data, h, i) => Copying(data, Wrap(h), i)
    case Held(len, h) => Held(len, Wrap(h))
    case WriteLength(data, h) => WriteLength(data, Wrap(h))
    case WriteFlags(data, h) => WriteFlags(data, Wrap(h))
    case WriteSequence(data, h) => WriteSequence(data, Wrap(h))
    case Publish(data, h) => Publish(data, Wrap(h))
  }

  function WrapConsumer(k: Consumer): Consumer {
    match k
    case CIdle => k
    case Asked(_) => k
    case HasOwn(pop, t) => HasOwn(pop, Wrap(t))
    case HasSeen(pop, t, v) => HasSeen(pop, Wrap(t), Wrap(v))
    case AtHeader(pop, t) => AtHeader(pop, Wrap(t))
    case Draining(room, t, n, got) => Draining(room, Wrap(t), n, got)
    case Consume(room, t, got) => Consume(room, Wrap(t), got)
    case Peeked(t, n) => Peeked(Wrap(t), n)
    case Releasing(_) => k
    case Release(t, n) => Release(Wrap(t), n)
  }

  function WrapObserver(o: Observer): Observer {
    match o
    case OIdle => o
    case OHead(h) => OHead(Wrap(h))
    case OBoth(h, t) => OBoth(Wrap(h), Wrap(t))
  }

  /** Every counter reduced mod 2^64; memory and logs unchanged. */
  function WrapState(s: State): State {
    s.(head := Wrap(s.head), tail := Wrap(s.tail),
       prod := WrapProducer(s.prod), cons := WrapConsumer(s.cons), obs := WrapObserver(s.obs),
       seenTail := Wrap(s.seenTail), seenHead := Wrap(s.seenHead),
       callTail := Wrap(s.callTail), callHead := Wrap(s.callHead))
  }

  function Lifted(c: Config): Config {
    c.(arith := Unbounded)
  }

  /** The true value behind a wrapped load: the last seen one plus the wrapped distance. */
  function LiftView(seen: nat, v: nat): nat {
    seen + (v - Wrap(seen)) % TWO64
  }

  function LiftStep(s: State, e: Step): Step {
    match e
    case P(LoadTail(v)) => P(LoadTail(LiftView(s.seenTail, v)))
    case C(LoadSeenHead(v)) => C(LoadSeenHead(LiftView(s.seenHead, v)))
    case _ => e
  }

  // ------------------------------------------------------------ simulation

  lemma WrapShape(c: Config, s: State)
    requires c.Valid() && c.arith.Wrapped? && Shape(Lifted(c), s)
    ensures Shape(c, WrapState(s))
  {
  }

  /** Every wrapped value inside the visible window lifts to a true value inside it. */
  lemma ViewLifts(c: Config, seen: nat, v: nat, now: nat)
    requires c.arith.Wrapped? && seen <= now < seen + TWO64
    requires Visible(c, Wrap(seen), v, Wrap(now))
    ensures Visible(Lifted(c), seen, LiftView(seen, v), now)
    ensures Wrap(LiftView(seen, v)) == v
  {
    DiffOfWraps(now, seen);
    var d := (v - Wrap(seen)) % TWO64;
    var q := (v - Wrap(seen)) / TWO64;
    assert v - Wrap(seen) == q * TWO64 + d;
    assert seen == (seen / TWO64) * TWO64 + Wrap(seen);
    assert seen + d == (seen / TWO64 - q) * TWO64 + v;
    DivModUnique(seen + d, TWO64, seen / TWO64 - q, v);
  }

  /** Facts about the producer's counter that each of its steps needs. */
  lemma ProducerCounters(c: Config, s: State, h: nat)
    requires c.Valid() && c.arith.Wrapped? && h == s.head
    requires s.seenTail <= s.head <= s.seenTail + c.capacity
    ensures c.SlotOf(Wrap(h)) == Lifted(c).SlotOf(h)
    ensures c.Succ(Wrap(h)) == Wrap(h + 1)
    ensures c.Gap(Wrap(h), Wrap(s.seenTail)) == h - s.seenTail
    ensures Wrap(h) % TWO32 == h % TWO32
  {
    MaskedIndex(h, c.capacity);
    WrapSucc(h);
    DiffOfWraps(h, s.seenTail);
    WrapMod32(h);
  }

  lemma PWriteSimulates(c: Config, s: State, e: PStep)
    requires c.Valid() && c.arith.Wrapped? && Inv(Lifted(c), s)
    requires PEnabled(c, WrapState(s), e) && WritesSlot(e)
    ensures Shape(c, WrapState(s))
    ensures LiftStep(s, P(e)).P? && PEnabled(Lifted(c), s, LiftStep(s, P(e)).p)
    ensures PApply(c, WrapState(s), e) == WrapState(PApply(Lifted(c), s, LiftStep(s, P(e)).p))
  {
    WrapShape(c, s);
    ProducerCounters(c, s, s.head);
  }

  lemma PQuietSimulates(c: Config, s: State, e: PStep)
    requires c.Valid() && c.arith.Wrapped? && Inv(Lifted(c), s)
    requires PEnabled(c, WrapState(s), e) && !WritesSlot(e)
    ensures Shape(c, WrapState(s))
    ensures LiftStep(s, P(e)).P? && PEnabled(Lifted(c), s, LiftStep(s, P(e)).p)
    ensures PApply(c, WrapState(s), e) == WrapState(PApply(Lifted(c), s, LiftStep(s, P(e)).p))
  {
    WrapShape(c, s);
    ProducerCounters(c, s, s.head);
    if e.LoadTail? { ViewLifts(c, s.seenTail, e.v, s.tail); }
  }

  lemma ConsumerCounters(c: Config, s: State, t: nat)
    requires c.Valid() && c.arith.Wrapped? && t == s.tail
    requires s.tail <= s.seenHead <= s.head <= s.tail + c.capacity
    ensures c.SlotOf(Wrap(t)) == Lifted(c).SlotOf(t)
    ensures c.Succ(Wrap(t)) == Wrap(t + 1)
    ensures Wrap(t) == Wrap(s.seenHead) <==> t == s.seenHead
  {
    MaskedIndex(t, c.capacity);
    WrapSucc(t);
    WrapInjective(s.seenHead, t);
  }

  /** Steps at which the consumer looks into a slot. */
  predicate LoadsSlot(e: CStep) {
    e.ReadLength? || e.ReadByte? || e.ReleaseStore?
  }

  lemma CReadSimulates(c: Config, s: State, e: CStep)
    requires c.Valid() && c.arith.Wrapped? && Inv(Lifted(c), s)
    requires CEnabled(c, WrapState(s), e) && LoadsSlot(e)
    ensures Shape(c, WrapState(s)) && CEnabled(Lifted(c), s, e)
    ensures CApply(c, WrapState(s), e) == WrapState(CApply(Lifted(c), s, e))
  {
    WrapShape(c, s);
    ConsumerCounters(c, s, s.tail);
  }

  lemma CQuietSimulates(c: Config, s: State, e: CStep)
    requires c.Valid() && c.arith.Wrapped? && Inv(Lifted(c), s)
    requires CEnabled(c, WrapState(s), e) && !LoadsSlot(e)
    ensures Shape(c, WrapState(s))
    ensures LiftStep(s, C(e)).C? && CEnabled(Lifted(c), s, LiftStep(s, C(e)).k)
    ensures CApply(c, WrapState(s), e) == WrapState(CApply(Lifted(c), s, LiftStep(s, C(e)).k))
  {
    WrapShape(c, s);
    ConsumerCounters(c, s, s.tail);
    if e.LoadSeenHead? { ViewLifts(c, s.seenHead, e.v, s.head); }
  }

  /** One step of the wrapping machine is one step of the unbounded one. */
  lemma Simulates(c: Config, s: State, e: Step)
    requires c.Valid() && c.arith.Wrapped? && Inv(Lifted(c), s)
    requires Enabled(c, WrapState(s), e)
    ensures Shape(c, WrapState(s)) && Enabled(Lifted(c), s, LiftStep(s, e))
    ensures Apply(c, WrapState(s), e) == WrapState(Apply(Lifted(c), s, LiftStep(s, e)))
  {
    match e
    case P(p) => if WritesSlot(p) { PWriteSimulates(c, s, p); } else { PQuietSimulates(c, s, p); }
    case C(k) => if LoadsSlot(k) { CReadSimulates(c, s, k); } else { CQuietSimulates(c, s, k); }
    case O(o) => WrapShape(c, s);
  }

  // ------------------------------------------------------------------ runs

  /** wide is an unbounded run of which states is the image. */
  ghost predicate Lifts(c: Config, states: seq<State>, steps: seq<Step>, wide: seq<State>, wideSteps: seq<Step>) {
    && IsRun(Lifted(c), wide, wideSteps) && |wide| == |states| == |steps| + 1
    && (forall i :: 0 <= i < |states| ==> states[i] == WrapState(wide[i]))
    && (forall i :: 0 <= i < |steps| ==> wideSteps[i] == LiftStep(wide[i], steps[i]))
  }

  /** Any run of the wrapping machine, however long, is the image of an unbounded run. */
  lemma {:induction false} LiftRun(c: Config, states: seq<State>, steps: seq<Step>)
      returns (wide: seq<State>, wideSteps: seq<Step>)
    requires IsRun(c, states, steps) && c.arith.Wrapped?
    ensures IsRun(Lifted(c), wide, wideSteps) && |wide| == |states|
    ensures forall i :: 0 <= i < |states| ==> states[i] == WrapState(wide[i])
    ensures forall i :: 0 <= i < |steps| ==> wideSteps[i] == LiftStep(wide[i], steps[i])
    decreases |steps|
  {
    if |steps| == 0 {
      wide, wideSteps := states, [];
      LiftInit(c, states[0]);
    } else {
      PrefixIsRun(c, states, steps);
      var before, beforeSteps := states[..|steps|], steps[..|steps| - 1];
      wide, wideSteps := LiftRun(c, before, beforeSteps);
      assert Lifts(c, before, beforeSteps, wide, wideSteps);
      var next, e := LiftLast(c, states, steps, wide, wideSteps);
      wide, wideSteps := wide + [next], wideSteps + [e];
    }
  }

  /** The last step of a run, lifted onto the lifted run before it. */
  lemma LiftLast(c: Config, states: seq<State>, steps: seq<Step>, wide: seq<State>, wideSteps: seq<Step>)
      returns (next: State, e: Step)
    requires IsRun(c, states, steps) && c.arith.Wrapped? && |steps| > 0
    requires Lifts(c, states[..|steps|], steps[..|steps| - 1], wide, wideSteps)
    ensures Lifts(c, states, steps, wide + [next], wideSteps + [e])
  {
    var n := |steps| - 1;
    RunInv(Lifted(c), wide, wideSteps, n);
    assert Follows(c, states[n], steps[n], states[n + 1]);
    assert states[..|steps|][n] == states[n];
    Simulates(c, wide[n], steps[n]);
    e := LiftStep(wide[n], steps[n]);
    next := Apply(Lifted(c), wide[n], e);
    AppendRun(Lifted(c), wide, wideSteps, e);
    LiftJoined(c, states, steps, wide, wideSteps, next, e);
  }

  lemma LiftJoined(c: Config, states: seq<State>, steps: seq<Step>, wide: seq<State>, wideSteps: seq<Step>, next: State, e: Step)
    requires |states| == |steps| + 1 && |steps| > 0
    requires Lifts(c, states[..|steps|], steps[..|steps| - 1], wide, wideSteps)
    requires IsRun(Lifted(c), wide + [next], wideSteps + [e])
    requires states[|steps|] == WrapState(next) && e == LiftStep(wide[|steps| - 1], steps[|steps| - 1])
    ensures Lifts(c, states, steps, wide + [next], wideSteps + [e])
  {
    var n := |steps| - 1;
    forall i | 0 <= i < |states| ensures states[i] == WrapState((wide + [next])[i]) {
      assert i <= n ==> states[..|steps|][i] == states[i];
    }
    forall i | 0 <= i < |steps| ensures (wideSteps + [e])[i] == LiftStep((wide + [next])[i], steps[i]) {
      assert i < n ==> steps[..n][i] == steps[i];
    }
  }

  lemma LiftInit(c: Config, s: State)
    requires Init(c, s) && c.arith.Wrapped?
    ensures Init(Lifted(c), s) && WrapState(s) == s
  {
  }

  lemma PrefixIsRun(c: Config, states: seq<State>, steps: seq<Step>)
    requires IsRun(c, states, steps) && |steps| > 0
    ensures IsRun(c, states[..|steps|], steps[..|steps| - 1])
  {
    forall i | 0 <= i < |steps| - 1
      ensures Follows(c, states[..|steps|][i], steps[..|steps| - 1][i], states[..|steps|][i + 1])
    {
      assert Follows(c, states[i], steps[i], states[i + 1]);
    }
  }

  lemma AppendRun(c: Config, states: seq<State>, steps: seq<Step>, e: Step)
    requires IsRun(c, states, steps)
    requires Shape(c, states[|steps|]) && Enabled(c, states[|steps|], e)
    ensures IsRun(c, states + [Apply(c, states[|steps|], e)], steps + [e])
  {
    var states' := states + [Apply(c, states[|steps|], e)];
    var steps' := steps + [e];
    forall i | 0 <= i < |steps'|
      ensures Follows(c, states'[i], steps'[i], states'[i + 1])
    {
      if i < |steps| { assert Follows(c, states[i], steps[i], states[i + 1]); }
    }
  }

  // ------------------------------------------ theorems for the code's machine

  /** The slot of position p, found through the wrapped counter and the mask, carries p's payload. */
  ghost predicate MaskedSlotHas(c: Config, s: State, p: nat)
    requires c.capacity > 0
  {
    p < |s.published| && c.SlotOf(Wrap(p)) < |s.slots| && Holds(s.slots[c.SlotOf(Wrap(p))], p, s.published[p])
  }

  /**
    FIFO delivery for the machine the code runs: 64-bit counters, masked
    indices, any number of messages. Every undelivered message is intact in the
    slot that its masked position names.
   */
  lemma WrappedFifo(c: Config, states: seq<State>, steps: seq<Step>, i: nat)
    requires IsRun(c, states, steps) && c.arith.Wrapped? && i < |states|
    ensures var s := states[i];
      && c.capacity > 0
      && |s.delivered| <= |s.published| <= |s.delivered| + c.capacity
      && (forall k :: 0 <= k < |s.delivered| ==> s.delivered[k] == Wire(s.published[k]))
      && s.head == Wrap(|s.published|) && s.tail == Wrap(|s.delivered|)
      && (forall p: nat :: |s.delivered| <= p < |s.published| ==> MaskedSlotHas(c, s, p))
  {
    var wide, wideSteps := LiftRun(c, states, steps);
    FifoDelivery(Lifted(c), wide, wideSteps, i, i);
    var s, w := states[i], wide[i];
    assert s == WrapState(w);
    forall p: nat | |s.delivered| <= p < |s.published| ensures MaskedSlotHas(c, s, p) {
      assert SlotHas(c.capacity, w, p);
      MaskedIndex(p, c.capacity);
    }
  }

  /** The masked slot of position p is the same in both states. */
  ghost predicate SameMaskedSlot(c: Config, s: State, s': State, p: nat)
    requires c.capacity > 0
  {
    var j := c.SlotOf(Wrap(p));
    j < |s.slots| == |s'.slots| && s.slots[j] == s'.slots[j]
  }

  /** The masked slot being written is never the masked slot being read, and a published
      slot keeps its bytes and header until tail passes it. */
  lemma WrappedNoTornReads(c: Config, states: seq<State>, steps: seq<Step>, i: nat, j: nat)
    requires IsRun(c, states, steps) && c.arith.Wrapped? && i <= j < |states|
    ensures Shape(c, states[j]) && Writing(c, states[j]) != Reading(c, states[j])
    ensures forall p: nat :: |states[j].delivered| <= p < |states[i].published| ==>
      SameMaskedSlot(c, states[i], states[j], p)
  {
    var wide, wideSteps := LiftRun(c, states, steps);
    var w := wide[j];
    assert states[i] == WrapState(wide[i]) && states[j] == WrapState(w);
    RunInv(Lifted(c), wide, wideSteps, i);
    RunInv(Lifted(c), wide, wideSteps, j);
    NoTornReads(Lifted(c), wide, wideSteps, i, j);
    MaskedNeverTheSame(c, w);
    forall p: nat | |states[j].delivered| <= p < |states[i].published|
      ensures SameMaskedSlot(c, states[i], states[j], p)
    {
      assert SameSlot(Lifted(c), wide[i], w, p);
      MaskedIndex(p, c.capacity);
    }
  }

  lemma MaskedNeverTheSame(c: Config, w: State)
    requires c.Valid() && c.arith.Wrapped? && Inv(Lifted(c), w)
    ensures Shape(c, WrapState(w)) && Writing(c, WrapState(w)) != Reading(c, WrapState(w))
  {
    NeverTheSameSlot(Lifted(c), w);
    WrapShape(c, w);
    ProducerCounters(c, w, w.head);
    ConsumerCounters(c, w, w.tail);
    assert Filling(w.prod) <==> Filling(WrapProducer(w.prod));
    assert Reads(w.cons) <==> Reads(WrapConsumer(w.cons));
  }
}

/**
  Theorems about whole runs of the unbounded machine: order and integrity of
  delivery, absence of torn reads, and the meaning of FULL and EMPTY.
 */
module SpscRuns {
  import opened Payload
  import opened Words
  import opened Spsc
  import opened SpscInvariant

  // -------------------------------------------------------------- progress

  /** How one state extends an earlier one. */
  ghost predicate Extends(c: Config, s: State, s': State) {
    && s.published <= s'.published && s.delivered <= s'.delivered
    && s.head <= s'.head && s.tail <= s'.tail
    && Oldest(c.capacity, s) <= Oldest(c.capacity, s')
  }

  lemma StepExtends(c: Config, s: State, e: Step)
    requires Inv(c, s) && Enabled(c, s, e)
    ensures Extends(c, s, Apply(c, s, e))
  {
    match e
    case P(p) => PExtends(c, s, p);
    case C(k) => CExtends(c, s, k);
    case O(_) =>
  }

  lemma PExtends(c: Config, s: State, e: PStep)
    requires Inv(c, s) && PEnabled(c, s, e)
    ensures Extends(c, s, PApply(c, s, e))
  {
  }

  lemma CExtends(c: Config, s: State, e: CStep)
    requires Inv(c, s) && CEnabled(c, s, e)
    ensures Extends(c, s, CApply(c, s, e))
  {
  }

  /** A step never touches a slot that is still in the window afterwards. */
  lemma StepKeepsSlots(c: Config, s: State, e: Step, p: nat)
    requires Inv(c, s) && Enabled(c, s, e)
    requires Oldest(c.capacity, Apply(c, s, e)) <= p < s.head
    ensures Apply(c, s, e).slots[p % c.capacity] == s.slots[p % c.capacity]
  {
    if e.P? && WritesSlot(e.p) { ModDistinct(p, s.head, c.capacity); }
  }

  lemma {:induction false} RunExtends(c: Config, states: seq<State>, steps: seq<Step>, i: nat, j: nat)
    requires IsRun(c, states, steps) && c.arith.Unbounded? && i <= j < |states|
    ensures Extends(c, states[i], states[j])
    decreases j
  {
    if i < j {
      RunExtends(c, states, steps, i, j - 1);
      RunInv(c, states, steps, j - 1);
      assert Follows(c, states[j - 1], steps[j - 1], states[j]);
      StepExtends(c, states[j - 1], steps[j - 1]);
    }
  }

  // ------------------------------------------------------------------ FIFO

  /** What the payload log and the two counters say in any reachable state. */
  ghost predicate Fifo(c: Config, s: State)
    requires c.capacity > 0
  {
    && |s.delivered| == s.tail <= s.head == |s.published| <= s.tail + c.capacity
    && (forall k :: 0 <= k < s.tail ==> s.delivered[k] == Wire(s.published[k]))
    && (forall p: nat :: s.tail <= p < s.head ==> SlotHas(c.capacity, s, p))
  }

  lemma InvFifo(c: Config, s: State)
    requires Inv(c, s)
    ensures Fifo(c, s)
  {
  }

  /**
    In every run, at every moment, what has been delivered is the published
    payloads in order from the first one, and the undelivered ones are exactly
    the positions [tail, head), each intact in its slot. Both logs only grow.
   */
  lemma FifoDelivery(c: Config, states: seq<State>, steps: seq<Step>, i: nat, j: nat)
    requires IsRun(c, states, steps) && c.arith.Unbounded? && i <= j < |states|
    ensures c.capacity > 0 && Fifo(c, states[j])
    ensures states[i].published <= states[j].published && states[i].delivered <= states[j].delivered
  {
    RunInv(c, states, steps, j);
    InvFifo(c, states[j]);
    RunExtends(c, states, steps, i, j);
  }

  // ---------------------------------------------------------- no torn reads

  /** Slot the producer may be storing to. */
  function Writing(c: Config, s: State): (r: int)
    requires Shape(c, s)
  {
    if Filling(s.prod) then c.SlotOf(s.prod.h) else -1
  }

  predicate Reads(k: Consumer) {
    k.AtHeader? || k.Draining? || k.Peeked? || k.Release?
  }

  /** Slot the consumer may be loading from, by pop or through a peeked pointer. */
  function Reading(c: Config, s: State): (r: int)
    requires Shape(c, s)
  {
    if Reads(s.cons) then c.SlotOf(s.cons.t) else -2
  }

  lemma NeverTheSameSlot(c: Config, s: State)
    requires Inv(c, s)
    ensures Writing(c, s) != Reading(c, s)
  {
    if Filling(s.prod) && Reads(s.cons) { ModDistinct(s.tail, s.head, c.capacity); }
  }

  ghost predicate SameSlot(c: Config, s: State, s': State, p: nat)
    requires c.capacity > 0
  {
    p % c.capacity < |s.slots| == |s'.slots| && s.slots[p % c.capacity] == s'.slots[p % c.capacity]
  }

  lemma StepSameSlot(c: Config, states: seq<State>, steps: seq<Step>, j: nat, p: nat)
    requires IsRun(c, states, steps) && c.arith.Unbounded? && j < |steps|
    requires c.capacity > 0 && Oldest(c.capacity, states[j + 1]) <= p < states[j].head
    ensures SameSlot(c, states[j], states[j + 1], p)
  {
    RunInv(c, states, steps, j);
    assert Follows(c, states[j], steps[j], states[j + 1]);
    StepKeepsSlots(c, states[j], steps[j], p);
    ShapeKept(c, states[j], steps[j]);
  }

  lemma WindowBefore(c: Config, states: seq<State>, steps: seq<Step>, i: nat, j: nat, p: nat)
    requires IsRun(c, states, steps) && c.arith.Unbounded? && i <= j < |steps|
    requires Oldest(c.capacity, states[j + 1]) <= p < states[i].head
    ensures Oldest(c.capacity, states[j]) <= p < states[j].head
  {
    RunExtends(c, states, steps, i, j);
    RunExtends(c, states, steps, j, j + 1);
  }

  lemma {:induction false} PublishedSlotStays(
      c: Config, states: seq<State>, steps: seq<Step>, i: nat, j: nat, p: nat)
    requires IsRun(c, states, steps) && c.arith.Unbounded? && i <= j < |states|
    requires c.capacity > 0 && Oldest(c.capacity, states[j]) <= p < states[i].head
    ensures SameSlot(c, states[i], states[j], p)
    decreases j
  {
    if i == j {
      RunInv(c, states, steps, i);
    } else {
      WindowBefore(c, states, steps, i, j - 1, p);
      StepSameSlot(c, states, steps, j - 1, p);
      PublishedSlotStays(c, states, steps, i, j - 1, p);
    }
  }

  /**
    In every reachable state the slot being filled is not the slot being read,
    and a slot once published keeps its bytes and header until the consumer
    has passed it and the producer has been admitted to it again.
   */
  lemma NoTornReads(c: Config, states: seq<State>, steps: seq<Step>, i: nat, j: nat)
    requires IsRun(c, states, steps) && c.arith.Unbounded? && i <= j < |states|
    ensures Shape(c, states[j]) && Writing(c, states[j]) != Reading(c, states[j])
    ensures forall p: nat :: states[j].tail <= p < states[i].head ==> SameSlot(c, states[i], states[j], p)
  {
    RunInv(c, states, steps, j);
    NeverTheSameSlot(c, states[j]);
    forall p: nat | states[j].tail <= p < states[i].head
      ensures SameSlot(c, states[i], states[j], p)
    {
      RunExtends(c, states, steps, i, j);
      PublishedSlotStays(c, states, steps, i, j, p);
    }
  }

  /** While a message is peeked, the pointer shows exactly that payload. */
  lemma PeekedPayload(c: Config, s: State)
    requires Inv(c, s) && s.cons.Peeked?
    ensures s.tail < |s.published|
    ensures PeekView(c, s, s.cons.t, s.cons.n) == Wire(s.published[s.tail])
  {
    assert SlotHas(c.capacity, s, s.tail);
    var d, pay := s.published[s.tail], s.slots[s.tail % c.capacity].payload;
    assert pay[..s.cons.n] == pay[..|d|][..s.cons.n];
  }

  // ------------------------------------------------------- FULL and EMPTY

  predicate Full(c: Config, s: State) {
    s.head - s.tail == c.capacity
  }

  predicate Empty(s: State) {
    s.head == s.tail
  }

  /**
    What a push or reserve learns from its load of tail at state s. The queue
    was full at that instant exactly when the answer is FULL and the load was
    fresh; a stale load can only turn room into FULL; and when the answer is
    not FULL the queue has room then and until this producer publishes.
   */
  lemma FullAnswer(c: Config, s: State, v: nat)
    requires Inv(c, s) && PEnabled(c, s, LoadTail(v))
    ensures var s' := PApply(c, s, LoadTail(v));
      && (AnswersFull(c, s'.prod) && v == s.tail <==> Full(c, s))
      && (AnswersFull(c, s'.prod) ==> v == s.head - c.capacity)
      && (!AnswersFull(c, s'.prod) ==> s.head - s.tail < c.capacity)
  {
  }

  /** The same for pop and peek and their load of head. */
  lemma EmptyAnswer(c: Config, s: State, v: nat)
    requires Inv(c, s) && CEnabled(c, s, LoadSeenHead(v))
    ensures var s' := CApply(c, s, LoadSeenHead(v));
      && (AnswersEmpty(s'.cons) && v == s.head <==> Empty(s))
      && (!AnswersEmpty(s'.cons) ==> s.tail < s.head && SlotHas(c.capacity, s, s.tail))
  {
    assert s.tail < s.head ==> SlotHas(c.capacity, s, s.tail);
  }

  /** The last moment, up to i, at which tail had the value v. */
  ghost predicate LastTail(states: seq<State>, i: nat, v: nat, a: nat) {
    a <= i < |states| && states[a].tail == v && (a < i ==> states[a + 1].tail == v + 1)
  }

  /** The last moment, up to i, at which head had the value v. */
  ghost predicate LastHead(states: seq<State>, i: nat, v: nat, a: nat) {
    a <= i < |states| && states[a].head == v && (a < i ==> states[a + 1].head == v + 1)
  }

  /** Counters move one position at a time. */
  lemma OneAtATime(c: Config, states: seq<State>, steps: seq<Step>, j: nat)
    requires IsRun(c, states, steps) && c.arith.Unbounded? && j < |steps|
    ensures states[j].head <= states[j + 1].head <= states[j].head + 1
    ensures states[j].tail <= states[j + 1].tail <= states[j].tail + 1
  {
    RunInv(c, states, steps, j);
    assert Follows(c, states[j], steps[j], states[j + 1]);
  }

  /** So every value up to the current one was current once, and last at some moment. */
  lemma {:induction false} MomentOfTail(c: Config, states: seq<State>, steps: seq<Step>, i: nat, v: nat) returns (a: nat)
    requires IsRun(c, states, steps) && c.arith.Unbounded? && i < |states| && v <= states[i].tail
    ensures LastTail(states, i, v, a)
    decreases i
  {
    if v == states[i].tail {
      a := i;
    } else {
      OneAtATime(c, states, steps, i - 1);
      a := MomentOfTail(c, states, steps, i - 1, v);
    }
  }

  lemma {:induction false} MomentOfHead(c: Config, states: seq<State>, steps: seq<Step>, i: nat, v: nat) returns (a: nat)
    requires IsRun(c, states, steps) && c.arith.Unbounded? && i < |states| && v <= states[i].head
    ensures LastHead(states, i, v, a)
    decreases i
  {
    if v == states[i].head {
      a := i;
    } else {
      OneAtATime(c, states, steps, i - 1);
      a := MomentOfHead(c, states, steps, i - 1, v);
    }
  }

  lemma {:induction false} HeadStays(c: Config, states: seq<State>, steps: seq<Step>, a: nat, b: nat)
    requires IsRun(c, states, steps) && a <= b < |states|
    requires forall m :: a <= m < b && steps[m].P? ==> !steps[m].p.StoreHead?
    ensures states[a].head == states[b].head
    decreases b
  {
    if a < b {
      HeadStays(c, states, steps, a, b - 1);
      assert Follows(c, states[b - 1], steps[b - 1], states[b]);
    }
  }

  lemma {:induction false} TailStays(c: Config, states: seq<State>, steps: seq<Step>, a: nat, b: nat)
    requires IsRun(c, states, steps) && a <= b < |states|
    requires forall m :: a <= m < b && steps[m].C? ==> !steps[m].k.StoreTail? && !steps[m].k.ReleaseStore?
    ensures states[a].tail == states[b].tail
    decreases b
  {
    if a < b {
      TailStays(c, states, steps, a, b - 1);
      assert Follows(c, states[b - 1], steps[b - 1], states[b]);
    }
  }

  lemma {:induction false} ObserverWaits(c: Config, states: seq<State>, steps: seq<Step>, a: nat, b: nat)
    requires IsRun(c, states, steps) && a <= b < |states| && forall m :: a <= m < b ==> !steps[m].O?
    ensures states[a].obs == states[b].obs
    decreases b
  {
    if a < b {
      ObserverWaits(c, states, steps, a, b - 1);
      assert Follows(c, states[b - 1], steps[b - 1], states[b]);
    }
  }

  /** An observer has loaded head at step x and then tail at step y, and nothing since. */
  ghost predicate Observation(steps: seq<Step>, x: nat, y: nat, i: nat) {
    && x < y < i <= |steps| && steps[x] == O(ObserveHead) && steps[y] == O(ObserveTail)
    && forall m :: x < m < i && m != y ==> !steps[m].O?
  }

  /** What it has in hand is head of the first moment and tail of the second. */
  lemma ObserverLoads(c: Config, states: seq<State>, steps: seq<Step>, x: nat, y: nat, i: nat)
    requires IsRun(c, states, steps) && Observation(steps, x, y, i)
    ensures states[i].obs == OBoth(states[x].head, states[y].tail)
  {
    assert Follows(c, states[x], steps[x], states[x + 1]);
    ObserverWaits(c, states, steps, x + 1, y);
    assert Follows(c, states[y], steps[y], states[y + 1]);
    ObserverWaits(c, states, steps, y + 1, i);
  }

  /** A push or reserve that was called at step k loads tail at step i and has not returned at moment j. */
  ghost predicate PushCall(steps: seq<Step>, k: nat, i: nat, j: nat) {
    && k < i < j <= |steps|
    && steps[k].P? && (steps[k].p.CallPush? || steps[k].p.CallReserve?)
    && steps[i].P? && steps[i].p.LoadTail?
    && (forall m :: k < m < i && steps[m].P? ==> steps[m].p.LoadHead?)
    && (forall m :: i < m < j ==> !steps[m].P?)
  }

  /** A pop or peek that was called at step k loads head at step i and has not returned at moment j. */
  ghost predicate PopCall(steps: seq<Step>, k: nat, i: nat, j: nat) {
    && k < i < j <= |steps|
    && steps[k].C? && (steps[k].k.CallPop? || steps[k].k.CallPeek?)
    && steps[i].C? && steps[i].k.LoadSeenHead?
    && (forall m :: k < m < i && steps[m].C? ==> steps[m].k.LoadOwnTail?)
    && (forall m :: i < m < j ==> !steps[m].C?)
  }

  /**
    When a FULL answer is true of its own call. The value v that the call loads
    was tail at the last at moment a, and is a full queue behind head. At some
    moment of the call the queue is full exactly when v was still the tail when
    the call began; otherwise tail had moved past v before the call.
   */
  lemma FullInTime(c: Config, states: seq<State>, steps: seq<Step>, k: nat, i: nat, j: nat) returns (a: nat)
    requires IsRun(c, states, steps) && c.arith.Unbounded? && PushCall(steps, k, i, j)
    requires AnswersFull(c, states[i + 1].prod)
    ensures var v := steps[i].p.v;
      && LastTail(states, i, v, a) && states[i].head == v + c.capacity
      && v <= states[k].tail
      && ((exists b :: k < b <= j && Full(c, states[b])) <==> states[k].tail == v)
  {
    var v := steps[i].p.v;
    RunInv(c, states, steps, i);
    assert Follows(c, states[i], steps[i], states[i + 1]);
    FullAnswer(c, states[i], v);
    a := MomentOfTail(c, states, steps, i, v);
    HeadStays(c, states, steps, k, j);
    HeadStays(c, states, steps, k, i);
    RunInv(c, states, steps, k);
    assert Follows(c, states[k], steps[k], states[k + 1]);
    assert states[k].tail == v ==> Full(c, states[k + 1]);
    forall b | k < b <= j && Full(c, states[b]) ensures states[k].tail == v {
      HeadStays(c, states, steps, k, b);
      RunExtends(c, states, steps, k, b);
    }
  }

  /** The same for an EMPTY answer and the loaded head. */
  lemma EmptyInTime(c: Config, states: seq<State>, steps: seq<Step>, k: nat, i: nat, j: nat) returns (a: nat)
    requires IsRun(c, states, steps) && c.arith.Unbounded? && PopCall(steps, k, i, j)
    requires AnswersEmpty(states[i + 1].cons)
    ensures var v := steps[i].k.v;
      && LastHead(states, i, v, a) && states[i].tail == v
      && v <= states[k].head
      && ((exists b :: k < b <= j && Empty(states[b])) <==> states[k].head == v)
  {
    var v := steps[i].k.v;
    RunInv(c, states, steps, i);
    assert Follows(c, states[i], steps[i], states[i + 1]);
    EmptyAnswer(c, states[i], v);
    a := MomentOfHead(c, states, steps, i, v);
    TailStays(c, states, steps, k, j);
    TailStays(c, states, steps, k, i);
    RunInv(c, states, steps, k);
    assert Follows(c, states[k], steps[k], states[k + 1]);
    assert states[k].head == v ==> Empty(states[k + 1]);
    forall b | k < b <= j && Empty(states[b]) ensures states[k].head == v {
      TailStays(c, states, steps, k, b);
      RunExtends(c, states, steps, k, b);
    }
  }

  /** Once admitted, the producer stays admitted: it never overwrites a live slot. */
  lemma AdmissionIsSafe(c: Config, s: State)
    requires Inv(c, s) && Filling(s.prod)
    ensures s.prod.h == s.head && !Full(c, s)
    ensures forall p: nat :: s.tail <= p < s.head ==> p % c.capacity != Writing(c, s)
  {
    forall p: nat | s.tail <= p < s.head
      ensures p % c.capacity != s.head % c.capacity
    {
      ModDistinct(p, s.head, c.capacity);
    }
  }
}

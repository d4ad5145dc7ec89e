/**
  The inductive invariant of the unbounded machine, kept by every step and so
  true in every state of every run.
 */
module SpscInvariant {
  import opened Payload
  import opened Words
  import opened Spsc

  // ------------------------------------------------------------- invariant

  /** The producer owns position `head`: between its check and its publication. */
  predicate Filling(p: Producer) {
    p.Copying? || p.Held? || p.WriteLength? || p.WriteFlags? || p.WriteSequence? || p.Publish?
  }

  /** The producer's call has not been answered or admitted yet. */
  predicate Deciding(p: Producer) {
    p.Called? || p.HasHead? || p.HasTail?
  }

  /** The consumer's call has not been answered or admitted yet. */
  predicate Asking(k: Consumer) {
    k.Asked? || k.HasOwn? || k.HasSeen?
  }

  /** The slot of position p carries exactly the payload published there. */
  ghost predicate Holds(slot: Slot, p: nat, data: Bytes) {
    && |data| <= |slot.payload|
    && slot.payload[..|data|] == data
    && slot.length == |data| % TWO16
    && slot.flags == 0
    && slot.sequence == p % TWO32
  }

  ghost predicate SlotHas(cap: nat, s: State, p: nat)
    requires cap > 0
  {
    p < |s.published| && p % cap < |s.slots| && Holds(s.slots[p % cap], p, s.published[p])
  }

  /** Oldest position whose slot has not been given to the producer again. */
  function Oldest(cap: nat, s: State): int {
    s.head - cap + (if Filling(s.prod) then 1 else 0)
  }

  ghost predicate Ordered(c: Config, s: State) {
    && s.head == |s.published| && s.tail == |s.delivered|
    && s.tail <= s.seenHead <= s.head
    && s.seenTail <= s.tail && s.head <= s.seenTail + c.capacity
    && (Filling(s.prod) ==> s.head < s.seenTail + c.capacity)
    && s.callTail <= s.tail && s.callHead <= s.head
    && (Deciding(s.prod) ==> s.head <= s.callTail + c.capacity)
    && (Asking(s.cons) ==> s.tail <= s.callHead)
  }

  /** Every slot of the window [Oldest, head), which covers [tail, head), is intact. */
  ghost predicate Intact(c: Config, s: State)
    requires c.capacity > 0
  {
    forall p: nat :: Oldest(c.capacity, s) <= p < s.head ==> SlotHas(c.capacity, s, p)
  }

  ghost predicate ProducerInv(c: Config, s: State)
    requires Shape(c, s) && c.arith.Unbounded?
  {
    match s.prod
    case PIdle => true
    case Called(_) => true
    case HasHead(_, h) => h == s.head
    case HasTail(_, h, v) => h == s.head && v == s.seenTail
    case Copying(data, h, i) =>
      h == s.head && s.slots[c.SlotOf(h)].payload[..i] == data[..i]
    case Held(_, h) => h == s.head
    case WriteLength(data, h) =>
      h == s.head && s.slots[c.SlotOf(h)].payload[..|data|] == data
    case WriteFlags(data, h) =>
      var slot := s.slots[c.SlotOf(h)];
      h == s.head && slot.payload[..|data|] == data && slot.length == |data| % TWO16
    case WriteSequence(data, h) =>
      var slot := s.slots[c.SlotOf(h)];
      h == s.head && slot.payload[..|data|] == data && slot.length == |data| % TWO16 && slot.flags == 0
    case Publish(data, h) => h == s.head && Holds(s.slots[c.SlotOf(h)], h, data)
  }

  /** The consumer is about to read, or reads, the position at tail. */
  ghost predicate ConsumerInv(s: State) {
    match s.cons
    case CIdle => true
    case Asked(_) => true
    case HasOwn(_, t) => t == s.tail
    case HasSeen(_, t, v) => t == s.tail && v == s.seenHead
    case AtHeader(_, t) => t == s.tail < s.seenHead
    case Draining(room, t, n, got) =>
      && t == s.tail < s.seenHead && t < |s.published| && n <= room
      && n == |s.published[t]| % TWO16 && |got| <= n && got == s.published[t][..|got|]
    case Consume(room, t, got) =>
      t == s.tail < s.seenHead && t < |s.published| && got == Wire(s.published[t]) && |got| <= room
    case Peeked(t, n) =>
      t == s.tail < s.seenHead && t < |s.published| && n == |s.published[t]| % TWO16
    case Releasing(n) =>
      s.tail < s.seenHead && s.tail < |s.published| && n == |s.published[s.tail]| % TWO16
    case Release(t, n) =>
      t == s.tail < s.seenHead && t < |s.published| && n == |s.published[t]| % TWO16
  }

  ghost predicate Delivered(s: State) {
    forall i :: 0 <= i < |s.delivered| && i < |s.published| ==> s.delivered[i] == Wire(s.published[i])
  }

  ghost predicate ObserverInv(c: Config, s: State) {
    match s.obs
    case OIdle => true
    case OHead(h) => h <= s.head && h <= s.tail + c.capacity
    case OBoth(h, t) => h <= s.head && t <= s.tail && h <= t + c.capacity
  }

  ghost predicate Inv(c: Config, s: State) {
    && c.arith.Unbounded? && Shape(c, s)
    && Ordered(c, s) && Intact(c, s) && Delivered(s)
    && ProducerInv(c, s) && ConsumerInv(s) && ObserverInv(c, s)
  }

  // ----------------------------------------------------------- preservation

  lemma InitInv(c: Config, s: State)
    requires Init(c, s) && c.arith.Unbounded?
    ensures Inv(c, s)
  {
  }

  /** Changing the slot of the position being filled leaves the window intact. */
  lemma WindowUntouched(c: Config, s: State, s': State)
    requires Inv(c, s) && Shape(c, s') && Filling(s.prod) && Filling(s'.prod)
    requires s'.published == s.published && s'.head == s.head
    requires forall j :: 0 <= j < |s.slots| && j != s.head % c.capacity ==> s'.slots[j] == s.slots[j]
    ensures Intact(c, s')
  {
    forall p: nat | Oldest(c.capacity, s') <= p < s'.head
      ensures SlotHas(c.capacity, s', p)
    {
      ModDistinct(p, s.head, c.capacity);
      assert SlotHas(c.capacity, s, p);
    }
  }

  predicate WritesSlot(e: PStep) {
    e.CopyByte? || e.WriteHeld? || e.StoreLength? || e.StoreFlags? || e.StoreSequence?
  }

  lemma PInvWrite(c: Config, s: State, e: PStep)
    requires Inv(c, s) && PEnabled(c, s, e) && WritesSlot(e)
    ensures Inv(c, PApply(c, s, e))
  {
    var s' := PApply(c, s, e);
    PShapeKept(c, s, e);
    WindowUntouched(c, s, s');
    if e.CopyByte? {
      var i := s.prod.i;
      assert s.prod.data[..i + 1] == s.prod.data[..i] + [s.prod.data[i]];
      var pay := s.slots[c.SlotOf(s.prod.h)].payload;
      assert pay[i := s.prod.data[i]][..i + 1] == pay[..i] + [s.prod.data[i]];
    }
  }

  predicate Quiet(e: PStep) {
    !WritesSlot(e) && !e.StoreHead?
  }

  /** A step that neither stores to a slot nor publishes leaves memory alone. */
  lemma PQuietKeeps(c: Config, s: State, e: PStep)
    requires Shape(c, s) && PEnabled(c, s, e) && Quiet(e)
    ensures var s' := PApply(c, s, e);
      && s'.slots == s.slots && s'.head == s.head && s'.tail == s.tail && s'.cons == s.cons && s'.obs == s.obs
      && s'.published == s.published && s'.delivered == s.delivered
      && s'.seenHead == s.seenHead && s'.callHead == s.callHead
  {
  }

  lemma PQuietOrder(c: Config, s: State, e: PStep)
    requires c.arith.Unbounded? && Shape(c, s) && Ordered(c, s) && ProducerInv(c, s) && PEnabled(c, s, e) && Quiet(e)
    ensures Shape(c, PApply(c, s, e)) && Ordered(c, PApply(c, s, e)) && ProducerInv(c, PApply(c, s, e))
    ensures Oldest(c.capacity, s) <= Oldest(c.capacity, PApply(c, s, e))
  {
    PShapeKept(c, s, e);
  }

  lemma PInvQuiet(c: Config, s: State, e: PStep)
    requires Inv(c, s) && PEnabled(c, s, e) && Quiet(e)
    ensures Inv(c, PApply(c, s, e))
  {
    var s' := PApply(c, s, e);
    PQuietKeeps(c, s, e);
    PQuietOrder(c, s, e);
    forall p: nat | Oldest(c.capacity, s') <= p < s'.head
      ensures SlotHas(c.capacity, s', p)
    {
      assert SlotHas(c.capacity, s, p);
    }
  }

  lemma PInvPublish(c: Config, s: State)
    requires Inv(c, s) && PEnabled(c, s, StoreHead)
    ensures Inv(c, PApply(c, s, StoreHead))
  {
    var s' := PApply(c, s, StoreHead);
    PShapeKept(c, s, StoreHead);
    forall p: nat | Oldest(c.capacity, s') <= p < s'.head
      ensures SlotHas(c.capacity, s', p)
    {
      if p < s.head { assert SlotHas(c.capacity, s, p); }
    }
  }

  /** The consumer stores to no slot. */
  lemma CKeepsSlots(c: Config, s: State, e: CStep)
    requires Inv(c, s) && CEnabled(c, s, e)
    ensures var s' := CApply(c, s, e);
      s'.slots == s.slots && s'.published == s.published && s'.head == s.head && s'.prod == s.prod && s'.obs == s.obs
  {
  }

  lemma CInv(c: Config, s: State, e: CStep)
    requires Inv(c, s) && CEnabled(c, s, e)
    ensures Inv(c, CApply(c, s, e))
  {
    var s' := CApply(c, s, e);
    CShapeKept(c, s, e);
    CKeepsSlots(c, s, e);
    forall p: nat | Oldest(c.capacity, s') <= p < s'.head
      ensures SlotHas(c.capacity, s', p)
    {
      assert SlotHas(c.capacity, s, p);
    }
    assert s.tail < s.head ==> SlotHas(c.capacity, s, s.tail);
    CKeepsOrder(c, s, e);
    CInvReads(c, s, e);
    CDelivers(c, s, e);
  }

  /** What the consumer's steps rely on: where both sides stand, and the record at tail. */
  ghost predicate ConsumerBase(c: Config, s: State) {
    && c.arith.Unbounded? && Shape(c, s) && Ordered(c, s) && ConsumerInv(s)
    && (s.tail < s.head ==> SlotHas(c.capacity, s, s.tail))
  }

  lemma CKeepsOrder(c: Config, s: State, e: CStep)
    requires ConsumerBase(c, s) && CEnabled(c, s, e)
    ensures Ordered(c, CApply(c, s, e))
  {
  }

  /** The consumer only ever picks up bytes of the payload at tail. */
  lemma CInvReads(c: Config, s: State, e: CStep)
    requires ConsumerBase(c, s) && CEnabled(c, s, e)
    ensures ConsumerInv(CApply(c, s, e))
  {
    if e.ReadByte? {
      var d, k := s.published[s.tail], |s.cons.got|;
      var pay := s.slots[s.tail % c.capacity].payload;
      assert pay[k] == pay[..|d|][k] == d[k];
      assert d[..k + 1] == d[..k] + [d[k]];
    }
  }

  lemma CDelivers(c: Config, s: State, e: CStep)
    requires ConsumerBase(c, s) && CEnabled(c, s, e) && Delivered(s)
    ensures Delivered(CApply(c, s, e))
  {
    if e.ReleaseStore? {
      var d, pay := s.published[s.tail], s.slots[s.tail % c.capacity].payload;
      assert pay[..s.cons.n] == pay[..|d|][..s.cons.n];
    }
  }

  /** Every step keeps the invariant. */
  lemma StepInv(c: Config, s: State, e: Step)
    requires Inv(c, s) && Enabled(c, s, e)
    ensures Inv(c, Apply(c, s, e))
  {
    match e
    case P(p) =>
      if WritesSlot(p) { PInvWrite(c, s, p); }
      else if p.StoreHead? { PInvPublish(c, s); }
      else { PInvQuiet(c, s, p); }
    case C(k) => CInv(c, s, k);
    case O(o) =>
      forall p: nat | Oldest(c.capacity, s) <= p < s.head
        ensures SlotHas(c.capacity, OApply(s, o), p)
      {
        assert SlotHas(c.capacity, s, p);
      }
  }

  lemma {:induction false} RunInv(c: Config, states: seq<State>, steps: seq<Step>, i: nat)
    requires IsRun(c, states, steps) && c.arith.Unbounded? && i < |states|
    ensures Inv(c, states[i])
  {
    if i == 0 {
      InitInv(c, states[0]);
    } else {
      RunInv(c, states, steps, i - 1);
      assert Follows(c, states[i - 1], steps[i - 1], states[i]);
      StepInv(c, states[i - 1], steps[i - 1]);
    }
  }
}

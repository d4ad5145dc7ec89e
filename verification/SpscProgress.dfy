/**
  Wait-freedom: whatever the other side does or fails to do, a call that has
  started can always take its next step, and finishes within a number of its own
  steps fixed by the payload size.
 */
module SpscProgress {
  import opened Spsc
  import opened SpscInvariant

  // -------------------------------------------------------------- step bounds

  /** Steps the producer's current call still has to take. */
  function ProducerRank(c: Config, p: Producer): nat {
    match p
    case PIdle => 0
    case Called(req) => c.maxPayload + 8
    case HasHead(req, h) => c.maxPayload + 7
    case HasTail(req, h, v) => c.maxPayload + 6
    case Copying(data, h, i) => if i <= |data| then 5 + (|data| - i) else 0
    case Held(_, _) => 0
    case WriteLength(_, _) => 4
    case WriteFlags(_, _) => 3
    case WriteSequence(_, _) => 2
    case Publish(_, _) => 1
  }

  /** Steps the consumer's current call still has to take. */
  function ConsumerRank(c: Config, k: Consumer): nat {
    match k
    case CIdle => 0
    case Asked(_) => c.maxPayload + 6
    case HasOwn(_, _) => c.maxPayload + 5
    case HasSeen(_, _, _) => c.maxPayload + 4
    case AtHeader(_, _) => c.maxPayload + 3
    case Draining(_, t, n, got) => if |got| <= n then 2 + (n - |got|) else 0
    case Consume(_, _, _) => 1
    case Peeked(_, _) => 0
    case Releasing(_) => 2
    case Release(_, _) => 1
  }

  /** Steps inside a call, as opposed to the application's own moves. */
  predicate InsidePush(e: PStep) {
    !e.CallPush? && !e.CallReserve? && !e.WriteHeld? && !e.CallCommit?
  }

  predicate InsidePop(e: CStep) {
    !e.CallPop? && !e.CallPeek? && !e.DropPeek? && !e.CallRelease?
  }

  lemma ProducerAdvances(c: Config, s: State, e: PStep)
    requires Shape(c, s) && PEnabled(c, s, e) && InsidePush(e)
    ensures ProducerRank(c, PApply(c, s, e).prod) < ProducerRank(c, s.prod)
  {
  }

  lemma ConsumerAdvances(c: Config, s: State, e: CStep)
    requires Shape(c, s) && CEnabled(c, s, e) && InsidePop(e)
    ensures ConsumerRank(c, CApply(c, s, e).cons) < ConsumerRank(c, s.cons)
  {
  }

  /** Either side's steps leave the other side where it is. */
  lemma SidesAreApart(c: Config, s: State, e: Step)
    requires Shape(c, s) && Enabled(c, s, e)
    ensures !e.P? ==> Apply(c, s, e).prod == s.prod
    ensures !e.C? ==> Apply(c, s, e).cons == s.cons
  {
  }

  lemma RunShape(c: Config, states: seq<State>, steps: seq<Step>, i: nat)
    requires IsRun(c, states, steps) && i < |states|
    ensures Shape(c, states[i])
  {
    if i > 0 {
      assert Follows(c, states[i - 1], steps[i - 1], states[i]);
      ShapeKept(c, states[i - 1], steps[i - 1]);
    }
  }

  /** In both arithmetics, a producer in the middle of a call is never blocked. */
  lemma ProducerCanStep(c: Config, states: seq<State>, steps: seq<Step>, i: nat) returns (e: PStep)
    requires IsRun(c, states, steps) && i < |states| && !states[i].prod.PIdle? && !states[i].prod.Held?
    ensures PEnabled(c, states[i], e) && InsidePush(e)
  {
    var s := states[i];
    RunShape(c, states, steps, i);
    if c.arith.Unbounded? { RunInv(c, states, steps, i); }
    match s.prod
    case Called(_) => e := LoadHead;
    case HasHead(_, _) => e := LoadTail(s.tail);
    case HasTail(_, _, _) => e := CheckFull;
    case Copying(data, _, n) => e := if n < |data| then CopyByte else EndCopy;
    case WriteLength(_, _) => e := StoreLength;
    case WriteFlags(_, _) => e := StoreFlags;
    case WriteSequence(_, _) => e := StoreSequence;
    case Publish(_, _) => e := StoreHead;
  }

  /** In both arithmetics, a consumer in the middle of a call is never blocked. */
  lemma ConsumerCanStep(c: Config, states: seq<State>, steps: seq<Step>, i: nat) returns (e: CStep)
    requires IsRun(c, states, steps) && i < |states| && !states[i].cons.CIdle? && !states[i].cons.Peeked?
    ensures CEnabled(c, states[i], e) && InsidePop(e)
  {
    var s := states[i];
    RunShape(c, states, steps, i);
    if c.arith.Unbounded? { RunInv(c, states, steps, i); }
    match s.cons
    case Asked(_) => e := LoadOwnTail;
    case HasOwn(_, _) => e := LoadSeenHead(s.head);
    case HasSeen(_, _, _) => e := CheckEmpty;
    case AtHeader(_, _) => e := ReadLength;
    case Draining(_, _, n, got) => e := if |got| < n then ReadByte else EndRead;
    case Consume(_, _, _) => e := StoreTail;
    case Releasing(_) => e := ReleaseLoad;
    case Release(_, _) => e := ReleaseStore;
  }

  // ------------------------------------------------------------- whole runs

  /** Producer steps among steps[i..j]. */
  function PushSteps(steps: seq<Step>, i: nat, j: nat): nat
    requires i <= j <= |steps|
    decreases j
  {
    if i == j then 0 else PushSteps(steps, i, j - 1) + (if steps[j - 1].P? then 1 else 0)
  }

  /** Consumer steps among steps[i..j]. */
  function PopSteps(steps: seq<Step>, i: nat, j: nat): nat
    requires i <= j <= |steps|
    decreases j
  {
    if i == j then 0 else PopSteps(steps, i, j - 1) + (if steps[j - 1].C? then 1 else 0)
  }

  /**
    Between two application moves of the producer, it takes at most as many steps
    as its rank says, however the consumer is scheduled.
   */
  lemma {:induction false} PushStepsBounded(c: Config, states: seq<State>, steps: seq<Step>, i: nat, j: nat)
    requires IsRun(c, states, steps) && i <= j <= |steps|
    requires forall k :: i <= k < j && steps[k].P? ==> InsidePush(steps[k].p)
    ensures PushSteps(steps, i, j) + ProducerRank(c, states[j].prod) <= ProducerRank(c, states[i].prod)
    decreases j
  {
    if i < j {
      PushStepsBounded(c, states, steps, i, j - 1);
      var s, e := states[j - 1], steps[j - 1];
      assert Follows(c, s, e, states[j]);
      if e.P? { ProducerAdvances(c, s, e.p); } else { SidesAreApart(c, s, e); }
    }
  }

  lemma {:induction false} PopStepsBounded(c: Config, states: seq<State>, steps: seq<Step>, i: nat, j: nat)
    requires IsRun(c, states, steps) && i <= j <= |steps|
    requires forall k :: i <= k < j && steps[k].C? ==> InsidePop(steps[k].k)
    ensures PopSteps(steps, i, j) + ConsumerRank(c, states[j].cons) <= ConsumerRank(c, states[i].cons)
    decreases j
  {
    if i < j {
      PopStepsBounded(c, states, steps, i, j - 1);
      var s, e := states[j - 1], steps[j - 1];
      assert Follows(c, s, e, states[j]);
      if e.C? { ConsumerAdvances(c, s, e.k); } else { SidesAreApart(c, s, e); }
    }
  }

  /** Wait-freedom: no call of the producer takes more than maxPayload + 8 steps of its own. */
  lemma PushIsWaitFree(c: Config, states: seq<State>, steps: seq<Step>, i: nat, j: nat)
    requires IsRun(c, states, steps) && i <= j <= |steps|
    requires forall k :: i <= k < j && steps[k].P? ==> InsidePush(steps[k].p)
    ensures PushSteps(steps, i, j) <= c.maxPayload + 8
  {
    PushStepsBounded(c, states, steps, i, j);
    assert i < j ==> Follows(c, states[i], steps[i], states[i + 1]);
  }

  /** And no call of the consumer more than maxPayload + 6. */
  lemma PopIsWaitFree(c: Config, states: seq<State>, steps: seq<Step>, i: nat, j: nat)
    requires IsRun(c, states, steps) && i <= j <= |steps|
    requires forall k :: i <= k < j && steps[k].C? ==> InsidePop(steps[k].k)
    ensures PopSteps(steps, i, j) <= c.maxPayload + 6
  {
    PopStepsBounded(c, states, steps, i, j);
    assert i < j ==> Follows(c, states[i], steps[i], states[i + 1]);
  }
}

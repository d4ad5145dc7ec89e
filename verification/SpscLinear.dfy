/**
  The step machine against the bounded queue: every call takes effect at one of
  its own steps, exactly as the queue's call does there. So an interleaved run
  behaves like a sequence of whole calls, with copying and zero-copy calls alike,
  and with 64-bit counters alike. A refusal takes effect where its call begins.
  The only answers outside that sequence are refusals by a load whose value had
  been replaced before the call began; they change nothing, and the queue is not
  full (empty) at any moment of such a call.
 */
module SpscLinear {
  import opened Payload
  import opened Words
  import opened Spsc
  import opened SpscInvariant
  import opened SpscRuns
  import opened SpscWrapped
  import Q = BoundedQueue

  // ------------------------------------------------------------ abstraction

  /** The queue of a moment. A reservation shows only once it is committed. */
  function Abs(c: Config, s: State): Q.Queue {
    Q.Queue(c.capacity, c.maxPayload, s.published, |s.delivered|, Q.NoHold)
  }

  ghost predicate Sized(c: Config, s: State) {
    forall i :: 0 <= i < |s.published| ==> |s.published[i]| <= c.maxPayload
  }

  /** A call with the answer that the protocol gives it. */
  datatype Event = Event(call: Q.Call, answer: Q.Answer)

  /** A push or reserve is refused with FULL because of this load. */
  predicate SeesFull(c: Config, s: State, e: Step)
    requires Shape(c, s) && Enabled(c, s, e)
  {
    e.P? && e.p.LoadTail? && AnswersFull(c, PApply(c, s, e.p).prod)
  }

  /** A pop or peek is refused with EMPTY because of this load. */
  predicate SeesEmpty(c: Config, s: State, e: Step)
    requires Shape(c, s) && Enabled(c, s, e)
  {
    e.C? && e.k.LoadSeenHead? && AnswersEmpty(CApply(c, s, e.k).cons)
  }

  /** The refusing load returned a value that had been replaced before the call began. */
  predicate Outdated(c: Config, s: State, e: Step)
    requires Shape(c, s) && Enabled(c, s, e)
  {
    (SeesFull(c, s, e) && e.p.v != s.callTail) || (SeesEmpty(c, s, e) && e.k.v != s.callHead)
  }

  /** The call, if any, that is answered by this step of the producer. */
  function PushEffect(c: Config, s: State, p: PStep): seq<Event>
    requires Shape(c, s) && PEnabled(c, s, p)
  {
    match p
    case CallPush(data) => if |data| > c.maxPayload then [Event(Q.Push(data), Q.Fail(Q.TooBig))] else []
    case CallReserve(len) =>
      if len > c.maxPayload then [Event(Q.Reserve(len, Blank(c)), Q.Fail(Q.TooBig))] else []
    case StoreHead => [Event(Q.Push(s.prod.data), Q.OK)]
    case _ => []
  }

  /** The call, if any, that is answered by this step of the consumer. */
  function PopEffect(c: Config, s: State, k: CStep): seq<Event>
    requires Shape(c, s) && CEnabled(c, s, k)
  {
    match k
    case ReadLength =>
      var n := s.slots[c.SlotOf(s.cons.t)].length;
      (match s.cons.pop
       case Peek => [Event(Q.Peek, Q.Answer(Q.Ok, n, PeekView(c, s, s.cons.t, n)))]
       case Pop(room) => if n > room then [Event(Q.Pop(room), Q.Answer(Q.TooBig, n, []))] else [])
    case StoreTail => [Event(Q.Pop(s.cons.room), Q.Answer(Q.Ok, |s.cons.got|, s.cons.got))]
    case ReleaseStore => [Event(Q.Release, Q.OK)]
    case _ => []
  }

  function Effect(c: Config, s: State, e: Step): seq<Event>
    requires Shape(c, s) && Enabled(c, s, e)
  {
    match e
    case P(p) => PushEffect(c, s, p)
    case C(k) => PopEffect(c, s, k)
    case O(_) => []
  }

  /** What a refused reservation would have been given. */
  function Blank(c: Config): (b: Bytes)
    ensures |b| == c.maxPayload
  {
    seq(c.maxPayload, _ => 0)
  }

  // ------------------------------------------------------------- one step

  /** From q, the event (if there is one) is what the queue's own call does, ending in q'. */
  ghost predicate Explains(q: Q.Queue, h: seq<Event>, q': Q.Queue)
    requires q.Valid()
  {
    if h == [] then q' == q
    else |h| == 1 && Q.Allowed(q, h[0].call) && Q.Do(q, h[0].call) == (q', h[0].answer)
  }

  lemma AbsValid(c: Config, s: State)
    requires Inv(c, s) && Sized(c, s)
    ensures Abs(c, s).Valid()
  {
  }

  lemma PushRefines(c: Config, s: State, p: PStep)
    requires Inv(c, s) && Sized(c, s) && PEnabled(c, s, p)
    ensures Abs(c, s).Valid() && Sized(c, PApply(c, s, p))
    ensures Explains(Abs(c, s), PushEffect(c, s, p), Abs(c, PApply(c, s, p)))
  {
  }

  /** The header read shows the length, and a peeked pointer the bytes, of the oldest message. */
  lemma ReadRefines(c: Config, s: State)
    requires Inv(c, s) && Sized(c, s) && CEnabled(c, s, ReadLength)
    ensures Abs(c, s).Valid()
    ensures Explains(Abs(c, s), PopEffect(c, s, ReadLength), Abs(c, CApply(c, s, ReadLength)))
  {
    assert SlotHas(c.capacity, s, s.tail);
    var d, pay := s.published[s.tail], s.slots[s.tail % c.capacity].payload;
    assert pay[..|d| % TWO16] == pay[..|d|][..|d| % TWO16];
  }

  lemma PopRefines(c: Config, s: State, k: CStep)
    requires Inv(c, s) && Sized(c, s) && CEnabled(c, s, k)
    ensures Abs(c, s).Valid() && Sized(c, CApply(c, s, k))
    ensures Explains(Abs(c, s), PopEffect(c, s, k), Abs(c, CApply(c, s, k)))
  {
    if k.ReadLength? { ReadRefines(c, s); }
  }

  /** Each step either is invisible to the queue or is one of its calls, answered as the queue answers. */
  lemma StepRefines(c: Config, s: State, e: Step)
    requires Inv(c, s) && Sized(c, s) && Enabled(c, s, e)
    ensures Abs(c, s).Valid() && Sized(c, Apply(c, s, e))
    ensures Explains(Abs(c, s), Effect(c, s, e), Abs(c, Apply(c, s, e)))
  {
    AbsValid(c, s);
    match e
    case P(p) => PushRefines(c, s, p);
    case C(k) => PopRefines(c, s, k);
    case O(_) =>
  }

  // -------------------------------------------------------------- refusals

  /** The producer's call in progress at moment i is going to be refused by a load that is not outdated. */
  ghost predicate WillBeFull(c: Config, states: seq<State>, steps: seq<Step>, i: nat)
    requires IsRun(c, states, steps) && i <= |steps|
    decreases |steps| - i
  {
    i < |steps| &&
    (assert Follows(c, states[i], steps[i], states[i + 1]);
     if steps[i].P? && !steps[i].p.LoadHead? then SeesFull(c, states[i], steps[i]) && !Outdated(c, states[i], steps[i])
     else WillBeFull(c, states, steps, i + 1))
  }

  /** The same for the consumer. */
  ghost predicate WillBeEmpty(c: Config, states: seq<State>, steps: seq<Step>, i: nat)
    requires IsRun(c, states, steps) && i <= |steps|
    decreases |steps| - i
  {
    i < |steps| &&
    (assert Follows(c, states[i], steps[i], states[i + 1]);
     if steps[i].C? && !steps[i].k.LoadOwnTail? then SeesEmpty(c, states[i], steps[i]) && !Outdated(c, states[i], steps[i])
     else WillBeEmpty(c, states, steps, i + 1))
  }

  /** The refusal, if any, of the call that begins at step i. */
  ghost function Refusal(c: Config, states: seq<State>, steps: seq<Step>, i: nat): seq<Event>
    requires IsRun(c, states, steps) && i < |steps|
  {
    match steps[i]
    case P(CallPush(data)) =>
      if |data| <= c.maxPayload && WillBeFull(c, states, steps, i + 1) then [Event(Q.Push(data), Q.Fail(Q.Full))] else []
    case P(CallReserve(len)) =>
      if len <= c.maxPayload && WillBeFull(c, states, steps, i + 1)
      then [Event(Q.Reserve(len, Blank(c)), Q.Fail(Q.Full))] else []
    case C(CallPop(room)) =>
      if WillBeEmpty(c, states, steps, i + 1) then [Event(Q.Pop(room), Q.Fail(Q.Empty))] else []
    case C(CallPeek) =>
      if WillBeEmpty(c, states, steps, i + 1) then [Event(Q.Peek, Q.Fail(Q.Empty))] else []
    case _ => []
  }

  /** A call that will be refused with FULL began at a full queue. */
  lemma {:induction false} FullWhenCalled(c: Config, states: seq<State>, steps: seq<Step>, i: nat)
    requires IsRun(c, states, steps) && c.arith.Unbounded? && i <= |steps|
    requires WillBeFull(c, states, steps, i) && (states[i].prod.Called? || states[i].prod.HasHead?)
    ensures states[i].head == states[i].callTail + c.capacity
    decreases |steps| - i
  {
    RunInv(c, states, steps, i);
    assert Follows(c, states[i], steps[i], states[i + 1]);
    if !steps[i].P? || steps[i].p.LoadHead? {
      BeforeTheLoad(c, states[i], steps[i]);
      FullWhenCalled(c, states, steps, i + 1);
    }
  }

  lemma BeforeTheLoad(c: Config, s: State, e: Step)
    requires Shape(c, s) && Enabled(c, s, e)
    ensures e.P? ==> Apply(c, s, e).cons == s.cons && Apply(c, s, e).callHead == s.callHead && Apply(c, s, e).tail == s.tail
    ensures e.C? ==> Apply(c, s, e).prod == s.prod && Apply(c, s, e).callTail == s.callTail && Apply(c, s, e).head == s.head
    ensures e.P? && e.p.LoadHead? ==>
      Apply(c, s, e).prod.HasHead? && Apply(c, s, e).callTail == s.callTail && Apply(c, s, e).head == s.head
    ensures e.C? && e.k.LoadOwnTail? ==>
      Apply(c, s, e).cons.HasOwn? && Apply(c, s, e).callHead == s.callHead && Apply(c, s, e).tail == s.tail
  {
  }

  /** A call that will be refused with EMPTY began at an empty queue. */
  lemma {:induction false} EmptyWhenCalled(c: Config, states: seq<State>, steps: seq<Step>, i: nat)
    requires IsRun(c, states, steps) && c.arith.Unbounded? && i <= |steps|
    requires WillBeEmpty(c, states, steps, i) && (states[i].cons.Asked? || states[i].cons.HasOwn?)
    ensures states[i].tail == states[i].callHead
    decreases |steps| - i
  {
    RunInv(c, states, steps, i);
    assert Follows(c, states[i], steps[i], states[i + 1]);
    if !steps[i].C? || steps[i].k.LoadOwnTail? {
      BeforeTheLoad(c, states[i], steps[i]);
      EmptyWhenCalled(c, states, steps, i + 1);
    }
  }

  lemma {:induction false} CallTailKept(c: Config, states: seq<State>, steps: seq<Step>, k: nat, i: nat)
    requires IsRun(c, states, steps) && k < i <= |steps|
    requires steps[k].P? && (steps[k].p.CallPush? || steps[k].p.CallReserve?)
    requires forall m :: k < m < i && steps[m].P? ==> steps[m].p.LoadHead?
    ensures !states[i].prod.PIdle? ==> states[i].callTail == states[k].tail
    decreases i
  {
    assert Follows(c, states[i - 1], steps[i - 1], states[i]);
    if k + 1 < i {
      CallTailKept(c, states, steps, k, i - 1);
      BeforeTheLoad(c, states[i - 1], steps[i - 1]);
    }
  }

  lemma {:induction false} CallHeadKept(c: Config, states: seq<State>, steps: seq<Step>, k: nat, i: nat)
    requires IsRun(c, states, steps) && k < i <= |steps|
    requires steps[k].C? && (steps[k].k.CallPop? || steps[k].k.CallPeek?)
    requires forall m :: k < m < i && steps[m].C? ==> steps[m].k.LoadOwnTail?
    ensures states[i].callHead == states[k].head
    decreases i
  {
    assert Follows(c, states[i - 1], steps[i - 1], states[i]);
    if k + 1 < i {
      CallHeadKept(c, states, steps, k, i - 1);
      BeforeTheLoad(c, states[i - 1], steps[i - 1]);
    }
  }

  /** A FULL answer is outdated exactly when the queue is not full at any moment of the call. */
  lemma OutdatedFull(c: Config, states: seq<State>, steps: seq<Step>, k: nat, i: nat, j: nat)
    requires IsRun(c, states, steps) && c.arith.Unbounded? && PushCall(steps, k, i, j)
    requires AnswersFull(c, states[i + 1].prod)
    ensures Shape(c, states[i]) && Enabled(c, states[i], steps[i])
    ensures Outdated(c, states[i], steps[i]) <==> forall b :: k < b <= j ==> !Full(c, states[b])
  {
    var _ := FullInTime(c, states, steps, k, i, j);
    CallTailKept(c, states, steps, k, i);
    assert Follows(c, states[i], steps[i], states[i + 1]);
  }

  /** An EMPTY answer is outdated exactly when the queue is not empty at any moment of the call. */
  lemma OutdatedEmpty(c: Config, states: seq<State>, steps: seq<Step>, k: nat, i: nat, j: nat)
    requires IsRun(c, states, steps) && c.arith.Unbounded? && PopCall(steps, k, i, j)
    requires AnswersEmpty(states[i + 1].cons)
    ensures Shape(c, states[i]) && Enabled(c, states[i], steps[i])
    ensures Outdated(c, states[i], steps[i]) <==> forall b :: k < b <= j ==> !Empty(states[b])
  {
    var _ := EmptyInTime(c, states, steps, k, i, j);
    CallHeadKept(c, states, steps, k, i);
    assert Follows(c, states[i], steps[i], states[i + 1]);
  }

  /** A refusal is the answer of the queue as it stands where the call begins. */
  lemma RefusalRefines(c: Config, states: seq<State>, steps: seq<Step>, i: nat)
    requires IsRun(c, states, steps) && c.arith.Unbounded? && i < |steps| && Sized(c, states[i])
    requires Refusal(c, states, steps, i) != []
    ensures Inv(c, states[i]) && Abs(c, states[i]).Valid()
    ensures Explains(Abs(c, states[i]), Refusal(c, states, steps, i), Abs(c, states[i + 1]))
  {
    RunInv(c, states, steps, i);
    AbsValid(c, states[i]);
    assert Follows(c, states[i], steps[i], states[i + 1]);
    if steps[i].P? {
      FullWhenCalled(c, states, steps, i + 1);
    } else {
      EmptyWhenCalled(c, states, steps, i + 1);
    }
  }

  // ------------------------------------------------------------- whole runs

  /** What takes effect at step i: the call it answers, or the refusal of the call it begins. */
  ghost function EffectAt(c: Config, states: seq<State>, steps: seq<Step>, i: nat): seq<Event>
    requires IsRun(c, states, steps) && i < |steps|
  {
    assert Follows(c, states[i], steps[i], states[i + 1]);
    Effect(c, states[i], steps[i]) + Refusal(c, states, steps, i)
  }

  lemma StepExplained(c: Config, states: seq<State>, steps: seq<Step>, i: nat)
    requires IsRun(c, states, steps) && c.arith.Unbounded? && i < |steps| && Sized(c, states[i])
    ensures Abs(c, states[i]).Valid() && Sized(c, states[i + 1])
    ensures Explains(Abs(c, states[i]), EffectAt(c, states, steps, i), Abs(c, states[i + 1]))
  {
    RunInv(c, states, steps, i);
    assert Follows(c, states[i], steps[i], states[i + 1]);
    StepRefines(c, states[i], steps[i]);
    var x, y := Effect(c, states[i], steps[i]), Refusal(c, states, steps, i);
    if y == [] {
      assert x + y == x;
    } else {
      RefusalRefines(c, states, steps, i);
      assert x == [] && x + y == y;
    }
  }

  /** The calls that take effect from moment i on, in that order. */
  ghost function History(c: Config, states: seq<State>, steps: seq<Step>, i: nat): seq<Event>
    requires IsRun(c, states, steps) && i <= |steps|
    decreases |steps| - i
  {
    if i == |steps| then []
    else EffectAt(c, states, steps, i) + History(c, states, steps, i + 1)
  }

  function Calls(h: seq<Event>): (r: seq<Q.Call>)
    ensures |r| == |h|
  {
    seq(|h|, k requires 0 <= k < |h| => h[k].call)
  }

  function Returned(h: seq<Event>): (r: seq<Q.Answer>)
    ensures |r| == |h|
  {
    seq(|h|, k requires 0 <= k < |h| => h[k].answer)
  }

  /** q answers these calls with these answers and ends as q'. */
  ghost predicate Runs(q: Q.Queue, h: seq<Event>, q': Q.Queue) {
    && q.Valid() && Q.AllAllowed(q, Calls(h))
    && Q.After(q, Calls(h)) == q' && Q.Answers(q, Calls(h)) == Returned(h)
  }

  lemma RunsCons(q: Q.Queue, h: seq<Event>, q1: Q.Queue, rest: seq<Event>, q2: Q.Queue)
    requires q.Valid() && Explains(q, h, q1) && Runs(q1, rest, q2)
    ensures Runs(q, h + rest, q2)
  {
    if h == [] {
      assert h + rest == rest;
    } else {
      assert Calls(h + rest) == [h[0].call] + Calls(rest);
      assert Returned(h + rest) == [h[0].answer] + Returned(rest);
      Q.RunCons(q, h[0].call, Calls(rest));
    }
  }

  lemma {:induction false} SizedRun(c: Config, states: seq<State>, steps: seq<Step>, i: nat)
    requires IsRun(c, states, steps) && c.arith.Unbounded? && i < |states|
    ensures Sized(c, states[i])
  {
    if i > 0 {
      SizedRun(c, states, steps, i - 1);
      StepExplained(c, states, steps, i - 1);
    }
  }

  /** From moment i on, the calls are a run of the queue as it stands then. */
  ghost predicate LinearFrom(c: Config, states: seq<State>, steps: seq<Step>, i: nat)
    requires IsRun(c, states, steps) && i <= |steps|
  {
    Runs(Abs(c, states[i]), History(c, states, steps, i), Abs(c, states[|steps|]))
  }

  lemma LinearAtEnd(c: Config, states: seq<State>, steps: seq<Step>)
    requires IsRun(c, states, steps) && c.arith.Unbounded?
    ensures LinearFrom(c, states, steps, |steps|)
  {
    SizedRun(c, states, steps, |steps|);
    RunInv(c, states, steps, |steps|);
    AbsValid(c, states[|steps|]);
  }

  lemma LinearBefore(c: Config, states: seq<State>, steps: seq<Step>, i: nat)
    requires IsRun(c, states, steps) && c.arith.Unbounded? && i < |steps| && LinearFrom(c, states, steps, i + 1)
    ensures LinearFrom(c, states, steps, i)
  {
    SizedRun(c, states, steps, i);
    StepExplained(c, states, steps, i);
    RunsCons(Abs(c, states[i]), EffectAt(c, states, steps, i), Abs(c, states[i + 1]),
             History(c, states, steps, i + 1), Abs(c, states[|steps|]));
  }

  lemma {:induction false} LinearizesFrom(c: Config, states: seq<State>, steps: seq<Step>, i: nat)
    requires IsRun(c, states, steps) && c.arith.Unbounded? && i <= |steps|
    ensures LinearFrom(c, states, steps, i)
    decreases |steps| - i
  {
    if i == |steps| {
      LinearAtEnd(c, states, steps);
    } else {
      LinearizesFrom(c, states, steps, i + 1);
      LinearBefore(c, states, steps, i);
    }
  }

  // ------------------------------------------------------ 64-bit counters

  /** The wrapped load of tail refuses, and is outdated, exactly when the true one is. */
  lemma FullWraps(c: Config, s: State, v: nat)
    requires c.Valid() && c.arith.Wrapped? && Inv(Lifted(c), s) && PEnabled(c, WrapState(s), LoadTail(v))
    ensures var w := LiftView(s.seenTail, v);
      && PEnabled(Lifted(c), s, LoadTail(w)) && (v == Wrap(s.callTail) <==> w == s.callTail)
      && c.Gap(Wrap(s.head), v) == s.head - w
  {
    ViewLifts(c, s.seenTail, v, s.tail);
    var w := LiftView(s.seenTail, v);
    if w <= s.callTail { WrapInjective(s.callTail, w); } else { WrapInjective(w, s.callTail); }
    DiffOfWraps(s.head, w);
  }

  lemma EmptyWraps(c: Config, s: State, v: nat)
    requires c.Valid() && c.arith.Wrapped? && Inv(Lifted(c), s) && CEnabled(c, WrapState(s), LoadSeenHead(v))
    ensures var w := LiftView(s.seenHead, v);
      && CEnabled(Lifted(c), s, LoadSeenHead(w)) && (v == Wrap(s.callHead) <==> w == s.callHead)
      && (Wrap(s.tail) == v <==> s.tail == w)
  {
    ViewLifts(c, s.seenHead, v, s.head);
    var w := LiftView(s.seenHead, v);
    if w <= s.callHead { WrapInjective(s.callHead, w); } else { WrapInjective(w, s.callHead); }
    WrapInjective(w, s.tail);
  }

  /** The same step of the wrapping machine refuses in the same way. */
  lemma RefusesAlike(c: Config, s: State, e: Step)
    requires c.Valid() && c.arith.Wrapped? && Inv(Lifted(c), s) && Enabled(c, WrapState(s), e)
    ensures Shape(c, WrapState(s)) && Enabled(Lifted(c), s, LiftStep(s, e))
    ensures SeesFull(c, WrapState(s), e) == SeesFull(Lifted(c), s, LiftStep(s, e))
    ensures SeesEmpty(c, WrapState(s), e) == SeesEmpty(Lifted(c), s, LiftStep(s, e))
    ensures Outdated(c, WrapState(s), e) == Outdated(Lifted(c), s, LiftStep(s, e))
  {
    Simulates(c, s, e);
    if e.P? && e.p.LoadTail? { FullWraps(c, s, e.p.v); }
    if e.C? && e.k.LoadSeenHead? { EmptyWraps(c, s, e.k.v); }
  }

  lemma PushEffectWraps(c: Config, s: State, p: PStep)
    requires c.Valid() && c.arith.Wrapped? && Inv(Lifted(c), s) && PEnabled(c, WrapState(s), p)
    requires Shape(c, WrapState(s)) && Enabled(Lifted(c), s, LiftStep(s, P(p)))
    ensures LiftStep(s, P(p)).P?
    ensures PushEffect(c, WrapState(s), p) == PushEffect(Lifted(c), s, LiftStep(s, P(p)).p)
  {
  }

  lemma PopEffectWraps(c: Config, s: State, k: CStep)
    requires c.Valid() && c.arith.Wrapped? && Inv(Lifted(c), s) && CEnabled(c, WrapState(s), k)
    requires Shape(c, WrapState(s)) && Enabled(Lifted(c), s, LiftStep(s, C(k)))
    ensures LiftStep(s, C(k)).C?
    ensures PopEffect(c, WrapState(s), k) == PopEffect(Lifted(c), s, LiftStep(s, C(k)).k)
  {
    ConsumerCounters(c, s, s.tail);
  }

  /** The same step of the wrapping machine answers the same call in the same way. */
  lemma EffectWraps(c: Config, s: State, e: Step)
    requires c.Valid() && c.arith.Wrapped? && Inv(Lifted(c), s) && Enabled(c, WrapState(s), e)
    ensures Shape(c, WrapState(s)) && Enabled(Lifted(c), s, LiftStep(s, e))
    ensures Effect(c, WrapState(s), e) == Effect(Lifted(c), s, LiftStep(s, e))
  {
    Simulates(c, s, e);
    match e
    case P(p) => PushEffectWraps(c, s, p);
    case C(k) => PopEffectWraps(c, s, k);
    case O(_) =>
  }

  /** wide is an unbounded run whose image is states. */
  ghost predicate Lifts(c: Config, states: seq<State>, steps: seq<Step>, wide: seq<State>, wideSteps: seq<Step>) {
    && IsRun(c, states, steps) && c.arith.Wrapped?
    && IsRun(Lifted(c), wide, wideSteps) && |wideSteps| == |steps|
    && (forall k :: 0 <= k < |states| ==> states[k] == WrapState(wide[k]))
    && (forall k :: 0 <= k < |steps| ==> wideSteps[k] == LiftStep(wide[k], steps[k]))
  }

  lemma {:induction false} RefusalsWrap(
      c: Config, states: seq<State>, steps: seq<Step>, wide: seq<State>, wideSteps: seq<Step>, i: nat)
    requires Lifts(c, states, steps, wide, wideSteps) && i <= |steps|
    ensures WillBeFull(c, states, steps, i) == WillBeFull(Lifted(c), wide, wideSteps, i)
    ensures WillBeEmpty(c, states, steps, i) == WillBeEmpty(Lifted(c), wide, wideSteps, i)
    decreases |steps| - i
  {
    if i < |steps| {
      RefusalsWrap(c, states, steps, wide, wideSteps, i + 1);
      RunInv(Lifted(c), wide, wideSteps, i);
      assert Follows(c, states[i], steps[i], states[i + 1]);
      assert states[i] == WrapState(wide[i]);
      RefusesAlike(c, wide[i], steps[i]);
    }
  }

  lemma {:induction false} HistoryWraps(
      c: Config, states: seq<State>, steps: seq<Step>, wide: seq<State>, wideSteps: seq<Step>, i: nat)
    requires Lifts(c, states, steps, wide, wideSteps) && i <= |steps|
    ensures History(c, states, steps, i) == History(Lifted(c), wide, wideSteps, i)
    decreases |steps| - i
  {
    if i < |steps| {
      HistoryWraps(c, states, steps, wide, wideSteps, i + 1);
      RunInv(Lifted(c), wide, wideSteps, i);
      assert Follows(c, states[i], steps[i], states[i + 1]);
      assert states[i] == WrapState(wide[i]);
      EffectWraps(c, wide[i], steps[i]);
      RefusalsWrap(c, states, steps, wide, wideSteps, i + 1);
      assert Refusal(c, states, steps, i) == Refusal(Lifted(c), wide, wideSteps, i);
    }
  }

  /**
    Linearization, in both arithmetics: the calls of a run, in the order in which
    they take effect, are a run of the bounded queue from empty. It gives every
    one of them the answer that the protocol gave, and ends with what the
    protocol has published and delivered.
   */
  lemma Linearizes(c: Config, states: seq<State>, steps: seq<Step>)
    requires IsRun(c, states, steps)
    ensures Runs(Q.Queue(c.capacity, c.maxPayload, [], 0, Q.NoHold), History(c, states, steps, 0),
                 Abs(c, states[|steps|]))
  {
    if c.arith.Unbounded? {
      LinearizesFrom(c, states, steps, 0);
    } else {
      var wide, wideSteps := LiftRun(c, states, steps);
      HistoryWraps(c, states, steps, wide, wideSteps, 0);
      LinearizesFrom(Lifted(c), wide, wideSteps, 0);
      assert states[0] == WrapState(wide[0]) && states[|steps|] == WrapState(wide[|steps|]);
    }
  }

  // ------------------------------------------------------------ exactly once

  datatype Side = Producing | Consuming

  predicate Owns(side: Side, e: Step) {
    if side.Producing? then e.P? else e.C?
  }

  /** A reservation and its commit are one call. */
  predicate Begins(side: Side, e: Step) {
    if side.Producing? then e.P? && (e.p.CallPush? || e.p.CallReserve?)
    else e.C? && (e.k.CallPop? || e.k.CallPeek? || e.k.CallRelease?)
  }

  /** 1 when this side has a call in progress that has neither taken effect nor been refused. */
  ghost function Open(side: Side, c: Config, states: seq<State>, steps: seq<Step>, i: nat): nat
    requires IsRun(c, states, steps) && i <= |steps|
  {
    var p, k := states[i].prod, states[i].cons;
    if side.Producing? then
      if p.PIdle? || AnswersFull(c, p) || ((p.Called? || p.HasHead?) && WillBeFull(c, states, steps, i)) then 0 else 1
    else if k.CIdle? || k.Peeked? || AnswersEmpty(k) || ((k.Asked? || k.HasOwn?) && WillBeEmpty(c, states, steps, i)) then 0
    else 1
  }

  /** Calls that this side begins in steps [i, j). */
  function Begun(side: Side, steps: seq<Step>, i: nat, j: nat): nat
    requires i <= j <= |steps|
    decreases j - i
  {
    if i == j then 0 else (if Begins(side, steps[i]) then 1 else 0) + Begun(side, steps, i + 1, j)
  }

  /** Calls of this side that take effect at steps [i, j). */
  ghost function TookEffect(side: Side, c: Config, states: seq<State>, steps: seq<Step>, i: nat, j: nat): nat
    requires IsRun(c, states, steps) && i <= j <= |steps|
    decreases j - i
  {
    if i == j then 0
    else (if Owns(side, steps[i]) then |EffectAt(c, states, steps, i)| else 0) + TookEffect(side, c, states, steps, i + 1, j)
  }

  /** Outdated refusals of this side in steps [i, j). */
  ghost function RefusedOutdated(side: Side, c: Config, states: seq<State>, steps: seq<Step>, i: nat, j: nat): nat
    requires IsRun(c, states, steps) && i <= j <= |steps|
    decreases j - i
  {
    if i == j then 0
    else
      assert Follows(c, states[i], steps[i], states[i + 1]);
      (if Owns(side, steps[i]) && Outdated(c, states[i], steps[i]) then 1 else 0)
      + RefusedOutdated(side, c, states, steps, i + 1, j)
  }

  lemma PushBalance(c: Config, states: seq<State>, steps: seq<Step>, i: nat)
    requires IsRun(c, states, steps) && i < |steps|
    ensures Open(Producing, c, states, steps, i) + Begun(Producing, steps, i, i + 1)
      == Open(Producing, c, states, steps, i + 1) + TookEffect(Producing, c, states, steps, i, i + 1)
         + RefusedOutdated(Producing, c, states, steps, i, i + 1)
  {
    assert Follows(c, states[i], steps[i], states[i + 1]);
    BeforeTheLoad(c, states[i], steps[i]);
  }

  lemma PopBalance(c: Config, states: seq<State>, steps: seq<Step>, i: nat)
    requires IsRun(c, states, steps) && i < |steps|
    ensures Open(Consuming, c, states, steps, i) + Begun(Consuming, steps, i, i + 1)
      == Open(Consuming, c, states, steps, i + 1) + TookEffect(Consuming, c, states, steps, i, i + 1)
         + RefusedOutdated(Consuming, c, states, steps, i, i + 1)
  {
    assert Follows(c, states[i], steps[i], states[i + 1]);
    BeforeTheLoad(c, states[i], steps[i]);
  }

  /** On each side, over any stretch of any run, calls balance. */
  lemma {:induction false} Balance(side: Side, c: Config, states: seq<State>, steps: seq<Step>, i: nat, j: nat)
    requires IsRun(c, states, steps) && i <= j <= |steps|
    ensures Open(side, c, states, steps, i) + Begun(side, steps, i, j)
      == Open(side, c, states, steps, j) + TookEffect(side, c, states, steps, i, j)
         + RefusedOutdated(side, c, states, steps, i, j)
    decreases j - i
  {
    if i < j {
      Balance(side, c, states, steps, i + 1, j);
      if side.Producing? { PushBalance(c, states, steps, i); } else { PopBalance(c, states, steps, i); }
    }
  }

  /**
    A call begins at step k and is the only one of its side up to moment j. By
    then exactly one of three things is true: it has taken effect, once; it was
    refused by an outdated load; it is still open.
   */
  lemma ExactlyOnce(side: Side, c: Config, states: seq<State>, steps: seq<Step>, k: nat, j: nat)
    requires IsRun(c, states, steps) && k < j <= |steps| && Begins(side, steps[k])
    requires forall m :: k < m < j ==> !Begins(side, steps[m])
    ensures TookEffect(side, c, states, steps, k, j) + RefusedOutdated(side, c, states, steps, k, j)
         + Open(side, c, states, steps, j) == 1
  {
    assert Follows(c, states[k], steps[k], states[k + 1]);
    Balance(side, c, states, steps, k, j);
    NoneBegun(side, steps, k + 1, j);
  }

  lemma {:induction false} NoneBegun(side: Side, steps: seq<Step>, i: nat, j: nat)
    requires i <= j <= |steps| && forall m :: i <= m < j ==> !Begins(side, steps[m])
    ensures Begun(side, steps, i, j) == 0
    decreases j - i
  {
    if i < j { NoneBegun(side, steps, i + 1, j); }
  }

  /** The history holds what took effect on either side and nothing else. */
  lemma {:induction false} HistoryCounts(c: Config, states: seq<State>, steps: seq<Step>, i: nat)
    requires IsRun(c, states, steps) && i <= |steps|
    ensures |History(c, states, steps, i)| == TookEffect(Producing, c, states, steps, i, |steps|)
                                            + TookEffect(Consuming, c, states, steps, i, |steps|)
    decreases |steps| - i
  {
    if i < |steps| { HistoryCounts(c, states, steps, i + 1); }
  }

  // -------------------------------------------------------------- arguments

  /** The producer's call in progress, if there is one, is a push of this payload. */
  predicate Pushes(p: Producer, data: Bytes) {
    match p
    case PIdle => true
    case Called(req) => req == Push(data)
    case HasHead(req, _) => req == Push(data)
    case HasTail(req, _, _) => req == Push(data)
    case Copying(d, _, _) => d == data
    case Held(_, _) => false
    case WriteLength(d, _) => d == data
    case WriteFlags(d, _) => d == data
    case WriteSequence(d, _) => d == data
    case Publish(d, _) => d == data
  }

  /** The consumer's call in progress, if there is one, is this pop or peek. */
  predicate Pops(k: Consumer, pop: PopRequest) {
    match k
    case CIdle => true
    case Asked(q) => q == pop
    case HasOwn(q, _) => q == pop
    case HasSeen(q, _, _) => q == pop
    case AtHeader(q, _) => q == pop
    case Draining(room, _, _, _) => pop == Pop(room)
    case Consume(room, _, _) => pop == Pop(room)
    case Peeked(_, _) => pop == Peek
    case Releasing(_) => false
    case Release(_, _) => false
  }

  lemma PushesStep(c: Config, s: State, e: Step, data: Bytes)
    requires Shape(c, s) && Enabled(c, s, e) && Pushes(s.prod, data) && !Begins(Producing, e)
    ensures Pushes(Apply(c, s, e).prod, data)
  {
  }

  lemma PopsStep(c: Config, s: State, e: Step, pop: PopRequest)
    requires Shape(c, s) && Enabled(c, s, e) && Pops(s.cons, pop) && !Begins(Consuming, e)
    ensures Pops(Apply(c, s, e).cons, pop)
  {
  }

  lemma {:induction false} PushesRun(c: Config, states: seq<State>, steps: seq<Step>, k: nat, m: nat, data: Bytes)
    requires IsRun(c, states, steps) && k <= m < |states| && Pushes(states[k].prod, data)
    requires forall x :: k <= x < m ==> !Begins(Producing, steps[x])
    ensures Pushes(states[m].prod, data)
    decreases m
  {
    if k < m {
      PushesRun(c, states, steps, k, m - 1, data);
      assert Follows(c, states[m - 1], steps[m - 1], states[m]);
      PushesStep(c, states[m - 1], steps[m - 1], data);
    }
  }

  lemma {:induction false} PopsRun(c: Config, states: seq<State>, steps: seq<Step>, k: nat, m: nat, pop: PopRequest)
    requires IsRun(c, states, steps) && k <= m < |states| && Pops(states[k].cons, pop)
    requires forall x :: k <= x < m ==> !Begins(Consuming, steps[x])
    ensures Pops(states[m].cons, pop)
    decreases m
  {
    if k < m {
      PopsRun(c, states, steps, k, m - 1, pop);
      assert Follows(c, states[m - 1], steps[m - 1], states[m]);
      PopsStep(c, states[m - 1], steps[m - 1], pop);
    }
  }

  /** Nothing takes effect, or just this call, with some answer. */
  predicate NothingBut(h: seq<Event>, call: Q.Call) {
    h == [] || (|h| == 1 && h[0].call == call)
  }

  /** Whatever takes effect between a push and the producer's next call is a push of that payload. */
  lemma PushArguments(c: Config, states: seq<State>, steps: seq<Step>, k: nat, m: nat, data: Bytes)
    requires IsRun(c, states, steps) && k <= m < |steps| && steps[k] == P(CallPush(data))
    requires forall x :: k < x <= m ==> !Begins(Producing, steps[x])
    ensures Owns(Producing, steps[m]) ==> NothingBut(EffectAt(c, states, steps, m), Q.Push(data))
  {
    assert Follows(c, states[m], steps[m], states[m + 1]);
    if k < m {
      assert Follows(c, states[k], steps[k], states[k + 1]);
      PushesRun(c, states, steps, k + 1, m, data);
    }
  }

  /** A refused reservation is refused for the length asked for. */
  lemma ReserveArguments(c: Config, states: seq<State>, steps: seq<Step>, k: nat, len: nat)
    requires IsRun(c, states, steps) && k < |steps| && steps[k] == P(CallReserve(len))
    ensures NothingBut(EffectAt(c, states, steps, k), Q.Reserve(len, Blank(c)))
  {
    assert Follows(c, states[k], steps[k], states[k + 1]);
  }

  /** The producer's call in progress, if there is one, is a reservation of this length. */
  predicate Reserves(p: Producer, len: nat) {
    match p
    case PIdle => true
    case Called(req) => req == Reserve(len)
    case HasHead(req, _) => req == Reserve(len)
    case HasTail(req, _, _) => req == Reserve(len)
    case Copying(_, _, _) => false
    case Held(l, _) => l == len
    case WriteLength(d, _) => |d| <= len
    case WriteFlags(d, _) => |d| <= len
    case WriteSequence(d, _) => |d| <= len
    case Publish(d, _) => |d| <= len
  }

  lemma ReservesStep(c: Config, s: State, e: Step, len: nat)
    requires Shape(c, s) && Enabled(c, s, e) && Reserves(s.prod, len) && !Begins(Producing, e)
    ensures Reserves(Apply(c, s, e).prod, len)
  {
  }

  /** A reservation hands out the length asked for until the producer's next call. */
  lemma {:induction false} ReserveHolds(c: Config, states: seq<State>, steps: seq<Step>, k: nat, m: nat, len: nat)
    requires IsRun(c, states, steps) && k < m < |states| && steps[k] == P(CallReserve(len))
    requires forall x :: k < x < m ==> !Begins(Producing, steps[x])
    ensures Reserves(states[m].prod, len)
    decreases m
  {
    assert Follows(c, states[m - 1], steps[m - 1], states[m]);
    if k + 1 < m {
      ReserveHolds(c, states, steps, k, m - 1, len);
      ReservesStep(c, states[m - 1], steps[m - 1], len);
    }
  }

  /** Byte i of the reserved slot is b. */
  ghost predicate Staged(c: Config, s: State, i: nat, b: Byte) {
    Shape(c, s) && s.prod.Held? && i < c.maxPayload && s.slots[c.SlotOf(s.prod.h)].payload[i] == b
  }

  lemma StagedStays(c: Config, s: State, e: Step, i: nat, b: Byte)
    requires Staged(c, s, i, b) && Enabled(c, s, e)
    requires e.P? ==> e.p.WriteHeld? && e.p.i != i
    ensures Staged(c, Apply(c, s, e), i, b)
  {
    ShapeKept(c, s, e);
  }

  lemma {:induction false} StagedRun(c: Config, states: seq<State>, steps: seq<Step>, x: nat, m: nat, i: nat, b: Byte)
    requires IsRun(c, states, steps) && x < m < |states| && steps[x] == P(WriteHeld(i, b))
    requires forall y :: x < y < m && steps[y].P? ==> steps[y].p.WriteHeld? && steps[y].p.i != i
    ensures Staged(c, states[m], i, b)
    decreases m
  {
    assert Follows(c, states[m - 1], steps[m - 1], states[m]);
    if x + 1 < m {
      StagedRun(c, states, steps, x, m - 1, i, b);
      StagedStays(c, states[m - 1], steps[m - 1], i, b);
    } else {
      ShapeKept(c, states[x], steps[x]);
    }
  }

  /** The byte that the application stored last in a place is the one that is committed there. */
  lemma WrittenIsCommitted(c: Config, states: seq<State>, steps: seq<Step>, x: nat, m: nat, i: nat, b: Byte, n: nat)
    requires IsRun(c, states, steps) && x < m < |steps|
    requires steps[x] == P(WriteHeld(i, b)) && steps[m] == P(CallCommit(n)) && i < n
    requires forall y :: x < y < m && steps[y].P? ==> steps[y].p.WriteHeld? && steps[y].p.i != i
    ensures Shape(c, states[m]) && states[m].prod.Held? && n <= c.maxPayload
    ensures PeekView(c, states[m], states[m].prod.h, n)[i] == b
    ensures states[m + 1].prod == WriteLength(PeekView(c, states[m], states[m].prod.h, n), states[m].prod.h)
  {
    StagedRun(c, states, steps, x, m, i, b);
    assert Follows(c, states[m], steps[m], states[m + 1]);
  }

  /** Whatever takes effect between a commit and the producer's next call is a push of the
      bytes that the reserved slot held, up to the committed length. */
  lemma CommitArguments(c: Config, states: seq<State>, steps: seq<Step>, k: nat, m: nat, n: nat)
    requires IsRun(c, states, steps) && k < m < |steps| && steps[k] == P(CallCommit(n))
    requires forall x :: k < x <= m ==> !Begins(Producing, steps[x])
    ensures Shape(c, states[k]) && states[k].prod.Held? && n <= states[k].prod.len <= c.maxPayload
    ensures Owns(Producing, steps[m]) ==>
      NothingBut(EffectAt(c, states, steps, m), Q.Push(PeekView(c, states[k], states[k].prod.h, n)))
  {
    assert Follows(c, states[m], steps[m], states[m + 1]);
    assert Follows(c, states[k], steps[k], states[k + 1]);
    PushesRun(c, states, steps, k + 1, m, PeekView(c, states[k], states[k].prod.h, n));
  }

  /** Whatever takes effect between a pop or peek and the consumer's next call is that pop or peek. */
  lemma PopArguments(c: Config, states: seq<State>, steps: seq<Step>, k: nat, m: nat, pop: PopRequest)
    requires IsRun(c, states, steps) && k <= m < |steps|
    requires steps[k] == C(match pop case Pop(room) => CallPop(room) case Peek => CallPeek)
    requires forall x :: k < x <= m ==> !Begins(Consuming, steps[x])
    ensures Owns(Consuming, steps[m]) ==>
      NothingBut(EffectAt(c, states, steps, m), match pop case Pop(room) => Q.Pop(room) case Peek => Q.Peek)
  {
    assert Follows(c, states[m], steps[m], states[m + 1]);
    if k < m {
      assert Follows(c, states[k], steps[k], states[k + 1]);
      PopsRun(c, states, steps, k + 1, m, pop);
    }
  }
}

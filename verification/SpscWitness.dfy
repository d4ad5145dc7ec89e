/**
  Concrete runs of a two-slot queue showing what does NOT hold of the protocol:
  a FULL answer does not imply that the queue was full at any moment of the run,
  an EMPTY answer does not imply that it was empty at the position in question
  (the load may be stale in both cases), and an observer that loads head and then
  tail may see tail ahead of head.
 */
module SpscWitness {
  import opened Payload
  import opened Spsc
  import opened SpscRuns
  import opened SpscWrapped

  /** The smallest payload room that a created queue can have. */
  const C2 := Config(Unbounded, 2, 8)
  const ZEROS: Bytes := [0, 0, 0, 0, 0, 0, 0, 0]
  const BLANK := Slot(0, 0, 0, ZEROS)
  const EMPTY_MESSAGE: Bytes := []

  const START := State([BLANK, BLANK], 0, 0, PIdle, CIdle, OIdle, 0, 0, 0, 0, [], [])

  /** What one would expect of some moment of the run. */
  datatype Moment = FullQueue | EmptyAtOne

  predicate Happens(w: Moment, s: State) {
    match w
    case FullQueue => Full(C2, s)
    case EmptyAtOne => Empty(s) && s.tail == 1
  }

  ghost predicate Never(w: Moment, states: seq<State>) {
    forall i :: 0 <= i < |states| ==> !Happens(w, states[i])
  }

  /** A run from START, now at s, in which w has not happened. */
  ghost predicate Reached(w: Moment, states: seq<State>, steps: seq<Step>, s: State) {
    IsRun(C2, states, steps) && states[0] == START && states[|steps|] == s && Never(w, states)
  }

  lemma Take(w: Moment, states: seq<State>, steps: seq<Step>, s: State, e: Step)
      returns (states': seq<State>, steps': seq<Step>, s': State)
    requires Reached(w, states, steps, s) && Shape(C2, s) && Enabled(C2, s, e)
    requires !Happens(w, Apply(C2, s, e))
    ensures s' == Apply(C2, s, e) && Shape(C2, s')
    ensures Reached(w, states', steps', s')
  {
    s' := Apply(C2, s, e);
    states', steps' := states + [s'], steps + [e];
    AppendRun(C2, states, steps, e);
    ShapeKept(C2, s, e);
  }

  const ADMITTED_0 := START.(prod := Copying([], 0, 0), obs := OHead(0))

  lemma AdmitFirst(w: Moment) returns (r: seq<State>, e: seq<Step>)
    ensures Reached(w, r, e, ADMITTED_0)
  {
    r, e := [START], [];
    var s := START;
    r, e, s := Take(w, r, e, s, O(ObserveHead));
    r, e, s := Take(w, r, e, s, P(CallPush(EMPTY_MESSAGE)));
    r, e, s := Take(w, r, e, s, P(LoadHead));
    r, e, s := Take(w, r, e, s, P(LoadTail(0)));
    r, e, s := Take(w, r, e, s, P(CheckFull));
  }

  const FILLED_0 := ADMITTED_0.(prod := WriteSequence([], 0))

  lemma FillFirst(w: Moment) returns (r: seq<State>, e: seq<Step>)
    ensures Reached(w, r, e, FILLED_0)
  {
    r, e := AdmitFirst(w);
    var s := ADMITTED_0;
    r, e, s := Take(w, r, e, s, P(EndCopy));
    r, e, s := Take(w, r, e, s, P(StoreLength));
    r, e, s := Take(w, r, e, s, P(StoreFlags));
    assert s.slots == [BLANK, BLANK];
  }

  const PUBLISHED_0 := ADMITTED_0.(prod := PIdle, head := 1, published := [EMPTY_MESSAGE])

  lemma PublishFirst(w: Moment) returns (r: seq<State>, e: seq<Step>)
    ensures Reached(w, r, e, PUBLISHED_0)
  {
    r, e := FillFirst(w);
    var s := FILLED_0;
    r, e, s := Take(w, r, e, s, P(StoreSequence));
    r, e, s := Take(w, r, e, s, P(StoreHead));
    assert [] + [EMPTY_MESSAGE] == [EMPTY_MESSAGE];
    assert s.slots == [BLANK, BLANK];
  }

  const ADMITTED_1 := PUBLISHED_0.(prod := Copying([], 1, 0))

  /** The second push is admitted with a view of tail = 0. */
  lemma AdmitSecond(w: Moment) returns (r: seq<State>, e: seq<Step>)
    ensures Reached(w, r, e, ADMITTED_1)
  {
    r, e := PublishFirst(w);
    var s := PUBLISHED_0;
    r, e, s := Take(w, r, e, s, P(CallPush(EMPTY_MESSAGE)));
    r, e, s := Take(w, r, e, s, P(LoadHead));
    r, e, s := Take(w, r, e, s, P(LoadTail(0)));
    r, e, s := Take(w, r, e, s, P(CheckFull));
  }

  const DRAINING_0 := ADMITTED_1.(seenHead := 1, callHead := 1, cons := Draining(0, 0, 0, []))

  lemma DrainFirst() returns (r: seq<State>, e: seq<Step>)
    ensures Reached(FullQueue, r, e, DRAINING_0)
  {
    r, e := AdmitSecond(FullQueue);
    var s := ADMITTED_1;
    r, e, s := Take(FullQueue, r, e, s, C(CallPop(0)));
    r, e, s := Take(FullQueue, r, e, s, C(LoadOwnTail));
    r, e, s := Take(FullQueue, r, e, s, C(LoadSeenHead(1)));
    r, e, s := Take(FullQueue, r, e, s, C(CheckEmpty));
    r, e, s := Take(FullQueue, r, e, s, C(ReadLength));
  }

  const POPPED_0 := ADMITTED_1.(tail := 1, seenHead := 1, callHead := 1, delivered := [EMPTY_MESSAGE], obs := OBoth(0, 1))

  /** The consumer takes the first message before the second is published. */
  lemma PopFirst() returns (r: seq<State>, e: seq<Step>)
    ensures Reached(FullQueue, r, e, POPPED_0)
  {
    r, e := DrainFirst();
    var s := DRAINING_0;
    r, e, s := Take(FullQueue, r, e, s, C(EndRead));
    r, e, s := Take(FullQueue, r, e, s, C(StoreTail));
    assert [] + [EMPTY_MESSAGE] == [EMPTY_MESSAGE];
    r, e, s := Take(FullQueue, r, e, s, O(ObserveTail));
  }

  const SLOTS_1 := [BLANK, Slot(0, 0, 1, ZEROS)]
  const FILLED_1 := POPPED_0.(prod := WriteSequence([], 1))

  lemma FillSecond() returns (r: seq<State>, e: seq<Step>)
    ensures Reached(FullQueue, r, e, FILLED_1)
  {
    r, e := PopFirst();
    var s := POPPED_0;
    r, e, s := Take(FullQueue, r, e, s, P(EndCopy));
    r, e, s := Take(FullQueue, r, e, s, P(StoreLength));
    r, e, s := Take(FullQueue, r, e, s, P(StoreFlags));
    assert s.slots == [BLANK, BLANK];
  }

  const PUBLISHED_1 :=
    POPPED_0.(slots := SLOTS_1, prod := PIdle, head := 2, published := [EMPTY_MESSAGE, EMPTY_MESSAGE])

  lemma PublishSecond() returns (r: seq<State>, e: seq<Step>)
    ensures Reached(FullQueue, r, e, PUBLISHED_1)
  {
    r, e := FillSecond();
    var s := FILLED_1;
    r, e, s := Take(FullQueue, r, e, s, P(StoreSequence));
    r, e, s := Take(FullQueue, r, e, s, P(StoreHead));
    assert s.slots == SLOTS_1;
    assert s.published == PUBLISHED_1.published;
  }

  /** FULL can be answered in a run in which the queue never was full. */
  lemma FullWithoutFull() returns (states: seq<State>, steps: seq<Step>)
    ensures IsRun(C2, states, steps) && Never(FullQueue, states)
    ensures AnswersFull(C2, states[|steps|].prod)
  {
    var r, e := PublishSecond();
    var s := PUBLISHED_1;
    r, e, s := Take(FullQueue, r, e, s, P(CallPush(EMPTY_MESSAGE)));
    r, e, s := Take(FullQueue, r, e, s, P(LoadHead));
    r, e, s := Take(FullQueue, r, e, s, P(LoadTail(0)));
    states, steps := r, e;
  }

  const FILLED_BOTH := ADMITTED_1.(prod := WriteSequence([], 1))

  lemma FillBoth() returns (r: seq<State>, e: seq<Step>)
    ensures Reached(EmptyAtOne, r, e, FILLED_BOTH)
  {
    r, e := AdmitSecond(EmptyAtOne);
    var s := ADMITTED_1;
    r, e, s := Take(EmptyAtOne, r, e, s, P(EndCopy));
    r, e, s := Take(EmptyAtOne, r, e, s, P(StoreLength));
    r, e, s := Take(EmptyAtOne, r, e, s, P(StoreFlags));
    assert s.slots == [BLANK, BLANK];
  }

  const BOTH := ADMITTED_1.(slots := SLOTS_1, prod := PIdle, head := 2, published := [EMPTY_MESSAGE, EMPTY_MESSAGE])

  /** The second message is published before anything is popped. */
  lemma PublishBoth() returns (r: seq<State>, e: seq<Step>)
    ensures Reached(EmptyAtOne, r, e, BOTH)
  {
    r, e := FillBoth();
    var s := FILLED_BOTH;
    r, e, s := Take(EmptyAtOne, r, e, s, P(StoreSequence));
    r, e, s := Take(EmptyAtOne, r, e, s, P(StoreHead));
    assert s.slots == SLOTS_1;
    assert s.published == BOTH.published;
  }

  const READING_ONE := BOTH.(seenHead := 1, callHead := 2, cons := Draining(0, 0, 0, []))

  lemma ReadOne() returns (r: seq<State>, e: seq<Step>)
    ensures Reached(EmptyAtOne, r, e, READING_ONE)
  {
    r, e := PublishBoth();
    var s := BOTH;
    r, e, s := Take(EmptyAtOne, r, e, s, C(CallPop(0)));
    r, e, s := Take(EmptyAtOne, r, e, s, C(LoadOwnTail));
    r, e, s := Take(EmptyAtOne, r, e, s, C(LoadSeenHead(1)));
    r, e, s := Take(EmptyAtOne, r, e, s, C(CheckEmpty));
    r, e, s := Take(EmptyAtOne, r, e, s, C(ReadLength));
  }

  const TOOK_ONE := BOTH.(tail := 1, seenHead := 1, callHead := 2, delivered := [EMPTY_MESSAGE])

  /** The first message is popped by a call that sees head at 1. */
  lemma TakeOne() returns (r: seq<State>, e: seq<Step>)
    ensures Reached(EmptyAtOne, r, e, TOOK_ONE)
  {
    r, e := ReadOne();
    var s := READING_ONE;
    r, e, s := Take(EmptyAtOne, r, e, s, C(EndRead));
    r, e, s := Take(EmptyAtOne, r, e, s, C(StoreTail));
    assert [] + [EMPTY_MESSAGE] == [EMPTY_MESSAGE];
  }

  /** EMPTY can be answered at position 1 with head at 2, in a run in which the queue never was
      empty at position 1. */
  lemma EmptyWithoutEmpty() returns (states: seq<State>, steps: seq<Step>)
    ensures IsRun(C2, states, steps) && Never(EmptyAtOne, states)
    ensures var s := states[|steps|]; AnswersEmpty(s.cons) && s.tail == 1 && s.head == 2
  {
    var r, e := TakeOne();
    var s := TOOK_ONE;
    r, e, s := Take(EmptyAtOne, r, e, s, C(CallPop(0)));
    r, e, s := Take(EmptyAtOne, r, e, s, C(LoadOwnTail));
    r, e, s := Take(EmptyAtOne, r, e, s, C(LoadSeenHead(1)));
    states, steps := r, e;
  }

  /** An observer can load a head older than the tail it loads next. */
  lemma ObservedTailAhead() returns (states: seq<State>, steps: seq<Step>)
    ensures IsRun(C2, states, steps)
    ensures states[|steps|].obs == OBoth(0, 1)
  {
    states, steps := PopFirst();
  }
}

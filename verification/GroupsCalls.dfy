/**
  What the calls of a group's handle return. Every pop or peek of a handle that is
  not overrun ends by itself, answers once, and its answer is decided by the one
  value of head that it loads: EMPTY when that is not beyond the group's tail,
  else the message at the tail, or TOOBIG when that has no room.
 */
module GroupsCalls {
  import opened Payload
  import opened Spsc
  import opened SpscInvariant
  import opened SpscLinear
  import opened SpscProgress
  import opened Groups
  import opened GroupsInvariant
  import opened GroupsRuns
  import opened GroupsProgress
  import Q = BoundedQueue

  // ---------------------------------------------------------------- answers

  /** The queue call behind a request. */
  function Request(pop: PopRequest): Q.Call {
    match pop
    case Pop(room) => Q.Pop(room)
    case Peek => Q.Peek
  }

  /** The calls of a handle, and the steps that begin them. */
  predicate ByHandle(call: Q.Call) {
    call.Pop? || call.Peek? || call.Release?
  }

  function CallOf(call: Q.Call): CStep
    requires ByHandle(call)
  {
    match call
    case Pop(room) => CallPop(room)
    case Peek => CallPeek
    case Release => CallRelease
  }

  /** What the call of a handle returns at this step, if it returns. */
  function Reply(c: Config, base: State, e: Entry, k: CStep): seq<Event>
    requires Shape(c, base) && EntryShape(c, e) && HandleEnabled(c, base, e, k)
  {
    ViewShape(c, base, e);
    if k.CheckEmpty? then
      (if e.popper.t >= e.popper.v then [Event(Request(e.popper.pop), Q.Fail(Q.Empty))] else [])
    else PopEffect(c, View(base, e), k)
  }

  /** What entry i's handle returns at step b. */
  ghost function ReplyAt(c: Config, states: seq<GState>, steps: seq<GStep>, i: nat, b: nat): seq<Event>
    requires b < |steps| && b < |states|
  {
    var g, e := states[b], steps[b];
    if GShape(c, g) && GEnabled(c, g, e) && e.Handle? && e.i == i then Reply(c, g.base, g.entries[i], e.k) else []
  }

  /** What the calls of entry i's handle return in steps [a, b). */
  ghost function Replies(c: Config, states: seq<GState>, steps: seq<GStep>, i: nat, a: nat, b: nat): seq<Event>
    requires a <= b <= |steps| < |states|
    decreases b
  {
    if a == b then [] else Replies(c, states, steps, i, a, b - 1) + ReplyAt(c, states, steps, i, b - 1)
  }

  /** The answer to a call at tail t when the loaded head is v. */
  function RightAnswer(published: seq<Bytes>, call: Q.Call, t: nat, v: int): Q.Answer
    requires v <= |published|
  {
    if call.Release? then Q.OK
    else if v <= t then Q.Fail(Q.Empty)
    else
      var m := Wire(published[t]);
      if call.Pop? && |m| > call.room then Q.Answer(Q.TooBig, |m|, []) else Q.Answer(Q.Ok, |m|, m)
  }

  /** Entry e is e0 with the call answered: a pop that went well and a release have taken the
      message, a peek that went well shows it, and no other answer changes anything. */
  ghost predicate Served(published: seq<Bytes>, call: Q.Call, e0: Entry, v: int, e: Entry)
    requires v <= |published|
  {
    var t, a := e0.tail, RightAnswer(published, call, e0.tail, v);
    if a.code != Q.Ok then e == e0.(popper := CIdle, seen := e.seen)
    else
      && t < |published|
      && (call.Peek? ==> e == e0.(popper := Peeked(t, a.len), seen := e.seen))
      && (!call.Peek? ==>
            e == e0.(popper := CIdle, seen := e.seen, tail := t + 1, delivered := e0.delivered + [Wire(published[t])]))
  }

  // --------------------------------------------------------------- one call

  /** Entry e, which was e0 when the call was made, has not been answered yet; the head it
      has loaded is v, or -1. */
  ghost predicate Underway(call: Q.Call, e0: Entry, v: int, e: Entry) {
    && e == e0.(popper := e.popper, seen := e.seen) && (v == -1 ==> e.seen == e0.seen)
    && match e.popper
       case Asked(p) => Request(p) == call && v == -1
       case HasOwn(p, t) => Request(p) == call && v == -1
       case HasSeen(p, t, w) => Request(p) == call && w == v == e.seen
       case AtHeader(p, t) => Request(p) == call && e0.tail < v == e.seen
       case Draining(room, t, n, _) => call == Q.Pop(room) && e0.tail < v == e.seen
       case Consume(room, t, got) => call == Q.Pop(room) && e0.tail < v == e.seen
       case Releasing(n) => call == Q.Release && v == -1
       case Release(t, n) => call == Q.Release && v == -1
       case _ => false
  }

  /** Underway without an answer, or served with one. */
  ghost predicate InOrder(published: seq<Bytes>, call: Q.Call, e0: Entry, v: int, e: Entry, said: seq<Event>) {
    || (said == [] && Underway(call, e0, v, e))
    || (v <= |published| && (v == -1 <==> call.Release?) && v >= -1
        && said == [Event(call, RightAnswer(published, call, e0.tail, v))]
        && Served(published, call, e0, v, e))
  }

  predicate LoadsHead(e: GStep, i: nat) {
    e.Handle? && e.i == i && e.k.LoadSeenHead?
  }

  /** What a live entry that is not overrun brings to its handle's next step. */
  ghost predicate Sound(c: Config, base: State, e: Entry) {
    && Inv(c, base) && EntryShape(c, e) && HandleInv(base, e, true)
    && (e.tail < base.head ==> SlotHas(c.capacity, base, e.tail))
  }

  /** The head that the call has loaded, after this step. */
  function LoadedAfter(v: int, k: CStep): int {
    if k.LoadSeenHead? then k.v else v
  }

  lemma ReadStep(c: Config, base: State, call: Q.Call, e0: Entry, v: int, e: Entry)
    requires Sound(c, base, e) && HandleEnabled(c, base, e, ReadLength)
    requires Underway(call, e0, v, e)
    ensures InOrder(base.published, call, e0, v, HandleApply(c, base, e, ReadLength), Reply(c, base, e, ReadLength))
  {
    var d, pay := base.published[e.tail], base.slots[e.tail % c.capacity].payload;
    assert pay[..|d| % TWO16] == pay[..|d|][..|d| % TWO16];
  }

  lemma ReleaseStep(c: Config, base: State, call: Q.Call, e0: Entry, v: int, e: Entry)
    requires Sound(c, base, e) && HandleEnabled(c, base, e, ReleaseStore)
    requires Underway(call, e0, v, e)
    ensures InOrder(base.published, call, e0, v, HandleApply(c, base, e, ReleaseStore), Reply(c, base, e, ReleaseStore))
  {
    var d, pay := base.published[e.tail], base.slots[e.tail % c.capacity].payload;
    assert pay[..|d| % TWO16] == pay[..|d|][..|d| % TWO16];
  }

  lemma AnswerStep(c: Config, base: State, call: Q.Call, e0: Entry, v: int, e: Entry, k: CStep)
    requires Sound(c, base, e) && HandleEnabled(c, base, e, k) && !k.ReadLength? && !k.ReleaseStore? && InsidePop(k)
    requires Underway(call, e0, v, e)
    ensures InOrder(base.published, call, e0, LoadedAfter(v, k), HandleApply(c, base, e, k), Reply(c, base, e, k))
  {
  }

  // ---------------------------------------------------------- a call in a run

  lemma InOrderGrows(p: seq<Bytes>, p': seq<Bytes>, call: Q.Call, e0: Entry, v: int, e: Entry, said: seq<Event>)
    requires p <= p' && InOrder(p, call, e0, v, e, said)
    ensures InOrder(p', call, e0, v, e, said)
  {
  }

  /** Neither a new call of entry i's handle nor its death. */
  predicate GoesOn(e: GStep, i: nat) {
    !HandleCalls(e, i) && e != Crash(i)
  }

  /** The handle of entry i makes this call at step k, and no other up to moment j. */
  ghost predicate MadeCall(steps: seq<GStep>, i: nat, k: nat, j: nat, call: Q.Call) {
    && k < j <= |steps| && ByHandle(call) && steps[k] == Handle(i, CallOf(call))
    && forall m :: k < m < j ==> GoesOn(steps[m], i)
  }

  /** Only its own handle and its death change a live entry. */
  lemma LiveStays(c: Config, g: GState, e: GStep, i: nat, ok: set<nat>)
    requires GInv(c, g, ok) && GEnabled(c, g, e) && i < |g.entries| && g.entries[i].phase.Live?
    requires e != Crash(i) && !(e.Handle? && e.i == i)
    ensures i < |GApply(c, g, e).entries| && GApply(c, g, e).entries[i] == g.entries[i]
  {
    if CreatorStep(e) {
      assert CreatorInv(g.base.head, g.entries, e.c, g.creators[e.c]);
      assert EntryInv(g.base, g.entries[i], i in ok);
      CreatorFrame(c, g, e);
      if g.creators[e.c].i == i { OwnerPart(c, g, e, i in ok); }
    }
  }

  /** The one step in (k, j) at which entry i's handle loads head is m; there is none when m is -1. */
  ghost predicate OneLoad(steps: seq<GStep>, i: nat, k: nat, j: nat, m: int) {
    && j <= |steps| && (m == -1 || (k < m < j && LoadsHead(steps[m], i)))
    && forall x :: k < x < j && LoadsHead(steps[x], i) ==> x == m
  }

  function Value(steps: seq<GStep>, i: nat, m: int): int {
    if 0 <= m < |steps| && LoadsHead(steps[m], i) then steps[m].k.v else -1
  }

  /** The last step in (k, j) at which entry i's handle loads head, or -1. */
  function LoadIn(steps: seq<GStep>, i: nat, k: nat, j: nat): int
    requires k < j <= |steps|
    decreases j
  {
    if j == k + 1 then -1 else if LoadsHead(steps[j - 1], i) then j - 1 else LoadIn(steps, i, k, j - 1)
  }

  /** In order, whatever else is published later. */
  ghost predicate AlwaysInOrder(published: seq<Bytes>, call: Q.Call, e0: Entry, v: int, e: Entry, said: seq<Event>) {
    forall p :: published <= p ==> InOrder(p, call, e0, v, e, said)
  }

  /** At moment j the call made at step k is underway, or has been answered once. */
  ghost predicate Stands(c: Config, states: seq<GState>, steps: seq<GStep>, i: nat, k: nat, j: nat, call: Q.Call) {
    && k < j <= |steps| < |states|
    && i < |states[k].entries| && i < |states[j].entries| && states[j].entries[i].phase.Live?
    && OneLoad(steps, i, k, j, LoadIn(steps, i, k, j))
    && AlwaysInOrder(states[j].base.published, call, states[k].entries[i], Value(steps, i, LoadIn(steps, i, k, j)),
                     states[j].entries[i], Replies(c, states, steps, i, k, j))
  }

  /** Group i, if live, has not been overrun and is about to read what was published. */
  ghost predicate SoundGroup(c: Config, g: GState, i: nat) {
    && GInv(c, g, {i})
    && (i < |g.entries| && g.entries[i].phase.Live? ==> Sound(c, g.base, g.entries[i]))
  }

  lemma RetainedIsSound(c: Config, g: GState, i: nat)
    requires GInv(c, g, {i}) && Retained(c, g, {i})
    ensures SoundGroup(c, g, i)
  {
    if i < |g.entries| && g.entries[i].phase.Live? {
      assert EntryInv(g.base, g.entries[i], i in {i});
    }
  }

  lemma SoundAt(c: Config, states: seq<GState>, steps: seq<GStep>, i: nat, r: nat, b: nat)
    requires IsGRun(c, states, steps) && r <= b && KeptSince(c, states, i, r, b + 1)
    ensures SoundGroup(c, states[b], i)
  {
    KeptInv(c, states, steps, i, r, b);
    RetainedIsSound(c, states[b], i);
  }

  lemma CallFirst(c: Config, states: seq<GState>, steps: seq<GStep>, i: nat, k: nat, call: Q.Call)
    requires IsGRun(c, states, steps) && MadeCall(steps, i, k, k + 1, call)
    ensures Stands(c, states, steps, i, k, k + 1, call)
  {
    assert GFollows(c, states[k], steps[k], states[k + 1]);
    assert Replies(c, states, steps, i, k, k) == [];
  }

  lemma CallOtherStep(
      c: Config, states: seq<GState>, steps: seq<GStep>, i: nat, k: nat, b: nat, call: Q.Call)
    requires IsGRun(c, states, steps) && b < |steps| && Stands(c, states, steps, i, k, b, call)
    requires GoesOn(steps[b], i) && !(steps[b].Handle? && steps[b].i == i) && SoundGroup(c, states[b], i)
    ensures Stands(c, states, steps, i, k, b + 1, call)
  {
    EntryWaits(c, states, steps, i, b);
    var said := Replies(c, states, steps, i, k, b);
    assert said + [] == said;
    LaterInOrder(states[b].base.published, states[b + 1].base.published, call, states[k].entries[i],
                 Value(steps, i, LoadIn(steps, i, k, b)), states[b].entries[i], said);
  }

  /** A step of somebody else: entry i stays, and what is published stays. */
  lemma EntryWaits(c: Config, states: seq<GState>, steps: seq<GStep>, i: nat, b: nat)
    requires IsGRun(c, states, steps) && b < |steps| && i < |states[b].entries| && states[b].entries[i].phase.Live?
    requires GoesOn(steps[b], i) && !(steps[b].Handle? && steps[b].i == i) && SoundGroup(c, states[b], i)
    ensures i < |states[b + 1].entries| && states[b + 1].entries[i] == states[b].entries[i]
    ensures states[b].base.published <= states[b + 1].base.published
    ensures ReplyAt(c, states, steps, i, b) == []
  {
    assert GFollows(c, states[b], steps[b], states[b + 1]);
    LiveStays(c, states[b], steps[b], i, {i});
    BasePrefix(c, states, steps, b);
  }

  lemma LaterInOrder(p: seq<Bytes>, p': seq<Bytes>, call: Q.Call, e0: Entry, v: int, e: Entry, said: seq<Event>)
    requires p <= p' && AlwaysInOrder(p, call, e0, v, e, said)
    ensures AlwaysInOrder(p', call, e0, v, e, said)
  {
  }

  /** The handle's own step, on a call that stands. */
  lemma OwnStep(c: Config, base: State, call: Q.Call, e0: Entry, v: int, e: Entry, k: CStep, said: seq<Event>)
    requires Sound(c, base, e) && HandleEnabled(c, base, e, k) && InsidePop(k)
    requires AlwaysInOrder(base.published, call, e0, v, e, said)
    ensures AlwaysInOrder(base.published, call, e0, LoadedAfter(v, k), HandleApply(c, base, e, k), said + Reply(c, base, e, k))
    ensures k.LoadSeenHead? ==> v == -1
  {
    assert InOrder(base.published, call, e0, v, e, said);
    assert said == [] && Underway(call, e0, v, e);
    if k.ReadLength? {
      ReadStep(c, base, call, e0, v, e);
    } else if k.ReleaseStore? {
      ReleaseStep(c, base, call, e0, v, e);
    } else {
      AnswerStep(c, base, call, e0, v, e, k);
    }
    assert said + Reply(c, base, e, k) == Reply(c, base, e, k);
    forall p | base.published <= p
      ensures InOrder(p, call, e0, LoadedAfter(v, k), HandleApply(c, base, e, k), said + Reply(c, base, e, k))
    {
      InOrderGrows(base.published, p, call, e0, LoadedAfter(v, k), HandleApply(c, base, e, k), Reply(c, base, e, k));
    }
  }

  lemma CallOwnStep(
      c: Config, states: seq<GState>, steps: seq<GStep>, i: nat, k: nat, b: nat, call: Q.Call)
    requires IsGRun(c, states, steps) && b < |steps| && Stands(c, states, steps, i, k, b, call)
    requires steps[b].Handle? && steps[b].i == i && GoesOn(steps[b], i)
    requires SoundGroup(c, states[b], i)
    ensures Stands(c, states, steps, i, k, b + 1, call)
  {
    assert GFollows(c, states[b], steps[b], states[b + 1]);
    OwnStep(c, states[b].base, call, states[k].entries[i], Value(steps, i, LoadIn(steps, i, k, b)), states[b].entries[i],
            steps[b].k, Replies(c, states, steps, i, k, b));
    LoadNoted(steps, i, k, b);
  }

  lemma LoadNoted(steps: seq<GStep>, i: nat, k: nat, b: nat)
    requires k < b < |steps| && OneLoad(steps, i, k, b, LoadIn(steps, i, k, b)) && steps[b].Handle? && steps[b].i == i
    requires steps[b].k.LoadSeenHead? ==> Value(steps, i, LoadIn(steps, i, k, b)) == -1
    ensures OneLoad(steps, i, k, b + 1, LoadIn(steps, i, k, b + 1))
    ensures Value(steps, i, LoadIn(steps, i, k, b + 1)) == LoadedAfter(Value(steps, i, LoadIn(steps, i, k, b)), steps[b].k)
  {
  }

  lemma CallNext(c: Config, states: seq<GState>, steps: seq<GStep>, i: nat, k: nat, b: nat, call: Q.Call)
    requires IsGRun(c, states, steps) && b < |steps| && GoesOn(steps[b], i) && SoundGroup(c, states[b], i)
    ensures Stands(c, states, steps, i, k, b, call) ==> Stands(c, states, steps, i, k, b + 1, call)
  {
    if Stands(c, states, steps, i, k, b, call) {
      if steps[b].Handle? && steps[b].i == i {
        CallOwnStep(c, states, steps, i, k, b, call);
      } else {
        CallOtherStep(c, states, steps, i, k, b, call);
      }
    }
  }

  /** Step b, if the call stands before it, leaves it standing. */
  ghost predicate KeepsStanding(
      c: Config, states: seq<GState>, steps: seq<GStep>, i: nat, k: nat, b: nat, call: Q.Call) {
    Stands(c, states, steps, i, k, b, call) ==> Stands(c, states, steps, i, k, b + 1, call)
  }

  lemma {:induction false} StandingRun(
      c: Config, states: seq<GState>, steps: seq<GStep>, i: nat, k: nat, j: nat, call: Q.Call)
    requires k < j && Stands(c, states, steps, i, k, k + 1, call)
    requires forall b :: k < b < j ==> KeepsStanding(c, states, steps, i, k, b, call)
    ensures Stands(c, states, steps, i, k, j, call)
    decreases j
  {
    if k + 1 < j {
      StandingRun(c, states, steps, i, k, j - 1, call);
      assert KeepsStanding(c, states, steps, i, k, j - 1, call);
    }
  }

  /** How the call made at step k stands at moment j. */
  lemma CallStands(
      c: Config, states: seq<GState>, steps: seq<GStep>, i: nat, r: nat, k: nat, j: nat, call: Q.Call)
    requires IsGRun(c, states, steps) && MadeCall(steps, i, k, j, call)
    requires r <= k && KeptSince(c, states, i, r, j)
    ensures Stands(c, states, steps, i, k, j, call)
  {
    CallFirst(c, states, steps, i, k, call);
    forall b | k < b < j ensures KeepsStanding(c, states, steps, i, k, b, call) {
      SoundAt(c, states, steps, i, r, b);
      CallNext(c, states, steps, i, k, b, call);
    }
    StandingRun(c, states, steps, i, k, j, call);
  }

  // ------------------------------------------------------------- the results

  /** The handle waits for the application. */
  predicate Returned(e: Entry) {
    e.popper.CIdle? || e.popper.Peeked?
  }

  /** Apart from what the handle knows of head, and where it stands, the entry is as it was. */
  predicate Unmoved(e0: Entry, e: Entry) {
    e == e0.(popper := e.popper, seen := e.seen)
  }

  /** Entry i's handle loads head at step m of a call made at step k, not before an older load of its own. */
  ghost predicate LoadOf(states: seq<GState>, steps: seq<GStep>, i: nat, k: nat, j: nat, m: int) {
    && k < m < j <= |steps| && j < |states| && LoadsHead(steps[m], i)
    && i < |states[k].entries| && i < |states[m].entries|
    && states[k].entries[i].seen <= steps[m].k.v <= states[m].base.head
    && states[m].entries[i].tail == states[k].entries[i].tail <= states[m].base.head
  }

  lemma LoadFound(c: Config, states: seq<GState>, steps: seq<GStep>, i: nat, r: nat, k: nat, j: nat, call: Q.Call, m: int)
    requires IsGRun(c, states, steps) && MadeCall(steps, i, k, j, call) && r <= k && KeptSince(c, states, i, r, j)
    requires k < m < j && LoadsHead(steps[m], i)
    ensures LoadOf(states, steps, i, k, j, m)
  {
    CallStands(c, states, steps, i, r, k, m, call);
    SoundAt(c, states, steps, i, r, m);
    assert GFollows(c, states[m], steps[m], states[m + 1]);
    AtLoad(c, states[m].base, call, states[k].entries[i], Value(steps, i, LoadIn(steps, i, k, m)),
           states[m].entries[i], steps[m].k.v, Replies(c, states, steps, i, k, m));
  }

  lemma AtLoad(c: Config, base: State, call: Q.Call, e0: Entry, w: int, e: Entry, v: nat, said: seq<Event>)
    requires Sound(c, base, e) && HandleEnabled(c, base, e, LoadSeenHead(v))
    requires AlwaysInOrder(base.published, call, e0, w, e, said)
    ensures e0.seen <= v <= base.head && e.tail == e0.tail <= base.head
  {
    assert InOrder(base.published, call, e0, w, e, said);
  }

  /**
    What every pop of a handle that is not overrun returns, and that it returns it
    once. It is decided by the one head v that the call loads: EMPTY when v is not
    beyond the tail t, else the message at t, or TOOBIG with its length. Only a
    delivery moves the tail, by one.
   */
  lemma PopOutcome(c: Config, states: seq<GState>, steps: seq<GStep>, i: nat, r: nat, k: nat, j: nat, room: nat) returns (m: int)
    requires IsGRun(c, states, steps) && MadeCall(steps, i, k, j, Q.Pop(room)) && r <= k && KeptSince(c, states, i, r, j)
    ensures i < |states[k].entries| && i < |states[j].entries|
    ensures var e0, e, said := states[k].entries[i], states[j].entries[i], Replies(c, states, steps, i, k, j);
      && (!Returned(e) ==> said == [] && Unmoved(e0, e))
      && (Returned(e) ==>
            && LoadOf(states, steps, i, k, j, m) && e.popper.CIdle?
            && var t, v, p := e0.tail, steps[m].k.v, states[j].base.published;
            && (v <= t ==> said == [Event(Q.Pop(room), Q.Fail(Q.Empty))] && Unmoved(e0, e))
            && (v > t ==>
                  && t < |p|
                  && (|Wire(p[t])| > room ==>
                        said == [Event(Q.Pop(room), Q.Answer(Q.TooBig, |Wire(p[t])|, []))] && Unmoved(e0, e))
                  && (|Wire(p[t])| <= room ==>
                        && said == [Event(Q.Pop(room), Q.Answer(Q.Ok, |Wire(p[t])|, Wire(p[t])))]
                        && e.tail == t + 1 && e.delivered == e0.delivered + [Wire(p[t])])))
  {
    CallStands(c, states, steps, i, r, k, j, Q.Pop(room));
    m := LoadIn(steps, i, k, j);
    var p := states[j].base.published;
    assert InOrder(p, Q.Pop(room), states[k].entries[i], Value(steps, i, m), states[j].entries[i],
                   Replies(c, states, steps, i, k, j));
    if Returned(states[j].entries[i]) { LoadFound(c, states, steps, i, r, k, j, Q.Pop(room), m); }
  }

  /** The same for peek, which shows the message in place and moves nothing. */
  lemma PeekOutcome(c: Config, states: seq<GState>, steps: seq<GStep>, i: nat, r: nat, k: nat, j: nat) returns (m: int)
    requires IsGRun(c, states, steps) && MadeCall(steps, i, k, j, Q.Peek) && r <= k && KeptSince(c, states, i, r, j)
    ensures i < |states[k].entries| && i < |states[j].entries|
    ensures var e0, e, said := states[k].entries[i], states[j].entries[i], Replies(c, states, steps, i, k, j);
      && Unmoved(e0, e) && (!Returned(e) ==> said == [])
      && (Returned(e) ==>
            && LoadOf(states, steps, i, k, j, m)
            && var t, v, p := e0.tail, steps[m].k.v, states[j].base.published;
            && (v <= t ==> said == [Event(Q.Peek, Q.Fail(Q.Empty))] && e.popper.CIdle?)
            && (v > t ==>
                  && t < |p| && e.popper == Peeked(t, |Wire(p[t])|)
                  && said == [Event(Q.Peek, Q.Answer(Q.Ok, |Wire(p[t])|, Wire(p[t])))]))
  {
    CallStands(c, states, steps, i, r, k, j, Q.Peek);
    m := LoadIn(steps, i, k, j);
    assert InOrder(states[j].base.published, Q.Peek, states[k].entries[i], Value(steps, i, m), states[j].entries[i],
                   Replies(c, states, steps, i, k, j));
    if Returned(states[j].entries[i]) { LoadFound(c, states, steps, i, r, k, j, Q.Peek, m); }
  }

  /** A release takes exactly the message that the peek before it showed. */
  lemma ReleaseOutcome(c: Config, states: seq<GState>, steps: seq<GStep>, i: nat, r: nat, k: nat, j: nat)
    requires IsGRun(c, states, steps) && MadeCall(steps, i, k, j, Q.Release) && r <= k && KeptSince(c, states, i, r, j)
    ensures i < |states[k].entries| && i < |states[j].entries|
    ensures var e0, e, said, p := states[k].entries[i], states[j].entries[i], Replies(c, states, steps, i, k, j), states[j].base.published;
      && (!Returned(e) ==> said == [] && Unmoved(e0, e))
      && (Returned(e) ==>
            && said == [Event(Q.Release, Q.OK)] && e.popper.CIdle? && e0.tail < |p|
            && e.tail == e0.tail + 1 && e.delivered == e0.delivered + [Wire(p[e0.tail])])
  {
    CallStands(c, states, steps, i, r, k, j, Q.Release);
    assert InOrder(states[j].base.published, Q.Release, states[k].entries[i], Value(steps, i, LoadIn(steps, i, k, j)),
                   states[j].entries[i], Replies(c, states, steps, i, k, j));
  }

  /** Group i has read everything that is published. */
  predicate CaughtUp(g: GState, i: nat) {
    i < |g.entries| && g.entries[i].tail == g.base.head
  }

  lemma OnlyThisLoad(c: Config, states: seq<GState>, steps: seq<GStep>, i: nat, k: nat, b: nat, call: Q.Call, m: int)
    requires Stands(c, states, steps, i, k, b, call) && k < m < |steps| && LoadsHead(steps[m], i)
    requires forall x :: k < x < b && LoadsHead(steps[x], i) ==> x == m
    ensures Value(steps, i, LoadIn(steps, i, k, b)) == (if m < b then steps[m].k.v else -1)
  {
  }

  /** A call that has loaded no head beyond the tail has not moved it. */
  lemma NothingTaken(published: seq<Bytes>, call: Q.Call, e0: Entry, v: int, e: Entry, said: seq<Event>)
    requires InOrder(published, call, e0, v, e, said) && v <= e0.tail
    ensures v >= 0 ==> !call.Release?
    ensures !call.Release? ==> e.tail == e0.tail
  {
  }

  /** While a call that loads a head not beyond the tail goes on, the tail stays. */
  lemma EmptyStays(
      c: Config, states: seq<GState>, steps: seq<GStep>, i: nat, r: nat, k: nat, b: nat, j: nat, call: Q.Call, m: int)
    requires IsGRun(c, states, steps) && MadeCall(steps, i, k, j, call) && r <= k && KeptSince(c, states, i, r, j)
    requires LoadOf(states, steps, i, k, j, m) && steps[m].k.v <= states[k].entries[i].tail && k < b <= j
    ensures i < |states[b].entries| && states[b].entries[i].tail == states[k].entries[i].tail
  {
    var e0, v := states[k].entries[i], Value(steps, i, LoadIn(steps, i, k, b));
    CallStands(c, states, steps, i, r, k, j, call);
    OnlyThisLoad(c, states, steps, i, k, j, call, m);
    NothingTaken(states[j].base.published, call, e0, steps[m].k.v, states[j].entries[i], Replies(c, states, steps, i, k, j));
    CallStands(c, states, steps, i, r, k, b, call);
    OnlyThisLoad(c, states, steps, i, k, b, call, m);
    NothingTaken(states[b].base.published, call, e0, v, states[b].entries[i], Replies(c, states, steps, i, k, b));
  }

  lemma BeforeTheCall(c: Config, states: seq<GState>, steps: seq<GStep>, i: nat, r: nat, k: nat, j: nat, call: Q.Call)
    requires IsGRun(c, states, steps) && MadeCall(steps, i, k, j, call) && r <= k && KeptSince(c, states, i, r, j)
    ensures i < |states[k].entries|
    ensures states[k].entries[i].tail <= states[k].entries[i].seen <= states[k].base.head == states[k + 1].base.head
  {
    assert GFollows(c, states[k], steps[k], states[k + 1]);
    SoundAt(c, states, steps, i, r, k);
  }

  /**
    When EMPTY is true of its call. With a fresh load of head, the answer is EMPTY
    exactly when the group has read everything at that moment. With any load, a
    group whose call answers EMPTY has read everything at some moment of the call
    exactly when the loaded head was still current when the call began.
   */
  lemma GroupEmptyInTime(
      c: Config, states: seq<GState>, steps: seq<GStep>, i: nat, r: nat, k: nat, j: nat, call: Q.Call, m: int)
    requires IsGRun(c, states, steps) && MadeCall(steps, i, k, j, call) && r <= k && KeptSince(c, states, i, r, j)
    requires LoadOf(states, steps, i, k, j, m)
    ensures var t, v := states[k].entries[i].tail, steps[m].k.v;
      && (v == states[m].base.head ==> (v <= t <==> CaughtUp(states[m], i)))
      && (v <= t ==> ((exists b :: k < b <= j && CaughtUp(states[b], i)) <==> states[k].base.head == v))
  {
    var t, v := states[k].entries[i].tail, steps[m].k.v;
    BeforeTheCall(c, states, steps, i, r, k, j, call);
    if v <= t {
      EmptyStays(c, states, steps, i, r, k, k + 1, j, call, m);
      assert states[k].base.head == v ==> CaughtUp(states[k + 1], i);
      forall b | k < b <= j && CaughtUp(states[b], i) ensures states[k].base.head == v {
        EmptyStays(c, states, steps, i, r, k, b, j, call, m);
        GRunExtends(c, states, steps, k, b);
      }
    }
  }
}

/**
  Progress of consumer groups: whatever everybody else does, a pop by a group's
  handle and a create or resume finish within a fixed number of their own steps.
 */
module GroupsProgress {
  import opened Layout
  import opened Spsc
  import opened SpscProgress
  import opened Groups
  import opened GroupsInvariant

  // ---------------------------------------------------------------- handles

  /** Steps of entry i's handle inside a call. */
  predicate HandleInside(e: GStep, i: nat) {
    e.Handle? && e.i == i && InsidePop(e.k)
  }

  /** The handle of entry i starts a new call. */
  predicate HandleCalls(e: GStep, i: nat) {
    e.Handle? && e.i == i && !InsidePop(e.k)
  }

  lemma HandleAdvancesOrStays(c: Config, g: GState, e: GStep, i: nat)
    requires GShape(c, g) && GEnabled(c, g, e) && i < |g.entries| && !HandleCalls(e, i)
    ensures var g' := GApply(c, g, e);
      && i < |g'.entries|
      && ConsumerRank(c, g'.entries[i].popper) + (if HandleInside(e, i) then 1 else 0)
         <= ConsumerRank(c, g.entries[i].popper)
  {
    if HandleInside(e, i) {
      ViewShape(c, g.base, g.entries[i]);
      ConsumerAdvances(c, View(g.base, g.entries[i]), e.k);
    }
  }

  /** Step k brings the handle of entry i closer to its answer if it is its own, and never further away. */
  ghost predicate HandleMoves(c: Config, states: seq<GState>, steps: seq<GStep>, i: nat, k: nat) {
    && k < |steps| && k + 1 < |states| && i < |states[k].entries| && i < |states[k + 1].entries|
    && ConsumerRank(c, states[k + 1].entries[i].popper) + (if HandleInside(steps[k], i) then 1 else 0)
       <= ConsumerRank(c, states[k].entries[i].popper)
  }

  lemma HandleMoment(c: Config, states: seq<GState>, steps: seq<GStep>, i: nat, k: nat)
    requires IsGRun(c, states, steps) && k < |steps| && i < MAX_CONSUMERS
    requires !HandleCalls(steps[k], i)
    ensures HandleMoves(c, states, steps, i, k)
  {
    assert GFollows(c, states[k], steps[k], states[k + 1]);
    HandleAdvancesOrStays(c, states[k], steps[k], i);
  }

  function HandleSteps(steps: seq<GStep>, i: nat, a: nat, b: nat): nat
    requires a <= b <= |steps|
    decreases b
  {
    if a == b then 0 else HandleSteps(steps, i, a, b - 1) + (if HandleInside(steps[b - 1], i) then 1 else 0)
  }

  lemma {:induction false} HandleStepsBounded(c: Config, states: seq<GState>, steps: seq<GStep>, i: nat, a: nat, b: nat)
    requires a < b <= |steps| && forall k :: a <= k < b ==> HandleMoves(c, states, steps, i, k)
    ensures HandleMoves(c, states, steps, i, a) && HandleMoves(c, states, steps, i, b - 1)
    ensures HandleSteps(steps, i, a, b) + ConsumerRank(c, states[b].entries[i].popper)
         <= ConsumerRank(c, states[a].entries[i].popper)
    decreases b
  {
    assert HandleMoves(c, states, steps, i, b - 1);
    if a + 1 < b { HandleStepsBounded(c, states, steps, i, a, b - 1); }
    assert HandleSteps(steps, i, a, a) == 0;
  }

  lemma RankBound(c: Config, k: Consumer)
    requires ConsumerShape(c, k)
    ensures ConsumerRank(c, k) <= c.maxPayload + 6
  {
  }

  /** No call of a group's handle takes more than maxPayload + 6 steps of its own. */
  lemma GroupPopIsWaitFree(c: Config, states: seq<GState>, steps: seq<GStep>, i: nat, a: nat, b: nat)
    requires IsGRun(c, states, steps) && a <= b <= |steps| && i < MAX_CONSUMERS
    requires forall k :: a <= k < b ==> !HandleCalls(steps[k], i)
    ensures HandleSteps(steps, i, a, b) <= c.maxPayload + 6
  {
    if a < b {
      forall k | a <= k < b ensures HandleMoves(c, states, steps, i, k) {
        HandleMoment(c, states, steps, i, k);
      }
      HandleStepsBounded(c, states, steps, i, a, b);
      assert GFollows(c, states[a], steps[a], states[a + 1]);
      RankBound(c, states[a].entries[i].popper);
    }
  }

  /** A handle's call that has not been answered can always take its next step. */
  lemma HandleCanStep(c: Config, states: seq<GState>, steps: seq<GStep>, n: nat, i: nat) returns (k: CStep)
    requires IsGRun(c, states, steps) && n < |states| && i < |states[n].entries| && states[n].entries[i].phase.Live?
    requires !states[n].entries[i].popper.CIdle? && !states[n].entries[i].popper.Peeked?
    ensures InsidePop(k) && GEnabled(c, states[n], Handle(i, k))
  {
    GRunInv(c, states, steps, n);
    var g := states[n];
    assert EntryInv(g.base, g.entries[i], false) && EntryShape(c, g.entries[i]);
    match g.entries[i].popper
    case Asked(_) => k := LoadOwnTail;
    case HasOwn(_, _) => k := LoadSeenHead(g.base.head);
    case HasSeen(_, _, _) => k := CheckEmpty;
    case AtHeader(_, _) => k := ReadLength;
    case Draining(_, _, n, got) => k := if |got| < n then ReadByte else EndRead;
    case Consume(_, _, _) => k := StoreTail;
    case Releasing(_) => k := ReleaseLoad;
    case Release(_, _) => k := ReleaseStore;
  }

  // --------------------------------------------------------------- creators

  /** Steps a resume may need after the create part: 16 entries to join, a load and a store. */
  function JoinPart(want: Want): nat {
    if want.Resume? then MAX_CONSUMERS + 2 else 0
  }

  /** Steps a create or resume still has to take. */
  function CreatorRank(m: Creator): nat {
    match m
    case Scanning(i, _, want) => (if i < MAX_CONSUMERS then MAX_CONSUMERS - i else 0) + 4 + JoinPart(want)
    case Won(_, _, want) => 4 + JoinPart(want)
    case Named(_, _, want) => 3 + JoinPart(want)
    case Loaded(_, _, want, _) => 2 + JoinPart(want)
    case Stored(_, _, want, _) => 1 + JoinPart(want)
    case Joining(i, _, _) => (if i < MAX_CONSUMERS then MAX_CONSUMERS - i else 0) + 2
    case Restoring(_, _, _, _) => 2
    case HasRestoreHead(_, _, _, _) => 1
    case _ => 0
  }

  /** This step belongs to call n. */
  predicate StepOf(e: GStep, n: nat) {
    CreatorStep(e) && e.c == n
  }

  lemma CreatorAdvances(c: Config, g: GState, e: GStep, n: nat)
    requires GShape(c, g) && GEnabled(c, g, e) && n < |g.creators|
    ensures var g' := GApply(c, g, e);
      && n < |g'.creators|
      && CreatorRank(g'.creators[n]) + (if StepOf(e, n) then 1 else 0) <= CreatorRank(g.creators[n])
  {
  }

  ghost predicate CreatorMoves(states: seq<GState>, steps: seq<GStep>, n: nat, k: nat) {
    && k < |steps| && k + 1 < |states| && n < |states[k].creators| && n < |states[k + 1].creators|
    && CreatorRank(states[k + 1].creators[n]) + (if StepOf(steps[k], n) then 1 else 0)
       <= CreatorRank(states[k].creators[n])
  }

  lemma CreatorMoment(c: Config, states: seq<GState>, steps: seq<GStep>, n: nat, k: nat)
    requires IsGRun(c, states, steps) && k < |steps| && n < |states[k].creators|
    ensures CreatorMoves(states, steps, n, k)
  {
    assert GFollows(c, states[k], steps[k], states[k + 1]);
    CreatorAdvances(c, states[k], steps[k], n);
  }

  ghost predicate NoneRemoved(states: seq<GState>, k: nat) {
    k + 1 < |states| && |states[k].creators| <= |states[k + 1].creators|
  }

  lemma CallsAreKept(c: Config, states: seq<GState>, steps: seq<GStep>, k: nat)
    requires IsGRun(c, states, steps) && k < |steps|
    ensures NoneRemoved(states, k)
  {
    assert GFollows(c, states[k], steps[k], states[k + 1]);
  }

  lemma {:induction false} CreatorStays(states: seq<GState>, n: nat, a: nat, k: nat)
    requires a <= k < |states| && n < |states[a].creators|
    requires forall m :: a <= m < k ==> NoneRemoved(states, m)
    ensures n < |states[k].creators|
    decreases k
  {
    if a < k {
      CreatorStays(states, n, a, k - 1);
      assert NoneRemoved(states, k - 1);
    }
  }

  function CreatorSteps(steps: seq<GStep>, n: nat, a: nat, b: nat): nat
    requires a <= b <= |steps|
    decreases b
  {
    if a == b then 0 else CreatorSteps(steps, n, a, b - 1) + (if StepOf(steps[b - 1], n) then 1 else 0)
  }

  lemma {:induction false} CreatorStepsBounded(states: seq<GState>, steps: seq<GStep>, n: nat, a: nat, b: nat)
    requires a < b <= |steps| && forall k :: a <= k < b ==> CreatorMoves(states, steps, n, k)
    ensures CreatorMoves(states, steps, n, a) && CreatorMoves(states, steps, n, b - 1)
    ensures CreatorSteps(steps, n, a, b) + CreatorRank(states[b].creators[n]) <= CreatorRank(states[a].creators[n])
    decreases b
  {
    assert CreatorMoves(states, steps, n, b - 1);
    if a + 1 < b { CreatorStepsBounded(states, steps, n, a, b - 1); }
    assert CreatorSteps(steps, n, a, a) == 0;
  }

  lemma CreatorRankAtCall(c: Config, states: seq<GState>, steps: seq<GStep>, k: nat)
    requires IsGRun(c, states, steps) && k < |steps| && steps[k].New?
    ensures var n := |states[k].creators|;
      n < |states[k + 1].creators|
      && CreatorRank(states[k + 1].creators[n]) == (if steps[k].want.Resume? then 38 else 20)
  {
    assert GFollows(c, states[k], steps[k], states[k + 1]);
  }

  /** A create takes at most 20 steps of its own and a resume at most 38, spurious failures included. */
  lemma CreateIsWaitFree(c: Config, states: seq<GState>, steps: seq<GStep>, k: nat, b: nat)
    requires IsGRun(c, states, steps) && k < b <= |steps| && steps[k].New?
    ensures CreatorSteps(steps, |states[k].creators|, k + 1, b) <= (if steps[k].want.Resume? then 38 else 20)
  {
    var n := |states[k].creators|;
    CreatorRankAtCall(c, states, steps, k);
    if k + 1 < b {
      forall m | k + 1 <= m < b ensures NoneRemoved(states, m) {
        CallsAreKept(c, states, steps, m);
      }
      forall m | k + 1 <= m < b ensures CreatorMoves(states, steps, n, m) {
        CreatorStays(states, n, k + 1, m);
        CreatorMoment(c, states, steps, n, m);
      }
      CreatorStepsBounded(states, steps, n, k + 1, b);
    }
  }

  /** A call that has not ended can always take its next step. */
  lemma CreatorCanStep(c: Config, g: GState, n: nat) returns (e: GStep)
    requires GInv(c, g, {}) && n < |g.creators|
    requires var m := g.creators[n]; !m.Ready? && !m.Resumed? && !m.Failed?
    ensures GEnabled(c, g, e) && StepOf(e, n)
  {
    assert CreatorInv(g.base.head, g.entries, n, g.creators[n]);
    match g.creators[n]
    case Scanning(_, _, _) => e := Cas(n, false);
    case Won(_, _, _) => e := Name(n);
    case Named(_, _, _) => e := LoadStart(n, g.base.head);
    case Loaded(_, _, _, _) => e := StoreStart(n);
    case Stored(_, _, _, _) => e := Allocate(n, true);
    case Joining(i, _, _) => e := Join(n, g.entries[i].phase.Dead?);
    case Restoring(_, _, _, _) => e := RestoreLoad(n, g.base.head);
    case HasRestoreHead(_, _, _, _) => e := RestoreStore(n);
  }
}

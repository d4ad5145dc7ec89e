/**
  What the scan of nabd_min_tail answers while everybody else goes on: the least of
  the tails that it loads, one look at every entry, within a fixed number of steps.
 */
module GroupsScan {
  import opened Words
  import opened Layout
  import opened Spsc
  import opened Groups
  import opened GroupsInvariant

  /** The step is the scan's last look at entry j: found inactive, or its tail is loaded. */
  predicate Examines(g: GState, e: GStep, j: nat) {
    || (e == ScanActive(false) && g.scan.SAt? && g.scan.i == j)
    || (e.ScanTail? && g.scan.STail? && g.scan.i == j)
  }

  /** A scan starts at step a, and no other up to moment b. */
  ghost predicate OneScan(states: seq<GState>, steps: seq<GStep>, a: nat, b: nat) {
    && a < b <= |steps| < |states| && steps[a].ScanStart?
    && forall x :: a < x < b ==> !steps[x].ScanStart?
  }

  ghost predicate Examined(states: seq<GState>, steps: seq<GStep>, a: nat, b: nat, j: nat) {
    exists x :: a < x < b && x < |steps| && x < |states| && Examines(states[x], steps[x], j)
  }

  /** min is the least of UINT64_MAX and the tails loaded in (a, b). */
  ghost predicate LeastLoad(steps: seq<GStep>, a: nat, b: nat, min: nat)
    requires b <= |steps|
  {
    && min <= UINT64_MAX
    && (min < UINT64_MAX ==> exists x :: a < x < b && steps[x] == ScanTail(min))
    && forall x :: a < x < b && steps[x].ScanTail? ==> min <= steps[x].v
  }

  /** The answer: the least load, or the ring's tail when no load is below UINT64_MAX. */
  ghost predicate Answer(steps: seq<GStep>, a: nat, b: nat, r: nat)
    requires b <= |steps|
  {
    || (r < UINT64_MAX && LeastLoad(steps, a, b, r))
    || (LeastLoad(steps, a, b, UINT64_MAX) && exists x :: a < x < b && steps[x] == ScanEnd(r))
  }

  ghost predicate ScanStands(states: seq<GState>, steps: seq<GStep>, a: nat, b: nat)
    requires OneScan(states, steps, a, b)
  {
    match states[b].scan
    case SIdle => false
    case SAt(i, min) => LeastLoad(steps, a, b, min) && AllExamined(states, steps, a, b, i)
    case STail(i, min) => LeastLoad(steps, a, b, min) && AllExamined(states, steps, a, b, i)
    case SDone(r) => Answer(steps, a, b, r) && AllExamined(states, steps, a, b, MAX_CONSUMERS)
  }

  /** The first n entries have been examined. */
  ghost predicate AllExamined(states: seq<GState>, steps: seq<GStep>, a: nat, b: nat, n: nat) {
    forall j :: 0 <= j < n ==> Examined(states, steps, a, b, j)
  }

  lemma ExaminedNoted(states: seq<GState>, steps: seq<GStep>, a: nat, b: nat, n: nat)
    requires a < b < |steps| && b < |states| && AllExamined(states, steps, a, b, n)
    ensures AllExamined(states, steps, a, b + 1, n)
    ensures Examines(states[b], steps[b], n) ==> AllExamined(states, steps, a, b + 1, n + 1)
  {
    var b' := b + 1;
    forall j | 0 <= j < n ensures Examined(states, steps, a, b', j) {
      assert Examined(states, steps, a, b, j);
      var x :| a < x < b && x < |steps| && x < |states| && Examines(states[x], steps[x], j);
      assert Examines(states[x], steps[x], j);
    }
    assert Examines(states[b], steps[b], n) ==> Examined(states, steps, a, b', n);
  }

  /** One more step of the run, and what it loads. */
  lemma LoadNoted(steps: seq<GStep>, a: nat, b: nat, min: nat)
    requires a < b < |steps| && LeastLoad(steps, a, b, min)
    ensures !steps[b].ScanTail? ==> LeastLoad(steps, a, b + 1, min)
    ensures steps[b].ScanTail? ==> LeastLoad(steps, a, b + 1, if steps[b].v < min then steps[b].v else min)
  {
    if min < UINT64_MAX {
      var x :| a < x < b && steps[x] == ScanTail(min);
      assert a < x < b + 1 && steps[x] == ScanTail(min);
    }
    if steps[b].ScanTail? && steps[b].v < min { assert steps[b] == ScanTail(steps[b].v); }
  }

  lemma AnswerStays(steps: seq<GStep>, a: nat, b: nat, r: nat)
    requires a < b < |steps| && Answer(steps, a, b, r) && !steps[b].ScanTail?
    ensures Answer(steps, a, b + 1, r)
  {
    if r < UINT64_MAX && LeastLoad(steps, a, b, r) {
      LoadNoted(steps, a, b, r);
    } else {
      LoadNoted(steps, a, b, UINT64_MAX);
      var x :| a < x < b && steps[x] == ScanEnd(r);
      assert a < x < b + 1 && steps[x] == ScanEnd(r);
    }
  }

  lemma ScanNext(c: Config, states: seq<GState>, steps: seq<GStep>, a: nat, b: nat)
    requires IsGRun(c, states, steps) && OneScan(states, steps, a, b) && OneScan(states, steps, a, b + 1)
    requires ScanStands(states, steps, a, b)
    ensures ScanStands(states, steps, a, b + 1)
  {
    assert GFollows(c, states[b], steps[b], states[b + 1]);
    var s := states[b].scan;
    if s.SDone? {
      AnswerStays(steps, a, b, s.result);
      ExaminedNoted(states, steps, a, b, MAX_CONSUMERS);
    } else {
      ExaminedNoted(states, steps, a, b, s.i);
      LoadNoted(steps, a, b, s.min);
      assert steps[b].ScanEnd? ==> steps[b] == ScanEnd(steps[b].v);
    }
  }

  lemma {:induction false} ScanRun(c: Config, states: seq<GState>, steps: seq<GStep>, a: nat, b: nat)
    requires IsGRun(c, states, steps) && OneScan(states, steps, a, b)
    ensures ScanStands(states, steps, a, b)
    decreases b
  {
    if b == a + 1 {
      assert GFollows(c, states[a], steps[a], states[b]);
    } else {
      ScanRun(c, states, steps, a, b - 1);
      ScanNext(c, states, steps, a, b - 1);
    }
  }

  /**
    A scan that starts at step a and has its answer at moment b, whatever happens
    meanwhile: it has looked at each of the 16 entries, its answer is at most every
    tail it loaded, and it is one of them, or the ring's tail when none is below
    UINT64_MAX.
   */
  lemma ScanAnswer(c: Config, states: seq<GState>, steps: seq<GStep>, a: nat, b: nat)
    requires IsGRun(c, states, steps) && OneScan(states, steps, a, b) && states[b].scan.SDone?
    ensures forall j :: 0 <= j < MAX_CONSUMERS ==> Examined(states, steps, a, b, j)
    ensures var r := states[b].scan.result;
      || ((forall x :: a < x < b && steps[x].ScanTail? ==> r <= steps[x].v)
          && exists x :: a < x < b && steps[x] == ScanTail(r))
      || ((forall x :: a < x < b && steps[x].ScanTail? ==> UINT64_MAX <= steps[x].v)
          && exists x :: a < x < b && steps[x] == ScanEnd(r))
  {
    ScanRun(c, states, steps, a, b);
  }

  // ---------------------------------------------------------- how low it is

  /** The tails noted when the scan began are those of step a, and it watches only entries in use then. */
  ghost predicate Noted(states: seq<GState>, a: nat, x: nat) {
    && a < |states| && x < |states|
    && states[x].ringTail == states[a].base.tail
    && forall j :: j in states[x].watch ==>
         j < |states[a].entries| && Settled(states[a].entries[j])
         && j < |states[x].tails| && states[x].tails[j] == states[a].entries[j].tail
  }

  lemma {:induction false} NotesKept(c: Config, states: seq<GState>, steps: seq<GStep>, a: nat, x: nat)
    requires IsGRun(c, states, steps) && OneScan(states, steps, a, x)
    ensures Noted(states, a, x)
    decreases x
  {
    assert GFollows(c, states[x - 1], steps[x - 1], states[x]);
    if x > a + 1 {
      NotesKept(c, states, steps, a, x - 1);
      NotesStep(c, states[x - 1], steps[x - 1]);
    }
  }

  lemma NotesStep(c: Config, g: GState, e: GStep)
    requires GShape(c, g) && GEnabled(c, g, e) && !e.ScanStart?
    ensures var g' := GApply(c, g, e); g'.watch <= g.watch && g'.tails == g.tails && g'.ringTail == g.ringTail
  {
  }

  /**
    The answer is not too low either. If every entry that the scan saw active had
    been in use since before it began, then the answer is at least any bound that
    all their tails, and the ring's, had reached by then.
   */
  lemma MinTailIsTight(c: Config, states: seq<GState>, steps: seq<GStep>, a: nat, b: nat, low: nat)
    requires IsGRun(c, states, steps) && OneScan(states, steps, a, b) && states[b].scan.SDone?
    requires forall j :: 0 <= j < |states[a].entries| && Settled(states[a].entries[j]) ==> low <= states[a].entries[j].tail
    requires low <= states[a].base.tail
    requires forall x :: a < x < b && steps[x].ScanTail? ==> states[x].scan.STail? && states[x].scan.i in states[x].watch
    ensures low <= states[b].scan.result
  {
    ScanAnswer(c, states, steps, a, b);
    var r := states[b].scan.result;
    forall x | a < x < b && (steps[x] == ScanTail(r) || steps[x] == ScanEnd(r)) ensures low <= r {
      NotesKept(c, states, steps, a, x);
      assert GFollows(c, states[x], steps[x], states[x + 1]);
    }
  }

  // --------------------------------------------------------------- progress

  predicate ScanMove(e: GStep) {
    e.ScanActive? || e.ScanTail? || e.ScanEnd?
  }

  /** Steps the scan still has to take at most. */
  function ScanRank(s: Scan): int {
    match s
    case SIdle => 0
    case SAt(i, _) => 2 * (MAX_CONSUMERS - i) + 1
    case STail(i, _) => 2 * (MAX_CONSUMERS - i)
    case SDone(_) => 0
  }

  function ScanSteps(steps: seq<GStep>, a: nat, b: nat): nat
    requires a <= b <= |steps|
    decreases b
  {
    if a == b then 0 else ScanSteps(steps, a, b - 1) + (if ScanMove(steps[b - 1]) then 1 else 0)
  }

  lemma ScanAdvances(c: Config, g: GState, e: GStep)
    requires GShape(c, g) && GEnabled(c, g, e) && !e.ScanStart?
    ensures ScanRank(GApply(c, g, e).scan) + (if ScanMove(e) then 1 else 0) <= ScanRank(g.scan)
  {
  }

  lemma ScanStarts(c: Config, states: seq<GState>, steps: seq<GStep>, a: nat)
    requires IsGRun(c, states, steps) && a < |steps| && steps[a].ScanStart?
    ensures ScanRank(states[a + 1].scan) == 33
  {
    assert GFollows(c, states[a], steps[a], states[a + 1]);
  }

  /** Step x, if it is the scan's own, brings it closer to its answer, and never further away. */
  ghost predicate ScanMoves(states: seq<GState>, steps: seq<GStep>, x: nat) {
    && x < |steps| && x + 1 < |states|
    && ScanRank(states[x + 1].scan) + (if ScanMove(steps[x]) then 1 else 0) <= ScanRank(states[x].scan)
  }

  lemma ScanMoment(c: Config, states: seq<GState>, steps: seq<GStep>, x: nat)
    requires IsGRun(c, states, steps) && x < |steps| && !steps[x].ScanStart?
    ensures ScanMoves(states, steps, x)
  {
    assert GFollows(c, states[x], steps[x], states[x + 1]);
    ScanAdvances(c, states[x], steps[x]);
  }

  lemma {:induction false} ScanStepsBounded(states: seq<GState>, steps: seq<GStep>, a: nat, b: nat)
    requires a <= b <= |steps| < |states| && forall x :: a <= x < b ==> ScanMoves(states, steps, x)
    ensures ScanSteps(steps, a, b) + ScanRank(states[b].scan) <= ScanRank(states[a].scan)
    decreases b
  {
    if a < b {
      ScanStepsBounded(states, steps, a, b - 1);
      assert ScanMoves(states, steps, b - 1);
    }
  }

  /** A scan that has no answer yet can always take its next step. */
  lemma ScanCanStep(c: Config, states: seq<GState>, steps: seq<GStep>, b: nat) returns (e: GStep)
    requires IsGRun(c, states, steps) && b < |states| && (states[b].scan.SAt? || states[b].scan.STail?)
    ensures ScanMove(e) && GEnabled(c, states[b], e)
  {
    GRunInv(c, states, steps, b);
    var g := states[b];
    match g.scan
    case SAt(i, _) => e := if i == MAX_CONSUMERS then ScanEnd(g.base.tail) else ScanActive(true);
    case STail(i, _) =>
      e := ScanTail(if i in g.watch then g.entries[i].tail else 0);
      assert EntryInv(g.base, g.entries[i], false);
  }

  lemma RankIsNat(c: Config, states: seq<GState>, steps: seq<GStep>, b: nat)
    requires IsGRun(c, states, steps) && b < |states|
    ensures 0 <= ScanRank(states[b].scan)
  {
    GRunInv(c, states, steps, b);
  }

  /** Whatever others do, a scan takes at most 33 steps of its own. */
  lemma ScanIsWaitFree(c: Config, states: seq<GState>, steps: seq<GStep>, a: nat, b: nat)
    requires IsGRun(c, states, steps) && OneScan(states, steps, a, b)
    ensures ScanSteps(steps, a + 1, b) <= 33
  {
    ScanStarts(c, states, steps, a);
    forall x | a + 1 <= x < b ensures ScanMoves(states, steps, x) {
      ScanMoment(c, states, steps, x);
    }
    ScanStepsBounded(states, steps, a + 1, b);
    RankIsNat(c, states, steps, b);
  }
}

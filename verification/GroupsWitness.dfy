/**
  A concrete run showing that nabd_push does not wait for consumer groups: it
  looks at the ring's own tail only, and is admitted to a slot that a group in
  use has not read yet.
 */
module GroupsWitness {
  import opened Spsc
  import opened SpscRuns
  import opened SpscWitness
  import opened Groups
  import opened GroupsInvariant

  const FREE_ENTRY := Entry(false, 0, 0, Free, 0, 0, 0, 0, CIdle, [])
  const GSTART := GState(START, seq(16, i => FREE_ENTRY), [], 0, 0, SIdle, {}, [], 0)

  lemma GAppend(c: Config, states: seq<GState>, steps: seq<GStep>, e: GStep)
      returns (states': seq<GState>, steps': seq<GStep>, g': GState)
    requires IsGRun(c, states, steps)
    requires GShape(c, states[|steps|]) && GEnabled(c, states[|steps|], e)
    ensures IsGRun(c, states', steps') && states'[|steps'|] == g'
    ensures g' == GApply(c, states[|steps|], e) && GShape(c, g')
  {
    g' := GApply(c, states[|steps|], e);
    GShapeKept(c, states[|steps|], e);
    states', steps' := states + [g'], steps + [e];
    forall i | 0 <= i < |steps'|
      ensures GFollows(c, states'[i], steps'[i], states'[i + 1])
    {
      if i < |steps| { assert GFollows(c, states[i], steps[i], states[i + 1]); }
    }
  }

  /** A run of the ring can be replayed while the groups stand still. */
  lemma {:induction false} ReplayBase(
      c: Config, states: seq<GState>, steps: seq<GStep>, ring: seq<State>, moves: seq<Step>)
      returns (states': seq<GState>, steps': seq<GStep>)
    requires IsGRun(c, states, steps) && GShape(c, states[|steps|])
    requires IsRun(c, ring, moves) && states[|steps|].base == ring[0]
    ensures IsGRun(c, states', steps')
    ensures states'[|steps'|] == states[|steps|].(base := ring[|moves|])
    ensures GShape(c, states'[|steps'|])
    decreases |moves|
  {
    if moves == [] {
      states', steps' := states, steps;
    } else {
      var n := |moves| - 1;
      forall i | 0 <= i < n
        ensures Follows(c, ring[..n + 1][i], moves[..n][i], ring[..n + 1][i + 1])
      {
        assert Follows(c, ring[i], moves[i], ring[i + 1]);
      }
      states', steps' := ReplayBase(c, states, steps, ring[..n + 1], moves[..n]);
      assert Follows(c, ring[n], moves[n], ring[n + 1]);
      var g;
      states', steps', g := GAppend(c, states', steps', Base(moves[n]));
    }
  }

  lemma ClaimEntry() returns (r: seq<GState>, e: seq<GStep>, g: GState)
    ensures IsGRun(C2, r, e) && r[|e|] == g && GShape(C2, g)
    ensures g.base == START && g.creators == [Won(0, 0, Create(7))] && g.entries[0].active
  {
    r, e, g := [GSTART], [], GSTART;
    r, e, g := GAppend(C2, r, e, New(Create(7)));
    r, e, g := GAppend(C2, r, e, Cas(0, true));
  }

  lemma StartGroup() returns (r: seq<GState>, e: seq<GStep>, g: GState)
    ensures IsGRun(C2, r, e) && r[|e|] == g && GShape(C2, g)
    ensures g.base == START && g.creators == [Loaded(0, 0, Create(7), 0)] && g.entries[0].active
  {
    r, e, g := ClaimEntry();
    r, e, g := GAppend(C2, r, e, Name(0));
    r, e, g := GAppend(C2, r, e, LoadStart(0, 0));
  }

  /** A group is created at head 0. */
  lemma CreateGroup() returns (r: seq<GState>, e: seq<GStep>, g: GState)
    ensures IsGRun(C2, r, e) && r[|e|] == g && GShape(C2, g)
    ensures g.base == START && g.entries[0].phase.Live? && g.entries[0].active && g.entries[0].tail == 0
  {
    r, e, g := StartGroup();
    r, e, g := GAppend(C2, r, e, StoreStart(0));
    r, e, g := GAppend(C2, r, e, Allocate(0, true));
  }

  /** Two messages published, one popped, and a third push admitted. */
  lemma AdmitThird() returns (r: seq<State>, e: seq<Step>)
    ensures IsRun(C2, r, e) && r[|e|] == PUBLISHED_1.(prod := Copying([], 2, 0), seenTail := 1, callTail := 1)
    ensures r[0] == START
  {
    r, e := PublishSecond();
    var s := PUBLISHED_1;
    r, e, s := Take(FullQueue, r, e, s, P(CallPush(EMPTY_MESSAGE)));
    r, e, s := Take(FullQueue, r, e, s, P(LoadHead));
    r, e, s := Take(FullQueue, r, e, s, P(LoadTail(1)));
    r, e, s := Take(FullQueue, r, e, s, P(CheckFull));
  }

  /**
    An active group stands at position 0, unread, while the producer has been
    admitted to position 0's slot: the retention rule is not push's to keep.
   */
  lemma PushIgnoresGroups() returns (states: seq<GState>, steps: seq<GStep>)
    ensures IsGRun(C2, states, steps)
    ensures var g := states[|steps|];
      && GShape(C2, g) && g.entries[0].active && g.entries[0].phase.Live?
      && g.entries[0].tail == 0 < g.base.head
      && Writing(C2, g.base) == C2.SlotOf(g.entries[0].tail)
      && !Retained(C2, g, {0})
  {
    var r, e, g := CreateGroup();
    var ring, moves := AdmitThird();
    states, steps := ReplayBase(C2, r, e, ring, moves);
  }
}

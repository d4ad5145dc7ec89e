/**
  Theorems about whole runs with consumer groups: what each group receives,
  replay after a crash, claiming of entries, and the minimum-tail scan.
 */
module GroupsRuns {
  import opened Payload
  import opened Words
  import opened Layout
  import opened Spsc
  import opened SpscInvariant
  import opened SpscRuns
  import opened Groups
  import opened GroupsInvariant

  // ------------------------------------------------------------ group slices

  /** The documented rule for group i: the ring's own tail does not pass it while it is in use. */
  ghost predicate RingWaits(g: GState, i: nat) {
    i < |g.entries| && g.entries[i].phase.Live? ==> g.base.tail <= g.entries[i].tail
  }

  /** Entry i has no handle at work, or one that has just been handed out. */
  predicate AtStart(g: GState, i: nat) {
    i < |g.entries| && var e := g.entries[i];
    e.phase.Live? ==> e.start == e.tail && e.delivered == [] && e.popper.CIdle?
  }

  /** Since moment r, when its handle was not at work yet, group i has not been overrun. */
  ghost predicate KeptSince(c: Config, states: seq<GState>, i: nat, r: nat, n: nat) {
    r <= n < |states| && AtStart(states[r], i) && forall k :: r <= k < n ==> Retained(c, states[k], {i})
  }

  /** The handle that group i has at moment n was never overrun. */
  ghost predicate Kept(c: Config, states: seq<GState>, i: nat, n: nat) {
    exists r: nat :: KeptSince(c, states, i, r, n)
  }

  /** The documented rule, followed for one group from some start of its handle on, keeps
      every message that group has not read. */
  lemma RuleRetains(c: Config, states: seq<GState>, steps: seq<GStep>, i: nat, r: nat, n: nat)
    requires IsGRun(c, states, steps) && r <= n < |states| && AtStart(states[r], i)
    requires forall k :: r <= k < n ==> RingWaits(states[k], i)
    ensures Kept(c, states, i, n)
  {
    forall k | r <= k < n ensures Retained(c, states[k], {i}) {
      GRunInv(c, states, steps, k);
    }
    assert KeptSince(c, states, i, r, n);
  }

  /** A handle that is not at work yet has nothing to be wrong about. */
  lemma StartInv(c: Config, g: GState, i: nat)
    requires GInv(c, g, {}) && AtStart(g, i)
    ensures GInv(c, g, {i})
  {
    forall j | 0 <= j < |g.entries| ensures EntryInv(g.base, g.entries[j], j in {i}) {
      assert EntryInv(g.base, g.entries[j], false);
    }
  }

  /** As long as group i has not been overrun, what its handle has read and delivered is right. */
  lemma KeptInv(c: Config, states: seq<GState>, steps: seq<GStep>, i: nat, r: nat, n: nat)
    requires IsGRun(c, states, steps) && KeptSince(c, states, i, r, n)
    ensures GInv(c, states[n], {i})
  {
    GRunInv(c, states, steps, r);
    StartInv(c, states[r], i);
    GRunFrom(c, states, steps, r, n, {i});
  }

  /** What a live handle has delivered is the slice [start, tail), in order, once each. */
  ghost predicate GotItsSlice(g: GState, i: nat)
    requires i < |g.entries|
  {
    var e := g.entries[i];
    && e.start <= e.tail <= g.base.head
    && |e.delivered| == e.tail - e.start
    && Slice(g.base.published, e.start, e.delivered)
  }

  /**
    For any number of groups and any interleaving with pushes, pops, creates,
    crashes and resumes: a group whose handle was not overrun has received
    exactly the contiguous published messages from its start. What happens to
    the other groups, overrun or not, makes no difference.
   */
  lemma GroupDelivery(c: Config, states: seq<GState>, steps: seq<GStep>, n: nat, i: nat)
    requires IsGRun(c, states, steps) && Kept(c, states, i, n)
    requires i < |states[n].entries| && states[n].entries[i].phase.Live?
    ensures GotItsSlice(states[n], i)
  {
    var r: nat :| KeptSince(c, states, i, r, n);
    KeptInv(c, states, steps, i, r, n);
    assert EntryInv(states[n].base, states[n].entries[i], true);
  }

  /** The slot of an overrun position carries a later message, unless it is being refilled right now. */
  lemma OverrunServesNewer(c: Config, s: State, t: nat) returns (p: nat)
    requires Inv(c, s) && t < Oldest(c.capacity, s)
    requires Filling(s.prod) ==> t % c.capacity != s.head % c.capacity
    ensures t < p < s.head && p % c.capacity == t % c.capacity
    ensures SlotHas(c.capacity, s, p)
  {
    p := LastInClass(t, s.head, c.capacity);
  }

  /** The last position before head that shares a slot with t. */
  lemma LastInClass(t: nat, head: nat, cap: nat) returns (p: nat)
    requires cap > 0 && t < head
    ensures t <= p && head - cap <= p < head && p % cap == t % cap
    ensures p == head - cap ==> p % cap == head % cap
  {
    var q, r := (head - 1 - t) / cap, (head - 1 - t) % cap;
    assert head - 1 - t == q * cap + r;
    p := head - 1 - r;
    SharesSlot(t, q, cap);
    SharesSlot(p, 1, cap);
    assert q < 0 ==> q * cap <= 0 - cap;
  }

  lemma SharesSlot(t: nat, q: nat, cap: nat)
    requires cap > 0
    ensures (t + q * cap) % cap == t % cap
  {
    assert t == (t / cap) * cap + t % cap;
    assert t + q * cap == (t / cap + q) * cap + t % cap;
    DivModUnique(t + q * cap, cap, t / cap + q, t % cap);
  }

  /** The slot of position t carries t's record, and the producer may not be storing to it. */
  ghost predicate Safe(c: Config, s: State, t: nat)
    requires Shape(c, s) && c.arith.Unbounded?
  {
    SlotHas(c.capacity, s, t) && Writing(c, s) != t % c.capacity
  }

  /**
    Retention is exact. A position in the window is safe in its slot, however far
    head has moved and whatever the producer is doing. Conversely the slot of a
    position before the window is being refilled or no longer carries its record,
    within the range the 32-bit sequence number can tell apart.
   */
  lemma RetentionExact(c: Config, s: State, t: nat)
    requires Inv(c, s) && t < s.head
    ensures Oldest(c.capacity, s) <= t ==> Safe(c, s, t)
    ensures s.head < t + TWO32 ==> (Safe(c, s, t) <==> Oldest(c.capacity, s) <= t)
  {
    if Oldest(c.capacity, s) <= t {
      if Filling(s.prod) { ModDistinct(t, s.head, c.capacity); }
    } else if s.head < t + TWO32 && (Filling(s.prod) ==> t % c.capacity != s.head % c.capacity) {
      var p := OverrunServesNewer(c, s, t);
      ModDistinct(t, p, TWO32);
    }
  }

  // ------------------------------------------------------------ crash replay

  /** The ring has not lost anything published from moment j to the next. */
  ghost predicate Grows(states: seq<GState>, j: nat) {
    && j + 1 < |states|
    && states[j].base.published <= states[j + 1].base.published && states[j].base.head <= states[j + 1].base.head
  }

  lemma BaseGrows(c: Config, states: seq<GState>, steps: seq<GStep>, j: nat)
    requires IsGRun(c, states, steps) && j < |steps|
    ensures Grows(states, j)
  {
    GRunInv(c, states, steps, j);
    BasePrefix(c, states, steps, j);
  }

  lemma {:induction false} GrowsFrom(states: seq<GState>, a: nat, b: nat)
    requires a <= b < |states| && forall j :: a <= j < b ==> Grows(states, j)
    ensures states[a].base.published <= states[b].base.published
    ensures states[a].base.head <= states[b].base.head
    decreases b
  {
    if a < b {
      GrowsFrom(states, a, b - 1);
      assert Grows(states, b - 1);
    }
  }

  lemma GRunExtends(c: Config, states: seq<GState>, steps: seq<GStep>, a: nat, b: nat)
    requires IsGRun(c, states, steps) && a <= b < |states|
    ensures states[a].base.published <= states[b].base.published
    ensures states[a].base.head <= states[b].base.head
  {
    forall j | a <= j < b ensures Grows(states, j) {
      BaseGrows(c, states, steps, j);
    }
    GrowsFrom(states, a, b);
  }

  lemma BasePrefix(c: Config, states: seq<GState>, steps: seq<GStep>, j: nat)
    requires IsGRun(c, states, steps) && j < |steps| && Inv(c, states[j].base)
    ensures states[j].base.published <= states[j + 1].base.published
    ensures states[j].base.head <= states[j + 1].base.head
  {
    assert GFollows(c, states[j], steps[j], states[j + 1]);
    if steps[j].Base? { StepExtends(c, states[j].base, steps[j].e); }
  }

  /** m is a resume that was asked for tail t when head was h0. */
  ghost predicate ResumeOf(m: Creator, t: nat, h0: nat) {
    match m
    case Scanning(_, began, want) => want.Resume? && want.t == t && began == h0
    case Won(_, began, want) => want.Resume? && want.t == t && began == h0
    case Named(_, began, want) => want.Resume? && want.t == t && began == h0
    case Loaded(_, began, want, _) => want.Resume? && want.t == t && began == h0
    case Stored(_, began, want, _) => want.Resume? && want.t == t && began == h0
    case Joining(_, began, want) => want.Resume? && want.t == t && began == h0
    case Restoring(_, began, t', _) => t' == t && began == h0
    case HasRestoreHead(_, t', v, _) => t' == t && h0 <= v
    case Resumed(_, t', at, _) => t' == t && (t <= h0 ==> at == t)
    case Ready(_, _, _) => false
    case Failed => true
  }

  lemma ResumeStep(c: Config, g: GState, e: GStep, n: nat, t: nat, h0: nat)
    requires GShape(c, g) && GEnabled(c, g, e) && n < |g.creators| && h0 <= g.base.head
    requires ResumeOf(g.creators[n], t, h0)
    ensures n < |GApply(c, g, e).creators| && ResumeOf(GApply(c, g, e).creators[n], t, h0)
  {
  }

  /** The n-th call is a resume that was asked for tail t when head was h0. */
  ghost predicate Resuming(g: GState, n: nat, t: nat, h0: nat) {
    n < |g.creators| && ResumeOf(g.creators[n], t, h0) && h0 <= g.base.head
  }

  lemma ResumeMoment(c: Config, states: seq<GState>, steps: seq<GStep>, m: nat, n: nat, t: nat, h0: nat)
    requires IsGRun(c, states, steps) && m < |steps| && Resuming(states[m], n, t, h0)
    ensures Resuming(states[m + 1], n, t, h0)
  {
    GRunInv(c, states, steps, m);
    BasePrefix(c, states, steps, m);
    assert GFollows(c, states[m], steps[m], states[m + 1]);
    ResumeStep(c, states[m], steps[m], n, t, h0);
  }

  lemma ResumeCalled(c: Config, states: seq<GState>, steps: seq<GStep>, k: nat, id: nat, t: nat)
    requires IsGRun(c, states, steps) && k < |steps| && steps[k] == New(Resume(id, t))
    ensures Resuming(states[k + 1], |states[k].creators|, t, states[k].base.head)
  {
    assert GFollows(c, states[k], steps[k], states[k + 1]);
  }

  /** A resume called at moment k is about the tail it was called with until it ends. */
  lemma {:induction false} ResumeRun(
      c: Config, states: seq<GState>, steps: seq<GStep>, k: nat, b: nat, id: nat, t: nat)
    requires IsGRun(c, states, steps) && k < b < |states| && steps[k] == New(Resume(id, t))
    ensures Resuming(states[b], |states[k].creators|, t, states[k].base.head)
    decreases b
  {
    if k + 1 == b {
      ResumeCalled(c, states, steps, k, id, t);
    } else {
      ResumeRun(c, states, steps, k, b - 1, id, t);
      ResumeMoment(c, states, steps, b - 1, |states[k].creators|, t, states[k].base.head);
    }
  }

  /** The call that handed out the handle of entry i, and where it started. */
  ghost predicate OpenedBy(g: GState, i: nat) {
    i < |g.entries| && g.entries[i].phase.Live? ==>
      var e := g.entries[i];
      && e.holder < |g.creators|
      && match g.creators[e.holder]
         case Ready(j, _, h) => j == i && h == e.start
         case Resumed(j, _, at, _) => j == i && at == e.start
         case _ => false
  }

  /** The call of the step holds or looks at an entry, and no live entry is free. */
  ghost predicate OpeningBase(c: Config, g: GState, e: GStep) {
    && GShape(c, g) && GEnabled(c, g, e) && CreatorStep(e)
    && e.c < |g.creators| && CreatorInv(g.base.head, g.entries, e.c, g.creators[e.c])
    && forall j :: 0 <= j < |g.entries| ==> (g.entries[j].active <==> !g.entries[j].phase.Free?)
  }

  predicate HandsOut(e: GStep) {
    e.Allocate? || e.RestoreStore?
  }

  /** A call only hands out the handle of the entry it holds. */
  lemma OpenedHandOut(c: Config, g: GState, e: GStep, i: nat)
    requires OpeningBase(c, g, e) && HandsOut(e) && OpenedBy(g, i)
    ensures OpenedBy(GApply(c, g, e), i)
  {
  }

  /** No other step of a call changes a result that has been handed out. */
  lemma OpenedCreatorStep(c: Config, g: GState, e: GStep, i: nat)
    requires OpeningBase(c, g, e) && !HandsOut(e) && OpenedBy(g, i)
    ensures OpenedBy(GApply(c, g, e), i)
  {
    if e.Cas? || e.Join? { OpenedClaim(c, g, e, i); }
  }

  lemma OpenedClaim(c: Config, g: GState, e: GStep, i: nat)
    requires OpeningBase(c, g, e) && (e.Cas? || e.Join?) && OpenedBy(g, i)
    ensures OpenedBy(GApply(c, g, e), i)
  {
  }

  lemma OpenedOtherStep(c: Config, g: GState, e: GStep, i: nat)
    requires GShape(c, g) && GEnabled(c, g, e) && !CreatorStep(e) && OpenedBy(g, i)
    ensures OpenedBy(GApply(c, g, e), i)
  {
  }

  lemma OpenedStep(c: Config, g: GState, e: GStep, i: nat)
    requires GInv(c, g, {}) && GEnabled(c, g, e) && OpenedBy(g, i)
    ensures OpenedBy(GApply(c, g, e), i)
  {
    assert forall j :: 0 <= j < |g.entries| ==> EntryInv(g.base, g.entries[j], j in {});
    if CreatorStep(e) {
      assert CreatorInv(g.base.head, g.entries, e.c, g.creators[e.c]);
      if HandsOut(e) { OpenedHandOut(c, g, e, i); } else { OpenedCreatorStep(c, g, e, i); }
    } else {
      OpenedOtherStep(c, g, e, i);
    }
  }

  lemma {:induction false} OpenedRun(c: Config, states: seq<GState>, steps: seq<GStep>, b: nat, i: nat)
    requires IsGRun(c, states, steps) && b < |states|
    ensures OpenedBy(states[b], i)
    decreases b
  {
    if b > 0 {
      OpenedRun(c, states, steps, b - 1, i);
      GRunInv(c, states, steps, b - 1);
      assert GFollows(c, states[b - 1], steps[b - 1], states[b]);
      OpenedStep(c, states[b - 1], steps[b - 1], i);
    }
  }

  /** A resume with a tail that its group had reached restores exactly that tail. */
  lemma ResumeRestores(c: Config, states: seq<GState>, steps: seq<GStep>, k: nat, b: nat, id: nat, t: nat, j: nat)
    requires IsGRun(c, states, steps) && k < b < |states| && steps[k] == New(Resume(id, t))
    requires t <= states[k].base.head
    requires j < |states[b].entries| && states[b].entries[j].phase.Live?
    requires states[b].entries[j].holder == |states[k].creators|
    ensures states[b].entries[j].start == t
  {
    ResumeRun(c, states, steps, k, b, id, t);
    OpenedRun(c, states, steps, b, j);
  }

  /**
    Crash and replay. At moment a the handle of entry i stands at tail t, which
    is checkpointed; it may pop further and die. A resume with t is called at
    moment k, and at moment b entry j has the handle which that call returned.
    It started at t, and what was delivered before the checkpoint followed by
    what the restored handle has delivered is one contiguous slice: nothing
    before t comes again, nothing from t on is lost.
   */
  lemma CrashReplay(c: Config, states: seq<GState>, steps: seq<GStep>, a: nat, i: nat, k: nat, id: nat, b: nat, j: nat)
    requires IsGRun(c, states, steps) && a <= k < b < |states|
    requires i < |states[a].entries| && states[a].entries[i].phase.Live? && Kept(c, states, i, a)
    requires steps[k] == New(Resume(id, states[a].entries[i].tail))
    requires j < |states[b].entries| && states[b].entries[j].phase.Live? && Kept(c, states, j, b)
    requires states[b].entries[j].holder == |states[k].creators|
    ensures var saved, again := states[a].entries[i], states[b].entries[j];
      && again.start == saved.tail
      && Slice(states[b].base.published, saved.start, saved.delivered + again.delivered)
      && |saved.delivered + again.delivered| == again.tail - saved.start
  {
    GroupDelivery(c, states, steps, a, i);
    GroupDelivery(c, states, steps, b, j);
    GRunExtends(c, states, steps, a, k);
    ResumeRestores(c, states, steps, k, b, id, states[a].entries[i].tail, j);
    GRunExtends(c, states, steps, a, b);
    SliceGrows(states[a].base.published, states[b].base.published,
               states[a].entries[i].start, states[a].entries[i].delivered);
  }

  /** Where a resume ends up: at the saved tail, or at head when the saved tail lies beyond it. */
  lemma ResumeNeverAhead(c: Config, states: seq<GState>, steps: seq<GStep>, b: nat, n: nat)
    requires IsGRun(c, states, steps) && b < |steps| && steps[b] == RestoreStore(n)
    ensures n < |states[b].creators| && states[b].creators[n].HasRestoreHead?
    ensures var m := states[b].creators[n];
      && m.i < |states[b + 1].entries|
      && var e := states[b + 1].entries[m.i];
      && e.phase.Live? && e.start == e.tail <= states[b + 1].base.head
      && e.tail == (if m.t <= m.v then m.t else m.v)
  {
    GRunInv(c, states, steps, b);
    GRunInv(c, states, steps, b + 1);
    assert GFollows(c, states[b], steps[b], states[b + 1]);
    assert CreatorInv(states[b].base.head, states[b].entries, n, states[b].creators[n]);
    assert EntryInv(states[b + 1].base, states[b + 1].entries[states[b].creators[n].i], false);
  }

  // ---------------------------------------------------------------- claiming

  /** In every state of every run: no entry has two winners, and claims balance. */
  lemma ClaimsAreExclusive(c: Config, states: seq<GState>, steps: seq<GStep>, b: nat)
    requires IsGRun(c, states, steps) && b < |states|
    ensures var g := states[b];
      && (forall m, n :: 0 <= m < n < |g.creators| && Claim(g.creators[m]) >= 0 ==>
            Claim(g.creators[m]) != Claim(g.creators[n]))
      && Actives(g.entries) == g.wins - g.undone
  {
    var g := states[b];
    GRunInv(c, states, steps, b);
    forall m, n | 0 <= m < n < |g.creators| && Claim(g.creators[m]) >= 0
      ensures Claim(g.creators[m]) != Claim(g.creators[n])
    {
      assert CreatorInv(g.base.head, g.entries, m, g.creators[m]);
      assert CreatorInv(g.base.head, g.entries, n, g.creators[n]);
    }
  }

  /** Head when the call of this creator began, while it is still creating; else -1. */
  function Began(m: Creator): int {
    if m.Scanning? || m.Won? || m.Named? || m.Loaded? || m.Stored? || m.Ready? then m.began else -1
  }

  lemma BeganStep(c: Config, g: GState, e: GStep, n: nat)
    requires GShape(c, g) && GEnabled(c, g, e) && n < |g.creators|
    ensures var g' := GApply(c, g, e);
      n < |g'.creators| && (Began(g'.creators[n]) == Began(g.creators[n]) || Began(g'.creators[n]) == -1)
  {
  }

  /** The n-th call, if it is still creating, began at the given head. */
  ghost predicate BeganWith(g: GState, n: nat, head: nat) {
    n < |g.creators| && (Began(g.creators[n]) == head || Began(g.creators[n]) == -1)
  }

  lemma BeganNow(c: Config, states: seq<GState>, steps: seq<GStep>, a: nat)
    requires IsGRun(c, states, steps) && a < |steps| && steps[a].New?
    ensures BeganWith(states[a + 1], |states[a].creators|, states[a].base.head)
  {
    assert GFollows(c, states[a], steps[a], states[a + 1]);
  }

  lemma BeganNext(c: Config, states: seq<GState>, steps: seq<GStep>, b: nat, n: nat, head: nat)
    requires IsGRun(c, states, steps) && b < |steps| && BeganWith(states[b], n, head)
    ensures BeganWith(states[b + 1], n, head)
  {
    assert GFollows(c, states[b], steps[b], states[b + 1]);
    BeganStep(c, states[b], steps[b], n);
  }

  lemma {:induction false} BeganAt(c: Config, states: seq<GState>, steps: seq<GStep>, a: nat, b: nat)
    requires IsGRun(c, states, steps) && a < b < |states| && steps[a].New?
    ensures BeganWith(states[b], |states[a].creators|, states[a].base.head)
    decreases b
  {
    if a + 1 == b {
      BeganNow(c, states, steps, a);
    } else {
      BeganAt(c, states, steps, a, b - 1);
      BeganNext(c, states, steps, b - 1, |states[a].creators|, states[a].base.head);
    }
  }

  /**
    A create that began at moment a and completes at moment b opens its group at
    a head value between the heads of those two moments.
   */
  lemma StartsDuringCall(c: Config, states: seq<GState>, steps: seq<GStep>, a: nat, b: nat)
    requires IsGRun(c, states, steps) && a < b < |steps| && steps[a].New?
    requires steps[b] == Allocate(|states[a].creators|, true)
    requires var n := |states[a].creators|;
      n < |states[b].creators| && states[b].creators[n].Stored? && states[b].creators[n].want.Create?
    ensures var i := states[b].creators[|states[a].creators|].i;
      && i < |states[b + 1].entries|
      && var e := states[b + 1].entries[i];
      && e.phase.Live? && e.start == e.tail && e.delivered == []
      && states[a].base.head <= e.start <= states[b].base.head
  {
    var n := |states[a].creators|;
    GRunInv(c, states, steps, b);
    BeganAt(c, states, steps, a, b);
    assert GFollows(c, states[b], steps[b], states[b + 1]);
    assert CreatorInv(states[b].base.head, states[b].entries, n, states[b].creators[n]);
  }

  // ----------------------------------------------------------- minimum scan

  lemma WatchStep(c: Config, g: GState, e: GStep, j: nat)
    requires GShape(c, g) && GEnabled(c, g, e) && j < |g.entries|
    ensures e.ScanStart? && Settled(g.entries[j]) ==> j in GApply(c, g, e).watch
    ensures !e.ScanStart? && j in g.watch ==> j in GApply(c, g, e).watch || Rejoins(g, e, j)
  {
  }

  /** This step is a resume taking over entry j. */
  predicate Rejoins(g: GState, e: GStep, j: nat) {
    && e.Join? && e.ok && e.c < |g.creators| && g.creators[e.c].Joining?
    && g.creators[e.c].i == j < |g.entries| && Matches(g, e.c)
  }

  lemma {:induction false} Watched(c: Config, states: seq<GState>, steps: seq<GStep>, a: nat, b: nat, j: nat)
    requires IsGRun(c, states, steps) && a < b < |states| && steps[a].ScanStart?
    requires j < MAX_CONSUMERS && j < |states[a].entries| && Settled(states[a].entries[j])
    requires forall k :: a < k < b ==> !steps[k].ScanStart? && !Rejoins(states[k], steps[k], j)
    ensures j in states[b].watch
    decreases b
  {
    assert GFollows(c, states[b - 1], steps[b - 1], states[b]);
    if a + 1 < b { Watched(c, states, steps, a, b - 1, j); }
    WatchStep(c, states[b - 1], steps[b - 1], j);
  }

  /**
    A scan that starts at moment a and has its answer at moment b, run while
    groups pop, crash and are created: the answer is at most the tail, at b, of
    every group whose create had finished before a, unless a resume moved that
    group's tail meanwhile.
   */
  lemma MinTailIsSafe(c: Config, states: seq<GState>, steps: seq<GStep>, a: nat, b: nat, j: nat)
    requires IsGRun(c, states, steps) && a < b < |states| && steps[a].ScanStart?
    requires j < MAX_CONSUMERS && j < |states[a].entries| && Settled(states[a].entries[j])
    requires forall k :: a < k < b ==> !steps[k].ScanStart? && !Rejoins(states[k], steps[k], j)
    requires states[b].scan.SDone? && states[b].base.head <= UINT64_MAX
    ensures j < |states[b].entries| && states[b].scan.result <= states[b].entries[j].tail
  {
    Watched(c, states, steps, a, b, j);
    GRunInv(c, states, steps, b);
  }

  // ------------------------------------------------ what the minimum is for

  /** A group that is in use, or whose handle died, keeps its entry and only moves on. */
  lemma SettledStep(c: Config, g: GState, e: GStep, j: nat)
    requires GInv(c, g, {}) && GEnabled(c, g, e) && !Rejoins(g, e, j)
    requires j < |g.entries| && Settled(g.entries[j])
    ensures var g' := GApply(c, g, e);
      j < |g'.entries| && Settled(g'.entries[j]) && g.entries[j].tail <= g'.entries[j].tail
  {
    assert EntryInv(g.base, g.entries[j], false);
    if e.Handle? && e.i == j {
      HandleReads(c, g.base, g.entries[j], e.k, false);
    } else if CreatorStep(e) {
      assert CreatorInv(g.base.head, g.entries, e.c, g.creators[e.c]);
      CreatorFrame(c, g, e);
    }
  }

  /** A group's tail changes only when its own handle has read a message, by one, or when the
      call that is setting the entry up stores it. */
  lemma TailMoves(c: Config, g: GState, e: GStep, j: nat)
    requires GInv(c, g, {}) && GEnabled(c, g, e) && j < |g.entries|
    ensures var g' := GApply(c, g, e);
      && j < |g'.entries|
      && (g'.entries[j].tail != g.entries[j].tail ==>
            || (e.Handle? && e.i == j && (e.k.StoreTail? || e.k.ReleaseStore?)
                && g'.entries[j].tail == g.entries[j].tail + 1)
            || ((e.StoreStart? || e.RestoreStore?) && Holder(g.entries, j, e.c)))
  {
    if CreatorStep(e) {
      assert CreatorInv(g.base.head, g.entries, e.c, g.creators[e.c]);
      CreatorFrame(c, g, e);
    } else if e.Handle? && e.i == j {
      assert EntryInv(g.base, g.entries[j], false);
    }
  }

  /** The push or reserve of this step passes its check for room. */
  predicate Admits(c: Config, g: GState, e: GStep) {
    e.Base? && e.e == P(CheckFull) && g.base.prod.HasTail? && !AnswersFull(c, g.base.prod)
  }

  /** The window moves on only when the producer is admitted. */
  lemma OldestStep(c: Config, g: GState, e: GStep)
    requires GInv(c, g, {}) && GEnabled(c, g, e)
    ensures Oldest(c.capacity, GApply(c, g, e).base)
         <= (if Admits(c, g, e) then g.base.head - c.capacity + 1 else Oldest(c.capacity, g.base))
  {
  }

  /** Group j has not moved below r, and the ring still has everything from r on. */
  ghost predicate Guarded(c: Config, g: GState, j: nat, r: int) {
    j < |g.entries| && Settled(g.entries[j]) && Oldest(c.capacity, g.base) <= r <= g.entries[j].tail
  }

  lemma GuardedStep(c: Config, states: seq<GState>, steps: seq<GStep>, k: nat, j: nat, r: int)
    requires IsGRun(c, states, steps) && k < |steps| && Guarded(c, states[k], j, r)
    requires !Rejoins(states[k], steps[k], j)
    requires Admits(c, states[k], steps[k]) ==> states[k].base.head - r < c.capacity
    ensures Guarded(c, states[k + 1], j, r)
  {
    GRunInv(c, states, steps, k);
    assert GFollows(c, states[k], steps[k], states[k + 1]);
    SettledStep(c, states[k], steps[k], j);
    OldestStep(c, states[k], steps[k]);
  }

  ghost predicate StaysGuarded(c: Config, states: seq<GState>, j: nat, r: int, k: nat) {
    k + 1 < |states| && (Guarded(c, states[k], j, r) ==> Guarded(c, states[k + 1], j, r))
  }

  lemma {:induction false} GuardedRun(c: Config, states: seq<GState>, b: nat, n: nat, j: nat, r: int)
    requires b <= n < |states| && Guarded(c, states[b], j, r)
    requires forall k :: b <= k < n ==> StaysGuarded(c, states, j, r, k)
    ensures Guarded(c, states[n], j, r)
    decreases n
  {
    if b < n {
      GuardedRun(c, states, b, n - 1, j, r);
      assert StaysGuarded(c, states, j, r, n - 1);
    }
  }

  /**
    What nabd_min_tail is for. A scan from moment a to moment b answers r, and
    nothing from r on has been given up by then. If from b on the producer lets a
    push pass only while head - r < capacity, then at every later moment every
    group created before the scan still has all its unread messages in the ring.
   */
  lemma MinTailGuards(c: Config, states: seq<GState>, steps: seq<GStep>, a: nat, b: nat, n: nat, j: nat)
    requires IsGRun(c, states, steps) && a < b <= n < |states| && steps[a].ScanStart?
    requires j < MAX_CONSUMERS && j < |states[a].entries| && Settled(states[a].entries[j])
    requires forall k :: a < k < b ==> !steps[k].ScanStart?
    requires forall k :: a < k < n ==> !Rejoins(states[k], steps[k], j)
    requires states[b].scan.SDone? && states[b].base.head <= UINT64_MAX
    requires Oldest(c.capacity, states[b].base) <= states[b].scan.result
    requires forall k :: b <= k < n && Admits(c, states[k], steps[k]) ==>
      states[k].base.head - states[b].scan.result < c.capacity
    ensures Retained(c, states[n], {j})
  {
    MinTailIsSafe(c, states, steps, a, b, j);
    Watched(c, states, steps, a, b, j);
    GRunInv(c, states, steps, b);
    var r := states[b].scan.result;
    forall k | b <= k < n ensures StaysGuarded(c, states, j, r, k) {
      if Guarded(c, states[k], j, r) { GuardedStep(c, states, steps, k, j, r); }
    }
    GuardedRun(c, states, b, n, j, r);
  }
}

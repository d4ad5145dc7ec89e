/**
  What a create or resume does from its call to its return, whatever others do: the
  entries that it tries, the group that it ends up with, its id and its start, and
  exactly when it returns nothing.
 */
module GroupsCreates {
  import opened Layout
  import opened Spsc
  import opened Groups
  import opened GroupsInvariant
  import opened GroupsRuns

  // ------------------------------------------------------- entries tried

  /** The step is a failed compare-and-swap of call n on entry j. */
  predicate ClaimFails(g: GState, e: GStep, n: nat, j: nat) {
    e == Cas(n, false) && n < |g.creators| && g.creators[n].Scanning? && g.creators[n].i == j
  }

  /** The step is a look of call n at entry j, which is not an active group with its id. */
  predicate PassesOver(g: GState, e: GStep, n: nat, j: nat) {
    && e.Join? && e.c == n && n < |g.creators| && g.creators[n].Joining? && g.creators[n].i == j < |g.entries|
    && !(g.entries[j].active && g.entries[j].id == g.creators[n].want.id)
  }

  /** The step finds the group to join, but there is no memory for the handle. */
  predicate JoinFails(g: GState, e: GStep, n: nat) {
    && e == Join(n, false) && n < |g.creators| && g.creators[n].Joining? && g.creators[n].i < |g.entries|
    && var x := g.entries[g.creators[n].i]; x.active && x.id == g.creators[n].want.id
  }

  datatype Trial = Grab | Look

  predicate Misses(t: Trial, g: GState, e: GStep, n: nat, j: nat) {
    if t.Grab? then ClaimFails(g, e, n, j) else PassesOver(g, e, n, j)
  }

  ghost predicate Missed(t: Trial, states: seq<GState>, steps: seq<GStep>, n: nat, k: nat, b: nat, j: nat) {
    exists x :: k < x < b && x < |steps| && x < |states| && Misses(t, states[x], steps[x], n, j)
  }

  /** In (k, b) call n has tried the first u entries in vain. */
  ghost predicate AllMissed(t: Trial, states: seq<GState>, steps: seq<GStep>, n: nat, k: nat, b: nat, u: nat) {
    forall j :: 0 <= j < u ==> Missed(t, states, steps, n, k, b, j)
  }

  lemma MissNoted(t: Trial, states: seq<GState>, steps: seq<GStep>, n: nat, k: nat, b: nat, u: nat)
    requires k < b < |steps| && b < |states| && AllMissed(t, states, steps, n, k, b, u)
    ensures AllMissed(t, states, steps, n, k, b + 1, u)
    ensures Misses(t, states[b], steps[b], n, u) ==> AllMissed(t, states, steps, n, k, b + 1, u + 1)
  {
    var b' := b + 1;
    forall j | 0 <= j < u ensures Missed(t, states, steps, n, k, b', j) {
      assert Missed(t, states, steps, n, k, b, j);
      var x :| k < x < b && x < |steps| && x < |states| && Misses(t, states[x], steps[x], n, j);
      assert Misses(t, states[x], steps[x], n, j);
    }
    assert Misses(t, states[b], steps[b], n, u) ==> Missed(t, states, steps, n, k, b', u);
  }

  /** The create part of call n came to nothing: no entry could be claimed, or the claim was
      given back because there was no memory for the handle. */
  ghost predicate NoGroup(states: seq<GState>, steps: seq<GStep>, n: nat, k: nat, b: nat) {
    || AllMissed(Grab, states, steps, n, k, b, MAX_CONSUMERS)
    || exists x :: k < x < b && x < |steps| && steps[x] == Allocate(n, false)
  }

  /** The join part came to nothing: id 0, no match at any entry, or no memory. */
  ghost predicate NoJoin(states: seq<GState>, steps: seq<GStep>, n: nat, k: nat, b: nat, id: nat) {
    || id == 0
    || AllMissed(Look, states, steps, n, k, b, MAX_CONSUMERS)
    || exists x :: k < x < b && x < |steps| && x < |states| && JoinFails(states[x], steps[x], n)
  }

  /** Entry i was got by a claim, or by a join after the create part came to nothing. */
  ghost predicate GotBy(states: seq<GState>, steps: seq<GStep>, n: nat, k: nat, b: nat, want: Want, i: nat, won: bool) {
    if won then AllMissed(Grab, states, steps, n, k, b, i)
    else want.id != 0 && NoGroup(states, steps, n, k, b) && AllMissed(Look, states, steps, n, k, b, i)
  }

  /** Where call n, made at step k, stands at moment b, and what it has tried so far. */
  ghost predicate Tries(states: seq<GState>, steps: seq<GStep>, n: nat, k: nat, b: nat, want: Want) {
    && b < |states| && n < |states[b].creators|
    && match states[b].creators[n]
       case Scanning(i, _, w) => w == want && GotBy(states, steps, n, k, b, want, i, true)
       case Won(i, _, w) => w == want && GotBy(states, steps, n, k, b, want, i, true)
       case Named(i, _, w) => w == want && GotBy(states, steps, n, k, b, want, i, true)
       case Loaded(i, _, w, _) => w == want && GotBy(states, steps, n, k, b, want, i, true)
       case Stored(i, _, w, _) => w == want && GotBy(states, steps, n, k, b, want, i, true)
       case Ready(i, _, _) => want.Create? && GotBy(states, steps, n, k, b, want, i, true)
       case Joining(i, _, w) => w == want && want.Resume? && GotBy(states, steps, n, k, b, want, i, false)
       case Restoring(i, _, t, won) => want == Resume(want.id, t) && GotBy(states, steps, n, k, b, want, i, won)
       case HasRestoreHead(i, t, _, won) => want == Resume(want.id, t) && GotBy(states, steps, n, k, b, want, i, won)
       case Resumed(i, t, _, won) => want == Resume(want.id, t) && GotBy(states, steps, n, k, b, want, i, won)
       case Failed =>
         NoGroup(states, steps, n, k, b) && (want.Resume? ==> NoJoin(states, steps, n, k, b, want.id))
  }

  /** Steps of other calls, and of everybody else. */
  lemma OthersLeaveIt(c: Config, g: GState, e: GStep, n: nat)
    requires GShape(c, g) && GEnabled(c, g, e) && n < |g.creators| && !(CreatorStep(e) && e.c == n)
    ensures n < |GApply(c, g, e).creators| && GApply(c, g, e).creators[n] == g.creators[n]
  {
  }

  lemma NoGroupStays(states: seq<GState>, steps: seq<GStep>, n: nat, k: nat, b: nat, id: nat)
    requires k < b < |steps| && b < |states|
    ensures NoGroup(states, steps, n, k, b) ==> NoGroup(states, steps, n, k, b + 1)
    ensures NoJoin(states, steps, n, k, b, id) ==> NoJoin(states, steps, n, k, b + 1, id)
    ensures steps[b] == Allocate(n, false) ==> NoGroup(states, steps, n, k, b + 1)
    ensures JoinFails(states[b], steps[b], n) ==> NoJoin(states, steps, n, k, b + 1, id)
  {
    if AllMissed(Grab, states, steps, n, k, b, MAX_CONSUMERS) { MissNoted(Grab, states, steps, n, k, b, MAX_CONSUMERS); }
    if AllMissed(Look, states, steps, n, k, b, MAX_CONSUMERS) { MissNoted(Look, states, steps, n, k, b, MAX_CONSUMERS); }
    if x :| k < x < b && steps[x] == Allocate(n, false) { assert k < x < b + 1 && steps[x] == Allocate(n, false); }
    if x :| k < x < b && x < |states| && JoinFails(states[x], steps[x], n) { assert JoinFails(states[x], steps[x], n); }
  }

  lemma GotByStays(states: seq<GState>, steps: seq<GStep>, n: nat, k: nat, b: nat, want: Want, i: nat, won: bool)
    requires k < b < |steps| && b < |states| && GotBy(states, steps, n, k, b, want, i, won)
    ensures GotBy(states, steps, n, k, b + 1, want, i, won)
    ensures Misses(if won then Grab else Look, states[b], steps[b], n, i) ==>
      GotBy(states, steps, n, k, b + 1, want, i + 1, won)
  {
    NoGroupStays(states, steps, n, k, b, want.id);
    MissNoted(if won then Grab else Look, states, steps, n, k, b, i);
  }

  /** Steps of the call that leave it at its entry. */
  lemma FillTries(c: Config, states: seq<GState>, steps: seq<GStep>, n: nat, k: nat, b: nat, want: Want)
    requires IsGRun(c, states, steps) && k < b < |steps| && Tries(states, steps, n, k, b, want)
    requires CreatorStep(steps[b]) && steps[b].c == n && !steps[b].Cas? && !steps[b].Join? && steps[b] != Allocate(n, false)
    ensures Tries(states, steps, n, k, b + 1, want)
  {
    assert GFollows(c, states[b], steps[b], states[b + 1]);
    var m := states[b].creators[n];
    GotByStays(states, steps, n, k, b, want, m.i, OwnsByClaim(m));
  }

  lemma ClaimTries(c: Config, states: seq<GState>, steps: seq<GStep>, n: nat, k: nat, b: nat, want: Want)
    requires IsGRun(c, states, steps) && k < b < |steps| && Tries(states, steps, n, k, b, want)
    requires (steps[b].Cas? && steps[b].c == n) || steps[b] == Allocate(n, false)
    ensures Tries(states, steps, n, k, b + 1, want)
  {
    assert GFollows(c, states[b], steps[b], states[b + 1]);
    GotByStays(states, steps, n, k, b, want, states[b].creators[n].i, true);
    NoGroupStays(states, steps, n, k, b, want.id);
  }

  lemma JoinTries(c: Config, states: seq<GState>, steps: seq<GStep>, n: nat, k: nat, b: nat, want: Want)
    requires IsGRun(c, states, steps) && k < b < |steps| && Tries(states, steps, n, k, b, want)
    requires steps[b].Join? && steps[b].c == n
    ensures Tries(states, steps, n, k, b + 1, want)
  {
    assert GFollows(c, states[b], steps[b], states[b + 1]);
    GotByStays(states, steps, n, k, b, want, states[b].creators[n].i, false);
    NoGroupStays(states, steps, n, k, b, want.id);
  }

  lemma OtherTries(c: Config, states: seq<GState>, steps: seq<GStep>, n: nat, k: nat, b: nat, want: Want)
    requires IsGRun(c, states, steps) && k < b < |steps| && Tries(states, steps, n, k, b, want)
    requires !(CreatorStep(steps[b]) && steps[b].c == n)
    ensures Tries(states, steps, n, k, b + 1, want)
  {
    assert GFollows(c, states[b], steps[b], states[b + 1]);
    OthersLeaveIt(c, states[b], steps[b], n);
    var m := states[b].creators[n];
    if m.Failed? {
      NoGroupStays(states, steps, n, k, b, want.id);
    } else {
      GotByStays(states, steps, n, k, b, want, m.i, OwnsByClaim(m));
    }
  }

  /** The call's entry is one that it claims, or tries to. */
  predicate OwnsByClaim(m: Creator) {
    match m
    case Joining(_, _, _) => false
    case Restoring(_, _, _, won) => won
    case HasRestoreHead(_, _, _, won) => won
    case Resumed(_, _, _, won) => won
    case _ => true
  }

  lemma TriesNext(c: Config, states: seq<GState>, steps: seq<GStep>, n: nat, k: nat, b: nat, want: Want)
    requires IsGRun(c, states, steps) && k < b < |steps| && Tries(states, steps, n, k, b, want)
    ensures Tries(states, steps, n, k, b + 1, want)
  {
    if !(CreatorStep(steps[b]) && steps[b].c == n) { OtherTries(c, states, steps, n, k, b, want); }
    else if steps[b].Cas? || steps[b] == Allocate(n, false) { ClaimTries(c, states, steps, n, k, b, want); }
    else if steps[b].Join? { JoinTries(c, states, steps, n, k, b, want); }
    else { FillTries(c, states, steps, n, k, b, want); }
  }

  lemma FirstTry(c: Config, states: seq<GState>, steps: seq<GStep>, k: nat, want: Want)
    requires IsGRun(c, states, steps) && k < |steps| && steps[k] == New(want)
    ensures Tries(states, steps, |states[k].creators|, k, k + 1, want)
  {
    assert GFollows(c, states[k], steps[k], states[k + 1]);
  }

  lemma {:induction false} TriesRun(c: Config, states: seq<GState>, steps: seq<GStep>, k: nat, b: nat, want: Want)
    requires IsGRun(c, states, steps) && k < b < |states| && steps[k] == New(want)
    ensures Tries(states, steps, |states[k].creators|, k, b, want)
    decreases b
  {
    if b == k + 1 {
      FirstTry(c, states, steps, k, want);
    } else {
      TriesRun(c, states, steps, k, b - 1, want);
      TriesNext(c, states, steps, |states[k].creators|, k, b - 1, want);
    }
  }

  /**
    A create or resume, at any moment up to its return. It tries the entries in
    order, and gets the first whose compare-and-swap succeeds. It returns nothing
    only when all 16 fail or there is no memory for the handle, and, for a resume,
    when besides its id is 0, or none of the 16 entries it looks at is an active
    group with its id, or there is no memory for the handle again; a resume joins
    the first such group.
   */
  lemma CallOutcome(c: Config, states: seq<GState>, steps: seq<GStep>, k: nat, b: nat, want: Want)
    requires IsGRun(c, states, steps) && k < b < |states| && steps[k] == New(want)
    ensures var n := |states[k].creators|;
      && n < |states[b].creators|
      && var m := states[b].creators[n];
      && (!m.Failed? ==> GotBy(states, steps, n, k, b, want, m.i, OwnsByClaim(m)))
      && (m.Ready? ==> want.Create?) && (m.Resumed? ==> want == Resume(want.id, m.t))
      && (m.Failed? ==> NoGroup(states, steps, n, k, b) && (want.Resume? ==> NoJoin(states, steps, n, k, b, want.id)))
  {
    TriesRun(c, states, steps, k, b, want);
  }

  // --------------------------------------------------------- id and start

  /** The id that a call gives to, or asks of, entry i. */
  function IdFor(want: Want, i: nat): nat {
    if want.id != 0 then want.id else i + 1
  }

  /** The entry that call n has named, or joined, has the right id; once it is handed out, as
      long as the handle lives. */
  ghost predicate Labelled(g: GState, n: nat, want: Want) {
    && n < |g.creators|
    && match g.creators[n]
       case Scanning(_, _, w) => w == want
       case Won(_, _, w) => w == want
       case Named(i, _, w) => w == want && HasId(g, i, want)
       case Loaded(i, _, w, _) => w == want && HasId(g, i, want)
       case Stored(i, _, w, _) => w == want && HasId(g, i, want)
       case Ready(i, _, _) => Lives(g, i, n) ==> HasId(g, i, want)
       case Joining(_, _, w) => w == want && want.id != 0
       case Restoring(i, _, _, _) => HasId(g, i, want)
       case HasRestoreHead(i, _, _, _) => HasId(g, i, want)
       case Resumed(i, _, _, _) => Lives(g, i, n) ==> HasId(g, i, want)
       case Failed => true
  }

  predicate HasId(g: GState, i: nat, want: Want) {
    i < |g.entries| && g.entries[i].id == IdFor(want, i)
  }

  /** The handle of entry i is the one that call n returned. */
  predicate Lives(g: GState, i: nat, n: nat) {
    i < |g.entries| && g.entries[i].phase.Live? && g.entries[i].holder == n
  }

  lemma LabelOwn(c: Config, g: GState, e: GStep, n: nat, want: Want)
    requires GShape(c, g) && GEnabled(c, g, e) && Labelled(g, n, want) && CreatorStep(e) && e.c == n
    ensures Labelled(GApply(c, g, e), n, want)
  {
  }

  /** What a step of somebody else does to an entry's id, and to whose handle it has. */
  lemma OtherEntry(c: Config, g: GState, e: GStep, n: nat, i: nat)
    requires GInv(c, g, {}) && GEnabled(c, g, e) && i < |g.entries| && !(CreatorStep(e) && e.c == n)
    ensures var g' := GApply(c, g, e);
      && i < |g'.entries|
      && (Holder(g.entries, i, n) ==> g'.entries[i] == g.entries[i])
      && (Lives(g', i, n) ==> Lives(g, i, n) && g'.entries[i].id == g.entries[i].id)
  {
    if CreatorStep(e) {
      assert CreatorInv(g.base.head, g.entries, e.c, g.creators[e.c]);
      assert EntryInv(g.base, g.entries[i], false);
      CreatorFrame(c, g, e);
      if g.creators[e.c].i == i { OwnerPart(c, g, e, false); }
    }
  }

  /** A step of somebody else leaves an entry under construction, and a live one's id, alone. */
  lemma LabelOther(c: Config, g: GState, e: GStep, n: nat, want: Want)
    requires GInv(c, g, {}) && GEnabled(c, g, e) && Labelled(g, n, want) && !(CreatorStep(e) && e.c == n)
    ensures Labelled(GApply(c, g, e), n, want)
  {
    OthersLeaveIt(c, g, e, n);
    assert CreatorInv(g.base.head, g.entries, n, g.creators[n]);
    if !g.creators[n].Failed? && g.creators[n].i < |g.entries| { OtherEntry(c, g, e, n, g.creators[n].i); }
  }

  lemma LabelNext(c: Config, states: seq<GState>, steps: seq<GStep>, b: nat, n: nat, want: Want)
    requires IsGRun(c, states, steps) && b < |steps| && Labelled(states[b], n, want)
    ensures Labelled(states[b + 1], n, want)
  {
    assert GFollows(c, states[b], steps[b], states[b + 1]);
    GRunInv(c, states, steps, b);
    if CreatorStep(steps[b]) && steps[b].c == n {
      LabelOwn(c, states[b], steps[b], n, want);
    } else {
      LabelOther(c, states[b], steps[b], n, want);
    }
  }

  lemma LabelFirst(c: Config, states: seq<GState>, steps: seq<GStep>, k: nat, want: Want)
    requires IsGRun(c, states, steps) && k < |steps| && steps[k] == New(want)
    ensures Labelled(states[k + 1], |states[k].creators|, want)
  {
    assert GFollows(c, states[k], steps[k], states[k + 1]);
  }

  lemma {:induction false} LabelRun(c: Config, states: seq<GState>, steps: seq<GStep>, k: nat, b: nat, want: Want)
    requires IsGRun(c, states, steps) && k < b < |states| && steps[k] == New(want)
    ensures Labelled(states[b], |states[k].creators|, want)
    decreases b
  {
    if b == k + 1 {
      LabelFirst(c, states, steps, k, want);
    } else {
      LabelRun(c, states, steps, k, b - 1, want);
      LabelNext(c, states, steps, b - 1, |states[k].creators|, want);
    }
  }

  /** The head that call n loads at step x, for a new group or to check the saved tail. */
  predicate HeadOf(g: GState, e: GStep, n: nat, v: nat) {
    (e == LoadStart(n, v) || e == RestoreLoad(n, v)) && v <= g.base.head
  }

  ghost predicate LoadedHead(states: seq<GState>, steps: seq<GStep>, n: nat, k: nat, b: nat, v: nat) {
    exists x :: k < x < b && x < |steps| && x < |states| && HeadOf(states[x], steps[x], n, v)
  }

  /** at is where a call that has loaded head v puts its group. */
  predicate StartFor(want: Want, v: nat, at: nat) {
    at == (if want.Resume? && want.t < v then want.t else v)
  }

  /** Call n's group starts where it was asked to, by a head that the call has loaded. */
  ghost predicate Placed(states: seq<GState>, steps: seq<GStep>, n: nat, k: nat, b: nat, want: Want, at: nat) {
    exists v: nat :: LoadedHead(states, steps, n, k, b, v) && StartFor(want, v, at)
  }

  /** What call n has loaded by moment b, and where it has put its group. */
  ghost predicate Starts(states: seq<GState>, steps: seq<GStep>, n: nat, k: nat, b: nat, want: Want) {
    && b < |states| && n < |states[b].creators|
    && match states[b].creators[n]
       case Scanning(_, _, w) => w == want
       case Won(_, _, w) => w == want
       case Named(_, _, w) => w == want
       case Loaded(_, _, w, h) => w == want && LoadedHead(states, steps, n, k, b, h)
       case Stored(_, _, w, h) => w == want && LoadedHead(states, steps, n, k, b, h)
       case Ready(_, _, h) => want.Create? && Placed(states, steps, n, k, b, want, h)
       case Joining(_, _, w) => w == want && want.Resume?
       case Restoring(_, _, t, _) => want == Resume(want.id, t)
       case HasRestoreHead(_, t, v, _) => want == Resume(want.id, t) && LoadedHead(states, steps, n, k, b, v)
       case Resumed(_, _, at, _) => Placed(states, steps, n, k, b, want, at)
       case Failed => true
  }

  lemma LoadStays(states: seq<GState>, steps: seq<GStep>, n: nat, k: nat, b: nat, want: Want)
    requires k < b < |steps| && b < |states|
    ensures forall v: nat :: LoadedHead(states, steps, n, k, b, v) ==> LoadedHead(states, steps, n, k, b + 1, v)
    ensures forall v: nat :: HeadOf(states[b], steps[b], n, v) ==> LoadedHead(states, steps, n, k, b + 1, v)
    ensures forall at: nat :: Placed(states, steps, n, k, b, want, at) ==> Placed(states, steps, n, k, b + 1, want, at)
  {
    var b' := b + 1;
    forall v: nat | LoadedHead(states, steps, n, k, b, v) ensures LoadedHead(states, steps, n, k, b', v) {
      var x :| k < x < b && x < |steps| && x < |states| && HeadOf(states[x], steps[x], n, v);
      assert HeadOf(states[x], steps[x], n, v);
    }
    forall v: nat | HeadOf(states[b], steps[b], n, v) ensures LoadedHead(states, steps, n, k, b', v) {
    }
    forall at: nat | Placed(states, steps, n, k, b, want, at) ensures Placed(states, steps, n, k, b', want, at) {
      var v: nat :| LoadedHead(states, steps, n, k, b, v) && StartFor(want, v, at);
      assert LoadedHead(states, steps, n, k, b', v);
    }
  }

  lemma StartsNext(c: Config, states: seq<GState>, steps: seq<GStep>, n: nat, k: nat, b: nat, want: Want)
    requires IsGRun(c, states, steps) && k < b < |steps| && Starts(states, steps, n, k, b, want)
    ensures Starts(states, steps, n, k, b + 1, want)
  {
    assert GFollows(c, states[b], steps[b], states[b + 1]);
    LoadStays(states, steps, n, k, b, want);
    if CreatorStep(steps[b]) && steps[b].c == n {
    } else {
      OthersLeaveIt(c, states[b], steps[b], n);
    }
  }

  lemma StartsFirst(c: Config, states: seq<GState>, steps: seq<GStep>, k: nat, want: Want)
    requires IsGRun(c, states, steps) && k < |steps| && steps[k] == New(want)
    ensures Starts(states, steps, |states[k].creators|, k, k + 1, want)
  {
    assert GFollows(c, states[k], steps[k], states[k + 1]);
  }

  lemma {:induction false} StartsRun(c: Config, states: seq<GState>, steps: seq<GStep>, k: nat, b: nat, want: Want)
    requires IsGRun(c, states, steps) && k < b < |states| && steps[k] == New(want)
    ensures Starts(states, steps, |states[k].creators|, k, b, want)
    decreases b
  {
    if b == k + 1 {
      StartsFirst(c, states, steps, k, want);
    } else {
      StartsRun(c, states, steps, k, b - 1, want);
      StartsNext(c, states, steps, |states[k].creators|, k, b - 1, want);
    }
  }

  /**
    The handle that a create or resume returned, as long as it lives: its group has
    the id asked for, or the number of its entry when none was, and it started at
    the head v that the call loaded, or at the saved tail when that is below v.
   */
  lemma HandleOutcome(c: Config, states: seq<GState>, steps: seq<GStep>, k: nat, b: nat, want: Want, j: nat) returns (v: nat)
    requires IsGRun(c, states, steps) && k < b < |states| && steps[k] == New(want)
    requires j < |states[b].entries| && states[b].entries[j].phase.Live?
    requires states[b].entries[j].holder == |states[k].creators|
    ensures states[b].entries[j].id == (if want.id != 0 then want.id else j + 1)
    ensures LoadedHead(states, steps, |states[k].creators|, k, b, v)
    ensures states[b].entries[j].start == (if want.Resume? && want.t < v then want.t else v)
  {
    var n := |states[k].creators|;
    OpenedRun(c, states, steps, b, j);
    LabelRun(c, states, steps, k, b, want);
    StartsRun(c, states, steps, k, b, want);
    assert Lives(states[b], j, n);
    v :| LoadedHead(states, steps, n, k, b, v) && StartFor(want, v, states[b].entries[j].start);
  }
}

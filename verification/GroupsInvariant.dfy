/**
  The invariant of the group machine, kept by every step. For the entries in
  `ok` it also says what their handles have delivered; that part is kept as long
  as those entries themselves are not overrun (`Retained`), whatever happens to
  the others.
 */
module GroupsInvariant {
  import opened Payload
  import opened Words
  import opened Spsc
  import opened SpscInvariant
  import opened SpscRuns
  import opened Groups

  // ------------------------------------------------------------ invariant

  /** `got` is the contiguous slice of published payloads from `start`, as delivered. */
  ghost predicate Slice(published: seq<Bytes>, start: nat, got: seq<Bytes>) {
    && start + |got| <= |published|
    && forall k :: 0 <= k < |got| ==> got[k] == Wire(published[start + k])
  }

  /** Where the handle of a live entry stands, whatever it has read. */
  predicate PopperAt(e: Entry) {
    match e.popper
    case CIdle => true
    case Asked(_) => true
    case HasOwn(_, t) => t == e.tail
    case HasSeen(_, t, v) => t == e.tail && v == e.seen
    case AtHeader(_, t) => t == e.tail < e.seen
    case Draining(_, t, _, _) => t == e.tail < e.seen
    case Consume(_, t, _) => t == e.tail < e.seen
    case Peeked(t, _) => t == e.tail < e.seen
    case Releasing(_) => e.tail < e.seen
    case Release(t, _) => t == e.tail < e.seen
  }

  /** The handle behind a live entry; with ok, also what it has read and delivered. */
  ghost predicate HandleInv(base: State, e: Entry, ok: bool) {
    && e.start <= e.tail <= e.seen <= base.head
    && |e.delivered| == e.tail - e.start
    && PopperAt(e)
    && (ok ==> Slice(base.published, e.start, e.delivered) && ConsumerInv(View(base, e)))
  }

  ghost predicate EntryInv(base: State, e: Entry, ok: bool) {
    && (e.active <==> !e.phase.Free?)
    && (e.phase.Dead? ==> e.tail <= base.head)
    && (e.phase.Live? ==> HandleInv(base, e, ok))
  }

  ghost predicate Holder(entries: seq<Entry>, i: nat, n: nat) {
    i < |entries| && entries[i].phase.Building? && entries[i].holder == n
  }

  ghost predicate Winner(entries: seq<Entry>, i: nat, n: nat) {
    i < |entries| && entries[i].active && entries[i].winner == n
  }

  /** Entry whose compare-and-swap this call won and has not undone, or -1. */
  function Claim(m: Creator): int {
    match m
    case Won(i, _, _) => i
    case Named(i, _, _) => i
    case Loaded(i, _, _, _) => i
    case Stored(i, _, _, _) => i
    case Ready(i, _, _) => i
    case Restoring(i, _, _, won) => if won then i else -1
    case HasRestoreHead(i, _, _, won) => if won then i else -1
    case Resumed(i, _, _, won) => if won then i else -1
    case _ => -1
  }

  /** Entry this call is still setting up, or -1. */
  function Holding(m: Creator): int {
    match m
    case Won(i, _, _) => i
    case Named(i, _, _) => i
    case Loaded(i, _, _, _) => i
    case Stored(i, _, _, _) => i
    case Restoring(i, _, _, _) => i
    case HasRestoreHead(i, _, _, _) => i
    case _ => -1
  }

  ghost predicate CreatorInv(head: nat, entries: seq<Entry>, n: nat, m: Creator) {
    && (Claim(m) >= 0 ==> Winner(entries, Claim(m), n))
    && (Holding(m) >= 0 ==> Holder(entries, Holding(m), n))
    && match m
       case Scanning(_, began, _) => began <= head
       case Won(_, began, _) => began <= head
       case Named(_, began, _) => began <= head
       case Loaded(_, began, _, h) => began <= h <= head
       case Stored(i, began, _, h) => began <= h <= head && i < |entries| && entries[i].tail == h
       case Ready(_, began, h) => began <= h <= head
       case Joining(_, began, _) => began <= head
       case Restoring(_, began, _, _) => began <= head
       case HasRestoreHead(_, _, v, _) => v <= head
       case Resumed(_, t, at, _) => at <= t && at <= head
       case _ => true
  }

  function Actives(entries: seq<Entry>): nat {
    if entries == [] then 0
    else Actives(entries[..|entries| - 1]) + (if entries[|entries| - 1].active then 1 else 0)
  }

  ghost predicate ScanInv(g: GState) {
    && (forall j :: j in g.watch ==> j < |g.entries| && Settled(g.entries[j]))
    && (forall j :: j in g.watch ==> j < |g.tails| && g.tails[j] <= g.entries[j].tail)
    && g.ringTail <= g.base.tail
    && match g.scan
       case SIdle => true
       case SAt(i, min) => forall j :: j in g.watch && j < i ==> min <= g.entries[j].tail
       case STail(i, min) => forall j :: j in g.watch && j < i ==> min <= g.entries[j].tail
       case SDone(r) => g.base.head <= UINT64_MAX ==> forall j :: j in g.watch ==> r <= g.entries[j].tail
  }

  predicate Settled(e: Entry) {
    e.phase.Live? || e.phase.Dead?
  }

  ghost predicate EntriesInv(g: GState, ok: set<nat>) {
    forall i :: 0 <= i < |g.entries| ==> EntryInv(g.base, g.entries[i], i in ok)
  }

  ghost predicate CreatorsInv(g: GState) {
    forall n :: 0 <= n < |g.creators| ==> CreatorInv(g.base.head, g.entries, n, g.creators[n])
  }

  ghost predicate GInv(c: Config, g: GState, ok: set<nat>) {
    && GShape(c, g) && Inv(c, g.base)
    && EntriesInv(g, ok) && CreatorsInv(g) && ScanInv(g)
    && Actives(g.entries) + g.undone == g.wins
  }

  /** None of these groups, if live, is behind the oldest position still in the ring. */
  ghost predicate Retained(c: Config, g: GState, ok: set<nat>) {
    forall i :: i in ok && i < |g.entries| && g.entries[i].phase.Live? ==>
      Oldest(c.capacity, g.base) <= g.entries[i].tail
  }

  // ------------------------------------------------------------- accounting

  lemma {:induction false} ActivesUpdate(entries: seq<Entry>, i: nat, e: Entry)
    requires i < |entries|
    ensures Actives(entries[i := e]) ==
      Actives(entries) - (if entries[i].active then 1 else 0) + (if e.active then 1 else 0)
    decreases |entries|
  {
    var n := |entries| - 1;
    if i == n {
      assert entries[i := e][..n] == entries[..n];
    } else {
      ActivesUpdate(entries[..n], i, e);
      assert entries[i := e][..n] == entries[..n][i := e];
    }
  }

  lemma {:induction false} ActivesNone(entries: seq<Entry>)
    requires forall i :: 0 <= i < |entries| ==> !entries[i].active
    ensures Actives(entries) == 0
  {
    if entries != [] { ActivesNone(entries[..|entries| - 1]); }
  }

  // ------------------------------------------------------------- base steps

  lemma SliceGrows(p: seq<Bytes>, p': seq<Bytes>, start: nat, got: seq<Bytes>)
    requires p <= p' && Slice(p, start, got)
    ensures Slice(p', start, got)
  {
  }

  lemma EntryGrows(b: State, b': State, e: Entry, ok: bool)
    requires EntryInv(b, e, ok) && b.published <= b'.published && b.head <= b'.head
    ensures EntryInv(b', e, ok)
  {
  }

  lemma BaseInv(c: Config, g: GState, e: Step, ok: set<nat>)
    requires GInv(c, g, ok) && GEnabled(c, g, Base(e))
    ensures GInv(c, GApply(c, g, Base(e)), ok)
  {
    var g' := GApply(c, g, Base(e));
    StepInv(c, g.base, e);
    StepExtends(c, g.base, e);
    forall i | 0 <= i < |g.entries| ensures EntryInv(g'.base, g.entries[i], i in ok) {
      EntryGrows(g.base, g'.base, g.entries[i], i in ok);
    }
    CreatorsGrow(g, g');
  }

  lemma CreatorsGrow(g: GState, g': GState)
    requires CreatorsInv(g) && g.base.head <= g'.base.head
    requires g'.entries == g.entries && g'.creators == g.creators
    ensures CreatorsInv(g')
  {
    forall n | 0 <= n < |g.creators|
      ensures CreatorInv(g'.base.head, g.entries, n, g.creators[n])
    {
      assert CreatorInv(g.base.head, g.entries, n, g.creators[n]);
    }
  }

  // ----------------------------------------------------------- handle steps

  /** A handle at a position still in the ring picks up exactly that payload. */
  lemma HandleReads(c: Config, base: State, e: Entry, k: CStep, ok: bool)
    requires Inv(c, base) && EntryShape(c, e) && e.phase.Live? && EntryInv(base, e, ok)
    requires HandleEnabled(c, base, e, k)
    requires ok && e.tail < base.head ==> SlotHas(c.capacity, base, e.tail)
    ensures EntryInv(base, HandleApply(c, base, e, k), ok)
    ensures e.tail <= HandleApply(c, base, e, k).tail
  {
    if k.StoreTail? || k.ReleaseStore? { HandleAdvances(c, base, e, k, ok); }
    else if k.ReadByte? { HandleReadsByte(c, base, e, ok); }
    else { HandleStays(c, base, e, k, ok); }
  }

  lemma HandleAdvances(c: Config, base: State, e: Entry, k: CStep, ok: bool)
    requires Shape(c, base) && EntryShape(c, e) && HandleInv(base, e, ok) && base.head == |base.published|
    requires HandleEnabled(c, base, e, k) && (k.StoreTail? || k.ReleaseStore?)
    requires ok && e.tail < base.head ==> SlotHas(c.capacity, base, e.tail)
    ensures HandleInv(base, HandleApply(c, base, e, k), ok)
    ensures e.tail <= HandleApply(c, base, e, k).tail
  {
    ViewShape(c, base, e);
    var e', d := HandleApply(c, base, e, k), base.published[e.tail];
    if ok && k.ReleaseStore? {
      var pay := base.slots[e.tail % c.capacity].payload;
      assert pay[..e.popper.n] == pay[..|d|][..e.popper.n];
    }
    assert ok ==> e'.delivered == e.delivered + [Wire(d)];
  }

  lemma HandleReadsByte(c: Config, base: State, e: Entry, ok: bool)
    requires Shape(c, base) && EntryShape(c, e) && HandleInv(base, e, ok) && base.head == |base.published|
    requires HandleEnabled(c, base, e, ReadByte)
    requires ok && e.tail < base.head ==> SlotHas(c.capacity, base, e.tail)
    ensures HandleInv(base, HandleApply(c, base, e, ReadByte), ok)
    ensures e.tail == HandleApply(c, base, e, ReadByte).tail
  {
    ViewShape(c, base, e);
    if ok {
      var d, n := base.published[e.tail], |e.popper.got|;
      var pay := base.slots[e.tail % c.capacity].payload;
      assert pay[n] == pay[..|d|][n] == d[n];
      assert d[..n + 1] == d[..n] + [d[n]];
    }
  }

  lemma HandleStays(c: Config, base: State, e: Entry, k: CStep, ok: bool)
    requires Shape(c, base) && EntryShape(c, e) && HandleInv(base, e, ok) && base.head == |base.published|
    requires HandleEnabled(c, base, e, k) && !k.StoreTail? && !k.ReleaseStore? && !k.ReadByte?
    requires ok && e.tail < base.head ==> SlotHas(c.capacity, base, e.tail)
    ensures HandleInv(base, HandleApply(c, base, e, k), ok)
    ensures e.tail == HandleApply(c, base, e, k).tail
  {
    ViewShape(c, base, e);
  }

  lemma HandleStepInv(c: Config, g: GState, i: nat, k: CStep, ok: set<nat>)
    requires GInv(c, g, ok) && Retained(c, g, ok) && GEnabled(c, g, Handle(i, k))
    ensures GInv(c, GApply(c, g, Handle(i, k)), ok)
  {
    var g', e := GApply(c, g, Handle(i, k)), g.entries[i];
    GShapeKept(c, g, Handle(i, k));
    assert EntryInv(g.base, e, i in ok);
    assert i in ok && e.tail < g.base.head ==> SlotHas(c.capacity, g.base, e.tail);
    HandleReads(c, g.base, e, k, i in ok);
    ActivesUpdate(g.entries, i, g'.entries[i]);
    EntryRaised(g, g', i, ok);
  }

  /** One entry's handle moved on; its claim, phase and activity did not change. */
  lemma EntryRaised(g: GState, g': GState, i: nat, ok: set<nat>)
    requires i < |g.entries| && EntriesInv(g, ok) && CreatorsInv(g) && ScanInv(g)
    requires |g'.entries| == |g.entries| && g' == SetEntry(g, i, g'.entries[i])
    requires EntryInv(g.base, g'.entries[i], i in ok)
    requires Settled(g.entries[i]) && Settled(g'.entries[i])
    requires g'.entries[i].active && g.entries[i].tail <= g'.entries[i].tail
    requires g'.entries[i].winner == g.entries[i].winner
    ensures EntriesInv(g', ok) && CreatorsInv(g') && ScanInv(g')
  {
    forall j | 0 <= j < |g'.entries| ensures EntryInv(g'.base, g'.entries[j], j in ok) {
      assert EntryInv(g.base, g.entries[j], j in ok);
    }
    forall n | 0 <= n < |g.creators|
      ensures CreatorInv(g.base.head, g'.entries, n, g.creators[n])
    {
      assert CreatorInv(g.base.head, g.entries, n, g.creators[n]);
    }
  }

  lemma CrashInv(c: Config, g: GState, i: nat, ok: set<nat>)
    requires GInv(c, g, ok) && GEnabled(c, g, Crash(i))
    ensures GInv(c, GApply(c, g, Crash(i)), ok)
  {
    var g' := GApply(c, g, Crash(i));
    GShapeKept(c, g, Crash(i));
    assert EntryInv(g.base, g.entries[i], i in ok);
    ActivesUpdate(g.entries, i, g'.entries[i]);
    EntryRaised(g, g', i, ok);
  }

  // ---------------------------------------------------------- creator steps

  /** How creator n may change entry i. */
  ghost predicate MayTouch(g: GState, g': GState, n: nat, i: nat)
    requires i < |g.entries| && i < |g'.entries|
  {
    || g'.entries[i] == g.entries[i]
    || !g.entries[i].active
    || (Holder(g.entries, i, n) && (g'.entries[i].active || g.entries[i].winner == n) && g'.entries[i].winner == g.entries[i].winner)
    || (g.entries[i].phase.Dead? && i !in g'.watch && g'.entries[i].active && g'.entries[i].winner == g.entries[i].winner)
  }

  /** Creator n changed, and with it at most the one entry it claims or holds. */
  lemma CreatorMoved(g: GState, g': GState, n: nat, i: nat, ok: set<nat>)
    requires n < |g.creators| && i < |g.entries|
    requires EntriesInv(g, ok) && CreatorsInv(g) && ScanInv(g)
    requires g'.base == g.base
    requires |g'.creators| == |g.creators| && g'.creators == g.creators[n := g'.creators[n]]
    requires |g'.entries| == |g.entries| && g'.entries == g.entries[i := g'.entries[i]]
    requires g'.scan == g.scan && g'.watch <= g.watch && g'.tails == g.tails && g'.ringTail == g.ringTail
    requires EntryInv(g.base, g'.entries[i], i in ok)
    requires CreatorInv(g.base.head, g'.entries, n, g'.creators[n])
    requires MayTouch(g, g', n, i)
    ensures EntriesInv(g', ok) && CreatorsInv(g') && ScanInv(g')
  {
    forall j | 0 <= j < |g'.entries| ensures EntryInv(g'.base, g'.entries[j], j in ok) {
      assert EntryInv(g.base, g.entries[j], j in ok);
    }
    forall m | 0 <= m < |g'.creators|
      ensures CreatorInv(g.base.head, g'.entries, m, g'.creators[m])
    {
      if m != n {
        assert CreatorInv(g.base.head, g.entries, m, g.creators[m]);
        assert EntryInv(g.base, g.entries[i], i in ok);
      }
    }
    assert i in g'.watch ==> g'.entries[i] == g.entries[i];
  }

  /** Steps by which a creator claims, fills in or gives back its own entry. */
  predicate CreatorStep(e: GStep) {
    e.Cas? || e.Name? || e.LoadStart? || e.StoreStart? || e.Allocate? || e.Join? || e.RestoreLoad? || e.RestoreStore?
  }

  /** A creator's step changes its own record and the one entry it stands at. */
  lemma CreatorFrame(c: Config, g: GState, e: GStep)
    requires GShape(c, g) && GEnabled(c, g, e) && CreatorStep(e)
    ensures var g', n := GApply(c, g, e), e.c;
      && n < |g.creators| && !g.creators[n].Failed? && g.creators[n].i < |g.entries|
      && g'.base == g.base && g'.scan == g.scan && g'.watch <= g.watch && g'.tails == g.tails && g'.ringTail == g.ringTail
      && |g'.creators| == |g.creators| && g'.creators == g.creators[n := g'.creators[n]]
      && |g'.entries| == |g.entries| && g'.entries == g.entries[g.creators[n].i := g'.entries[g.creators[n].i]]
  {
  }

  /** The creator of the step and the entry it stands at satisfy their invariants. */
  ghost predicate CreatorBase(c: Config, g: GState, e: GStep, sound: bool) {
    && GShape(c, g) && GEnabled(c, g, e) && CreatorStep(e)
    && e.c < |g.creators| && !g.creators[e.c].Failed? && g.creators[e.c].i < |g.entries|
    && CreatorInv(g.base.head, g.entries, e.c, g.creators[e.c])
    && EntryInv(g.base, g.entries[g.creators[e.c].i], sound)
    && g.base.head == |g.base.published|
  }

  lemma EntryPart(c: Config, g: GState, e: GStep, sound: bool)
    requires CreatorBase(c, g, e, sound)
    ensures var i := g.creators[e.c].i;
      i < |GApply(c, g, e).entries| && EntryInv(g.base, GApply(c, g, e).entries[i], sound)
  {
  }

  lemma ClaimPart(c: Config, g: GState, e: GStep, sound: bool)
    requires CreatorBase(c, g, e, sound) && (e.Cas? || e.Join?)
    ensures var g' := GApply(c, g, e);
      e.c < |g'.creators| && CreatorInv(g.base.head, g'.entries, e.c, g'.creators[e.c])
  {
  }

  lemma FillPart(c: Config, g: GState, e: GStep, sound: bool)
    requires CreatorBase(c, g, e, sound) && !e.Cas? && !e.Join?
    ensures var g' := GApply(c, g, e);
      e.c < |g'.creators| && CreatorInv(g.base.head, g'.entries, e.c, g'.creators[e.c])
  {
  }

  lemma CreatorPart(c: Config, g: GState, e: GStep, sound: bool)
    requires CreatorBase(c, g, e, sound)
    ensures var g' := GApply(c, g, e);
      e.c < |g'.creators| && CreatorInv(g.base.head, g'.entries, e.c, g'.creators[e.c])
  {
    if e.Cas? || e.Join? { ClaimPart(c, g, e, sound); } else { FillPart(c, g, e, sound); }
  }

  /** A creator touches only an entry that is free, that it holds, or whose handle died. */
  lemma OwnerPart(c: Config, g: GState, e: GStep, sound: bool)
    requires CreatorBase(c, g, e, sound)
    ensures var g', i := GApply(c, g, e), g.creators[e.c].i;
      i < |g'.entries| && MayTouch(g, g', e.c, i)
  {
  }

  lemma CountPart(c: Config, g: GState, e: GStep, sound: bool)
    requires CreatorBase(c, g, e, sound) && Actives(g.entries) + g.undone == g.wins
    ensures Actives(GApply(c, g, e).entries) + GApply(c, g, e).undone == GApply(c, g, e).wins
  {
    var g', i := GApply(c, g, e), g.creators[e.c].i;
    CreatorFrame(c, g, e);
    ActivesUpdate(g.entries, i, g'.entries[i]);
  }

  lemma CreatorStepInv(c: Config, g: GState, e: GStep, ok: set<nat>)
    requires GInv(c, g, ok) && GEnabled(c, g, e) && CreatorStep(e)
    ensures GInv(c, GApply(c, g, e), ok)
  {
    var g', n := GApply(c, g, e), e.c;
    var i := g.creators[n].i;
    GShapeKept(c, g, e);
    CreatorFrame(c, g, e);
    assert CreatorBase(c, g, e, i in ok);
    EntryPart(c, g, e, i in ok);
    CreatorPart(c, g, e, i in ok);
    OwnerPart(c, g, e, i in ok);
    CountPart(c, g, e, i in ok);
    CreatorMoved(g, g', n, i, ok);
  }

  lemma NewInv(c: Config, g: GState, want: Want, ok: set<nat>)
    requires GInv(c, g, ok)
    ensures GInv(c, GApply(c, g, New(want)), ok)
  {
    var g' := GApply(c, g, New(want));
    forall n | 0 <= n < |g'.creators|
      ensures CreatorInv(g.base.head, g.entries, n, g'.creators[n])
    {
      assert n < |g.creators| ==> CreatorInv(g.base.head, g.entries, n, g.creators[n]);
    }
  }

  // ------------------------------------------------------------- scan steps

  lemma ScanStartInv(c: Config, g: GState, ok: set<nat>)
    requires GInv(c, g, ok) && GEnabled(c, g, ScanStart)
    ensures GInv(c, GApply(c, g, ScanStart), ok)
  {
  }

  lemma ScanStepInv(c: Config, g: GState, e: GStep, ok: set<nat>)
    requires GInv(c, g, ok) && GEnabled(c, g, e)
    requires e.ScanActive? || e.ScanTail? || e.ScanEnd?
    ensures GInv(c, GApply(c, g, e), ok)
  {
    forall j | j in g.watch ensures g.entries[j].active && g.entries[j].tail <= g.base.head {
      assert EntryInv(g.base, g.entries[j], j in ok);
    }
  }

  // ------------------------------------------------------------ every step

  lemma GStepInv(c: Config, g: GState, e: GStep, ok: set<nat>)
    requires GInv(c, g, ok) && GEnabled(c, g, e)
    requires e.Handle? ==> Retained(c, g, ok)
    ensures GInv(c, GApply(c, g, e), ok)
  {
    match e
    case Base(b) => BaseInv(c, g, b, ok);
    case Handle(i, k) => HandleStepInv(c, g, i, k, ok);
    case New(want) => NewInv(c, g, want, ok);
    case Crash(i) => CrashInv(c, g, i, ok);
    case ScanStart => ScanStartInv(c, g, ok);
    case ScanActive(_) => ScanStepInv(c, g, e, ok);
    case ScanTail(_) => ScanStepInv(c, g, e, ok);
    case ScanEnd(_) => ScanStepInv(c, g, e, ok);
    case _ => CreatorStepInv(c, g, e, ok);
  }

  lemma GInitInv(c: Config, g: GState, ok: set<nat>)
    requires GInit(c, g)
    ensures GInv(c, g, ok)
  {
    InitInv(c, g.base);
    ActivesNone(g.entries);
  }

  lemma GRunStep(c: Config, states: seq<GState>, steps: seq<GStep>, i: nat, ok: set<nat>)
    requires IsGRun(c, states, steps) && i < |steps| && GInv(c, states[i], ok)
    requires Retained(c, states[i], ok)
    ensures GInv(c, states[i + 1], ok)
  {
    var g, e := states[i], steps[i];
    assert GFollows(c, g, e, states[i + 1]);
    GStepInv(c, g, e, ok);
  }

  /** From a state on, the invariant lasts as long as the groups in ok are retained. */
  lemma {:induction false} GRunFrom(c: Config, states: seq<GState>, steps: seq<GStep>, r: nat, n: nat, ok: set<nat>)
    requires IsGRun(c, states, steps) && r <= n < |states| && GInv(c, states[r], ok)
    requires forall k :: r <= k < n ==> Retained(c, states[k], ok)
    ensures GInv(c, states[n], ok)
    decreases n
  {
    if r < n {
      GRunFrom(c, states, steps, r, n - 1, ok);
      GRunStep(c, states, steps, n - 1, ok);
    }
  }

  /** Every state of every run satisfies the invariant. */
  lemma GRunInv(c: Config, states: seq<GState>, steps: seq<GStep>, n: nat)
    requires IsGRun(c, states, steps) && n < |states|
    ensures GInv(c, states[n], {})
  {
    GInitInv(c, states[0], {});
    GRunFrom(c, states, steps, 0, n, {});
  }
}

/**
  Consumer groups over the ring, as interleaved steps on top of the SPSC
  machine: creators claiming one of 16 entries by a weak compare-and-swap,
  resuming from a checkpoint, popping with a tail of their own, and the
  one-entry-at-a-time scan of nabd_min_tail. Counters are unbounded here: group
  pops compare with `>=`, so they are meant for counters that have not wrapped.

  A group's handle reads with the same steps as the SPSC consumer, applied to
  its own tail; only the emptiness check differs.
 */
module Groups {
  import opened Payload
  import opened Words
  import opened Layout
  import opened Spsc

  /** What a caller asked for: a group, or a group restored to a saved tail. */
  datatype Want = Create(id: nat) | Resume(id: nat, t: nat)

  /** One call of nabd_consumer_create or nabd_consumer_resume. `began` is the
      head when the call started. */
  datatype Creator =
    | Scanning(i: nat, began: nat, want: Want)
    | Won(i: nat, began: nat, want: Want)
    | Named(i: nat, began: nat, want: Want)
    | Loaded(i: nat, began: nat, want: Want, h: nat)
    | Stored(i: nat, began: nat, want: Want, h: nat)
    | Ready(i: nat, began: nat, h: nat)
    | Joining(i: nat, began: nat, want: Want)
    | Restoring(i: nat, began: nat, t: nat, won: bool)
    | HasRestoreHead(i: nat, t: nat, v: nat, won: bool)
    | Resumed(i: nat, t: nat, at: nat, won: bool)
    | Failed

  /** Free; claimed by a call still running; in use; its handle died. */
  datatype Phase = Free | Building | Live | Dead

  /** A group entry in shared memory with its handle's program counter, and the
      history of this handle: where it started and what it delivered. */
  datatype Entry = Entry(
    active: bool, id: nat, tail: nat,
    phase: Phase, holder: nat, winner: nat,
    start: nat, seen: nat, popper: Consumer, delivered: seq<Bytes>)

  datatype Scan = SIdle | SAt(i: nat, min: nat) | STail(i: nat, min: nat) | SDone(result: nat)

  /** Shared memory with the entries, the calls made so far, and a scan, with the history of
      its beginning: the groups that were in use, and the tails. */
  datatype GState = GState(
    base: State, entries: seq<Entry>, creators: seq<Creator>,
    wins: nat, undone: nat,
    scan: Scan, watch: set<nat>, tails: seq<nat>, ringTail: nat)

  datatype GStep =
    | Base(e: Step)
    | Handle(i: nat, k: CStep)
    | New(want: Want)
    | Cas(c: nat, ok: bool)          // ok = false also when it fails spuriously
    | Name(c: nat)
    | LoadStart(c: nat, v: nat)
    | StoreStart(c: nat)
    | Allocate(c: nat, ok: bool)
    | Join(c: nat, ok: bool)
    | RestoreLoad(c: nat, v: nat)
    | RestoreStore(c: nat)
    | Crash(i: nat)
    | ScanStart
    | ScanActive(seen: bool)
    | ScanTail(v: nat)
    | ScanEnd(v: nat)

  // ------------------------------------------------------------ handle steps

  /** The SPSC state as group handle e sees it: its own tail and program counter. */
  function View(base: State, e: Entry): State {
    base.(tail := e.tail, cons := e.popper, seenHead := e.seen, delivered := e.delivered)
  }

  predicate HandleEnabled(c: Config, base: State, e: Entry, k: CStep) {
    CEnabled(c, View(base, e), k)
  }

  ghost predicate EntryShape(c: Config, e: Entry) {
    c.arith.Unbounded? && ConsumerShape(c, e.popper)
  }

  lemma ViewShape(c: Config, base: State, e: Entry)
    requires Shape(c, base) && EntryShape(c, e)
    ensures Shape(c, View(base, e))
  {
  }

  /** nabd_consumer_pop and its peek and release: EMPTY is `tail >= head`. */
  function HandleApply(c: Config, base: State, e: Entry, k: CStep): Entry
    requires Shape(c, base) && EntryShape(c, e) && HandleEnabled(c, base, e, k)
  {
    ViewShape(c, base, e);
    if k.CheckEmpty? then
      if e.popper.t >= e.popper.v then e.(popper := CIdle)
      else e.(popper := AtHeader(e.popper.pop, e.popper.t))
    else
      var v := CApply(c, View(base, e), k);
      e.(tail := v.tail, popper := v.cons, seen := v.seenHead, delivered := v.delivered)
  }

  // ------------------------------------------------------------------ steps

  ghost predicate GShape(c: Config, g: GState) {
    && c.arith.Unbounded? && Shape(c, g.base)
    && |g.entries| == MAX_CONSUMERS
    && (forall i :: 0 <= i < |g.entries| ==> EntryShape(c, g.entries[i]))
    && (forall n :: 0 <= n < |g.creators| ==> CreatorShape(g.creators[n]))
    && (g.scan.SAt? ==> g.scan.i <= MAX_CONSUMERS) && (g.scan.STail? ==> g.scan.i < MAX_CONSUMERS)
  }

  predicate CreatorShape(m: Creator) {
    (!m.Failed? ==> m.i < MAX_CONSUMERS) && (m.Joining? ==> m.want.Resume?)
  }

  predicate GEnabled(c: Config, g: GState, e: GStep) {
    match e
    case Base(b) => Enabled(c, g.base, b)
    case Handle(i, k) => i < |g.entries| && g.entries[i].phase.Live? && HandleEnabled(c, g.base, g.entries[i], k)
    case New(_) => true
    case Cas(n, ok) =>
      && n < |g.creators| && g.creators[n].Scanning? && g.creators[n].i < |g.entries|
      && (ok ==> !g.entries[g.creators[n].i].active)
    case Name(n) => n < |g.creators| && g.creators[n].Won?
    case LoadStart(n, v) =>
      n < |g.creators| && g.creators[n].Named? && g.creators[n].began <= v <= g.base.head
    case StoreStart(n) => n < |g.creators| && g.creators[n].Loaded?
    case Allocate(n, _) => n < |g.creators| && g.creators[n].Stored?
    case Join(n, ok) =>
      && n < |g.creators| && g.creators[n].Joining? && g.creators[n].i < |g.entries|
      // one handle per group: a matching entry is joined only after its handle died
      && (Matches(g, n) && ok ==> g.entries[g.creators[n].i].phase.Dead?)
    case RestoreLoad(n, v) =>
      n < |g.creators| && g.creators[n].Restoring? && g.creators[n].began <= v <= g.base.head
    case RestoreStore(n) => n < |g.creators| && g.creators[n].HasRestoreHead?
    case Crash(i) => i < |g.entries| && g.entries[i].phase.Live?
    case ScanStart => g.scan.SIdle? || g.scan.SDone?
    // relaxed loads: current or older values; only what was finished before the scan must be
    // seen, as it was then or later
    case ScanActive(seen) => g.scan.SAt? && g.scan.i < |g.entries| && (g.scan.i in g.watch ==> seen)
    case ScanTail(v) =>
      && g.scan.STail? && g.scan.i < |g.entries| && v <= g.base.head
      && (g.scan.i in g.watch ==> g.scan.i < |g.tails| && g.tails[g.scan.i] <= v <= g.entries[g.scan.i].tail)
    case ScanEnd(v) => g.scan.SAt? && g.scan.i == MAX_CONSUMERS && g.ringTail <= v <= g.base.tail
  }

  /** The test of nabd_consumer_join on one entry. */
  predicate Matches(g: GState, n: nat)
    requires n < |g.creators| && g.creators[n].Joining? && g.creators[n].i < |g.entries|
  {
    g.entries[g.creators[n].i].active && g.entries[g.creators[n].i].id == g.creators[n].want.id
  }

  /** create returned NULL: a plain create fails, a resume goes on to join. */
  function AfterNoCreate(began: nat, want: Want): Creator {
    if want.Resume? && want.id != 0 then Joining(0, began, want) else Failed
  }

  function SetEntry(g: GState, i: nat, e: Entry): GState
    requires i < |g.entries|
  {
    g.(entries := g.entries[i := e])
  }

  function SetCreator(g: GState, n: nat, m: Creator): GState
    requires n < |g.creators|
  {
    g.(creators := g.creators[n := m])
  }

  function GApply(c: Config, g: GState, e: GStep): GState
    requires GShape(c, g) && GEnabled(c, g, e)
  {
    match e
    case Base(b) => g.(base := Apply(c, g.base, b))
    case Handle(i, k) => SetEntry(g, i, HandleApply(c, g.base, g.entries[i], k))
    case New(want) => g.(creators := g.creators + [Scanning(0, g.base.head, want)])
    case Cas(n, ok) =>
      var m := g.creators[n];
      if ok then
        SetCreator(SetEntry(g, m.i, g.entries[m.i].(active := true, phase := Building, holder := n, winner := n)),
                   n, Won(m.i, m.began, m.want)).(wins := g.wins + 1)
      else
        SetCreator(g, n, if m.i + 1 < MAX_CONSUMERS then Scanning(m.i + 1, m.began, m.want) else AfterNoCreate(m.began, m.want))
    case Name(n) =>
      var m := g.creators[n];
      var id := if m.want.id != 0 then m.want.id else m.i + 1;
      SetCreator(SetEntry(g, m.i, g.entries[m.i].(id := id)), n, Named(m.i, m.began, m.want))
    case LoadStart(n, v) =>
      var m := g.creators[n];
      SetCreator(g, n, Loaded(m.i, m.began, m.want, v))
    case StoreStart(n) =>
      var m := g.creators[n];
      SetCreator(SetEntry(g, m.i, g.entries[m.i].(tail := m.h)), n, Stored(m.i, m.began, m.want, m.h))
    case Allocate(n, ok) =>
      var m := g.creators[n];
      if !ok then
        SetCreator(SetEntry(g, m.i, g.entries[m.i].(active := false, phase := Free)),
                   n, AfterNoCreate(m.began, m.want)).(undone := g.undone + 1)
      else if m.want.Resume? then
        SetCreator(g, n, Restoring(m.i, m.began, m.want.t, true))
      else
        SetCreator(SetEntry(g, m.i, Opened(g.entries[m.i], m.h, m.h)), n, Ready(m.i, m.began, m.h))
    case Join(n, ok) =>
      var m := g.creators[n];
      if Matches(g, n) && ok then
        SetCreator(SetEntry(g, m.i, g.entries[m.i].(phase := Building, holder := n)),
                   n, Restoring(m.i, m.began, m.want.t, false)).(watch := g.watch - {m.i})
      else if Matches(g, n) || m.i + 1 == MAX_CONSUMERS then SetCreator(g, n, Failed)
      else SetCreator(g, n, Joining(m.i + 1, m.began, m.want))
    case RestoreLoad(n, v) =>
      var m := g.creators[n];
      SetCreator(g, n, HasRestoreHead(m.i, m.t, v, m.won))
    case RestoreStore(n) =>
      var m := g.creators[n];
      var at := if m.t > m.v then m.v else m.t;
      SetCreator(SetEntry(g, m.i, Opened(g.entries[m.i], at, m.v)), n, Resumed(m.i, m.t, at, m.won))
    case Crash(i) =>
      SetEntry(g, i, g.entries[i].(phase := Dead, popper := CIdle))
    case ScanStart =>
      g.(scan := SAt(0, UINT64_MAX),
         watch := (set i | 0 <= i < |g.entries| && (g.entries[i].phase.Live? || g.entries[i].phase.Dead?)),
         tails := seq(|g.entries|, i requires 0 <= i < |g.entries| => g.entries[i].tail),
         ringTail := g.base.tail)
    case ScanActive(seen) =>
      var i := g.scan.i;
      g.(scan := if seen then STail(i, g.scan.min) else SAt(i + 1, g.scan.min))
    case ScanTail(v) =>
      g.(scan := SAt(g.scan.i + 1, if v < g.scan.min then v else g.scan.min))
    case ScanEnd(v) =>
      g.(scan := SDone(if g.scan.min == UINT64_MAX then v else g.scan.min))
  }

  /** A handle is returned to the application with its group's tail at `at`. */
  function Opened(x: Entry, at: nat, seen: nat): Entry {
    x.(tail := at, phase := Live, start := at, seen := seen, popper := CIdle, delivered := [])
  }

  // ------------------------------------------------------------------- runs

  ghost predicate GInit(c: Config, g: GState) {
    && c.arith.Unbounded? && Init(c, g.base)
    && |g.entries| == MAX_CONSUMERS
    && (forall i :: 0 <= i < |g.entries| ==>
          g.entries[i].phase.Free? && !g.entries[i].active && g.entries[i].popper.CIdle?)
    && g.creators == [] && g.wins == g.undone == 0
    && g.scan.SIdle? && g.watch == {} && g.ringTail == 0
  }

  ghost predicate GFollows(c: Config, g: GState, e: GStep, g': GState) {
    GShape(c, g) && GEnabled(c, g, e) && g' == GApply(c, g, e)
  }

  ghost predicate IsGRun(c: Config, states: seq<GState>, steps: seq<GStep>) {
    && |states| == |steps| + 1
    && GInit(c, states[0])
    && forall i :: 0 <= i < |steps| ==> GFollows(c, states[i], steps[i], states[i + 1])
  }

  lemma HandleShapeKept(c: Config, base: State, e: Entry, k: CStep)
    requires Shape(c, base) && EntryShape(c, e) && HandleEnabled(c, base, e, k)
    ensures EntryShape(c, HandleApply(c, base, e, k))
  {
    ViewShape(c, base, e);
    CShapeKept(c, View(base, e), k);
  }

  lemma GShapeKept(c: Config, g: GState, e: GStep)
    requires GShape(c, g) && GEnabled(c, g, e)
    ensures GShape(c, GApply(c, g, e))
  {
    match e
    case Base(b) => ShapeKept(c, g.base, b);
    case Handle(i, k) => HandleShapeKept(c, g.base, g.entries[i], k);
    case _ => OtherShapeKept(c, g, e);
  }

  lemma OtherShapeKept(c: Config, g: GState, e: GStep)
    requires GShape(c, g) && GEnabled(c, g, e) && !e.Base? && !e.Handle?
    ensures GShape(c, GApply(c, g, e))
  {
    OtherEntriesShape(c, g, e);
    OtherCreatorsShape(c, g, e);
  }

  lemma OtherEntriesShape(c: Config, g: GState, e: GStep)
    requires GShape(c, g) && GEnabled(c, g, e) && !e.Base? && !e.Handle?
    ensures var g' := GApply(c, g, e);
      |g'.entries| == |g.entries| && forall j :: 0 <= j < |g'.entries| ==> EntryShape(c, g'.entries[j])
  {
  }

  lemma OtherCreatorsShape(c: Config, g: GState, e: GStep)
    requires GShape(c, g) && GEnabled(c, g, e) && !e.Base? && !e.Handle?
    ensures var g' := GApply(c, g, e);
      && g'.base == g.base
      && (forall n :: 0 <= n < |g'.creators| ==> CreatorShape(g'.creators[n]))
      && (g'.scan.SAt? ==> g'.scan.i <= MAX_CONSUMERS) && (g'.scan.STail? ==> g'.scan.i < MAX_CONSUMERS)
  {
  }
}

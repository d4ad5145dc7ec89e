/**
  nabd_diagnose and nabd_recover on a shared region that holds a ring, and what
  the ring does after a forced reset.
 */
module Recovery {
  import opened Words
  import opened Payload
  import opened BoundedQueue
  import opened Diagnosis
  import R = Ring

  /** A region that may be missing or unmappable; the ring is what its bytes and counters are. */
  class Region {
    const opens: bool       // the read-only open succeeds
    const maps: bool        // the read-only mapping succeeds
    const writable: bool    // opening and mapping it for writing succeeds
    const magic: Word
    const version: Word
    const ring: R.Ring

    function Block(): Control
      reads ring
    {
      Control(magic, version, ring.capacity, ring.head, ring.tail)
    }

    constructor (opens: bool, maps: bool, writable: bool, magic: Word, version: Word, ring: R.Ring)
      ensures this.opens == opens && this.maps == maps && this.writable == writable
      ensures this.magic == magic && this.version == version && this.ring == ring
    {
      this.opens, this.maps, this.writable := opens, maps, writable;
      this.magic, this.version, this.ring := magic, version, ring;
    }

    /** Right magic and version. */
    predicate Ours() {
      magic == NABD_MAGIC && version == NABD_VERSION
    }

    /**
      nabd_diagnose. On a ring whose counters have not wrapped past each other, the
      verdict is HEALTHY exactly when messages are queued, and pending is their
      number; with head wrapped behind tail it is EMPTY although there are some.
     */
    method Diagnose() returns (code: Code, d: Diagnostic)
      ensures code == (if !opens then NotFound else if !maps then SysErr else Ok)
      ensures code != Ok ==> d.state == Incomplete
      ensures code == Ok ==>
        && (d.state == Healthy <==> Ours() && 0 < ring.head - ring.tail <= ring.capacity)
        && (d.state == Health.Empty <==> Ours() && ring.head <= ring.tail)
        && (d.state == VersionError <==> magic == NABD_MAGIC && version != NABD_VERSION)
        && (d.state == Health.Corrupted <==>
              magic != NABD_MAGIC || (Ours() && ring.head - ring.tail > ring.capacity))
        && d.state == Block().State()
      ensures code == Ok && Ours() ==>
        && d.head == ring.head && d.tail == ring.tail && d.capacity == ring.capacity
        && d.pending == (if ring.head >= ring.tail then ring.head - ring.tail else 0)
      ensures code == Ok && Ours() && ring.Valid() ==>
        if ring.tail <= ring.head then
          && d.pending == |ring.Model().published| - ring.Model().consumed
          && (d.state == Healthy <==> !ring.Model().IsEmpty())
          && (d.state == Health.Empty <==> ring.Model().IsEmpty())
        else d.state == Health.Empty && !ring.Model().IsEmpty()
      ensures code == Ok ==>
        d.magicOk == (magic == NABD_MAGIC) && (d.magicOk ==> d.versionOk == (version == NABD_VERSION))
    {
      d := Diagnostic(Health.Corrupted, false, false, 0, 0, 0, 0);
      if !opens { return NotFound, d.(state := Incomplete); }
      if !maps { return SysErr, d.(state := Incomplete); }
      code := Ok;
      CountsQueued(ring);
      d := d.(magicOk := magic == NABD_MAGIC);
      if !d.magicOk { return; }
      d := d.(versionOk := version == NABD_VERSION);
      if !d.versionOk { return Ok, d.(state := VersionError); }
      d := d.(head := ring.head);
      d := d.(tail := ring.tail);
      d := d.(capacity := ring.capacity);
      d := d.(pending := if d.head >= d.tail then d.head - d.tail else 0);
      if d.pending > d.capacity {
        d := d.(state := Health.Corrupted);
      } else if d.pending == 0 {
        d := d.(state := Health.Empty);
      } else {
        d := d.(state := Healthy);
      }
    }

    /** A forced recovery reaches its reset. */
    predicate Resets(force: bool)
      reads ring
    {
      opens && maps && writable && force && Block().NeedsReset()
    }

    /** Either nothing changes, or the ring is reset to an empty queue; the region is never unlinked. */
    method Recover(force: bool) returns (code: Code, unlinked: bool)
      modifies ring
      ensures !unlinked
      ensures !old(Resets(force)) ==> unchanged(ring)
      ensures old(Resets(force)) ==>
        Block() == old(Block()).Recovered(force) == old(Block()).(tail := old(ring.head))
      ensures old(Resets(force)) && old(ring.Resettable()) ==> ring.Valid() && ring.Model() == old(ring.ResetModel())
      ensures code ==
        (if !opens then NotFound
         else if !maps then SysErr
         else if old(Block()).State() == Health.Corrupted && !force then Code.Corrupted
         else if old(Block()).NeedsReset() && force && !writable then SysErr
         else Ok)
    {
      var d;
      code, d := Diagnose();
      unlinked := false;
      if code != Ok { return; }
      if d.state == Healthy || d.state == Health.Empty { return Ok, false; }
      if d.state == Health.Corrupted && !force { return Code.Corrupted, false; }
      if d.state == Incomplete { return Ok, true; }
      if force {
        if !writable { return SysErr, false; }
        ring.ForceReset();
      }
      code := Ok;
    }
  }

  /** A ring whose tail word is not ahead of its head word holds head - tail messages;
      otherwise it holds some. */
  lemma CountsQueued(ring: R.Ring)
    ensures ring.Valid() ==>
      var queued := |ring.Model().published| - ring.Model().consumed;
      0 <= queued <= ring.capacity && if ring.tail <= ring.head then queued == ring.head - ring.tail else queued > 0
  {
    if ring.Valid() {
      DiffOfWraps(|ring.published|, ring.consumed);
      DiffBelow(ring.head, ring.tail);
    }
  }

  /**
    Forced recovery of a region that needs it, whatever its counters and slots
    hold, followed by any rule-following calls: they are answered as by an empty
    queue, and what comes out, followed by what is still queued, is exactly what
    was put in after the reset.
   */
  method ResetAndRun(region: Region, calls: seq<Call>)
      returns (code: Code, answers: seq<Answer>, ghost done: seq<Call>)
    requires region.Resets(true) && region.ring.Resettable()
    requires AllAllowed(region.ring.ResetModel(), calls)
    modifies region.ring, region.ring.mem
    ensures code == Ok && region.ring.Valid()
    ensures var q, r := old(region.ring.ResetModel()), region.ring.Model();
      && q.IsEmpty() && SameCalls(calls, done) && AllAllowed(q, done)
      && r == After(q, done) && answers == Answers(q, done)
      && Got(q, done) + WireAll(r.published[r.consumed..]) == WireAll(Sent(q, done))
  {
    ghost var q := region.ring.ResetModel();
    var unlinked;
    code, unlinked := region.Recover(true);
    answers, done := region.ring.PerformAll(calls);
    FifoFromEmpty(q, done);
  }
}

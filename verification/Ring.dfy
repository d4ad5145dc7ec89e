/**
  The ring itself, at byte level: one byte array of capacity * slotSize bytes,
  wrapping 64-bit head and tail, masked slot indices, an 8-byte little-endian
  header per slot. Every call is proved to be the matching call of the bounded
  queue.
 */
module Ring {
  import opened Words
  import opened Payload
  import opened Layout
  import opened BoundedQueue

  // ------------------------------------------------------------ byte layout

  /** Bytes of slot j in a buffer of slots of width w. */
  function Row(m: Bytes, w: nat, j: nat): Bytes
    requires j * w + w <= |m|
  {
    m[j * w..j * w + w]
  }

  /** The 8-byte header: length, flags, sequence. */
  predicate Header(row: Bytes, length: nat, sequence: nat) {
    |row| >= 8 && Little(row[0..2]) == length && Little(row[2..4]) == 0 && Little(row[4..8]) == sequence
  }

  /** The slot of position p carries the payload published there. */
  predicate Record(row: Bytes, p: nat, data: Bytes) {
    && 8 + |data| <= |row|
    && Header(row, |data| % TWO16, p % TWO32)
    && row[8..8 + |data|] == data
  }

  /** m' differs from m at most in the bytes [from, to). */
  ghost predicate OnlyWithin(m: Bytes, m': Bytes, from: nat, to: nat) {
    |m'| == |m| && forall k :: 0 <= k < |m| && !(from <= k < to) ==> m'[k] == m[k]
  }

  lemma OtherRowsKept(m: Bytes, m': Bytes, w: nat, rows: nat, r: nat, j: nat)
    requires |m| == rows * w && r < rows && j < rows && j != r
    requires OnlyWithin(m, m', r * w, r * w + w)
    ensures j * w + w <= |m| && Row(m', w, j) == Row(m, w, j)
  {
    RowInside(j, rows, w);
    if j < r { RowInside(j, r, w); } else { RowInside(r, j, w); }
  }

  lemma SubSlice(m: Bytes, a: nat, b: nat, c: nat, d: nat)
    requires a <= b <= |m| && c <= d <= b - a
    ensures m[a..b][c..d] == m[a + c..a + d]
  {
    assert forall k :: 0 <= k < d - c ==> m[a..b][c..d][k] == m[a..b][c + k] == m[a + c..a + d][k];
  }

  lemma SliceKept(m: Bytes, m': Bytes, from: nat, to: nat, a: nat, b: nat)
    requires OnlyWithin(m, m', from, to) && a <= b <= |m| && (b <= from || to <= a)
    ensures m'[a..b] == m[a..b]
  {
  }

  /** memcpy into the buffer. */
  method CopyIn(mem: array<Byte>, at: nat, data: Bytes)
    requires at + |data| <= mem.Length
    modifies mem
    ensures mem[at..at + |data|] == data
    ensures OnlyWithin(old(mem[..]), mem[..], at, at + |data|)
  {
    for i := 0 to |data|
      invariant mem[at..at + i] == data[..i]
      invariant forall k :: 0 <= k < mem.Length && !(at <= k < at + |data|) ==> mem[k] == old(mem[k])
    {
      mem[at + i] := data[i];
      assert mem[at..at + (i + 1)] == mem[at..at + i] + [data[i]];
    }
  }

  /** Store of an n-byte little-endian field. */
  method WriteField(mem: array<Byte>, at: nat, n: nat, value: nat)
    requires at + n <= mem.Length && value < Pow256(n)
    modifies mem
    ensures Little(mem[at..at + n]) == value
    ensures OnlyWithin(old(mem[..]), mem[..], at, at + n)
    decreases n
  {
    if n > 0 {
      mem[at] := value % 256;
      WriteField(mem, at + 1, n - 1, value / 256);
      assert mem[at..at + n][1..] == mem[at + 1..at + 1 + (n - 1)];
    }
  }

  /** Stores of the three header fields. */
  method WriteHeader(mem: array<Byte>, at: nat, length: nat, sequence: nat)
    requires at + 8 <= mem.Length && length < TWO16 && sequence < TWO32
    modifies mem
    ensures Header(mem[at..at + 8], length, sequence)
    ensures OnlyWithin(old(mem[..]), mem[..], at, at + 8)
  {
    assert Pow256(2) == TWO16 && Pow256(4) == TWO32;
    WriteField(mem, at, 2, length);
    ghost var m1 := mem[..];
    WriteField(mem, at + 2, 2, 0);
    ghost var m2 := mem[..];
    WriteField(mem, at + 4, 4, sequence);
    HeaderJoined(mem[..], at);
    SliceKept(m1, m2, at + 2, at + 4, at, at + 2);
    SliceKept(m2, mem[..], at + 4, at + 8, at, at + 2);
    SliceKept(m2, mem[..], at + 4, at + 8, at + 2, at + 4);
  }

  lemma HeaderJoined(m: Bytes, at: nat)
    requires at + 8 <= |m|
    ensures m[at..at + 8][0..2] == m[at..at + 2]
    ensures m[at..at + 8][2..4] == m[at + 2..at + 4]
    ensures m[at..at + 8][4..8] == m[at + 4..at + 8]
  {
    SubSlice(m, at, at + 8, 0, 2);
    SubSlice(m, at, at + 8, 2, 4);
    SubSlice(m, at, at + 8, 4, 8);
  }

  // ---------------------------------------------------- queued messages

  /** Every message in the queue is intact in its slot. */
  ghost predicate Stored(m: Bytes, cap: nat, w: nat, published: seq<Bytes>, consumed: nat) {
    && cap > 0 && |m| == cap * w
    && forall p: nat :: consumed <= p < |published| ==> Record(SlotRow(m, cap, w, p), p, published[p])
  }

  function SlotRow(m: Bytes, cap: nat, w: nat, p: nat): (r: Bytes)
    requires cap > 0 && |m| == cap * w
    ensures |r| == w
  {
    RowInside(p % cap, cap, w);
    Row(m, w, p % cap)
  }

  /** Writes confined to the slot of the next position keep every queued message. */
  lemma StoredKept(m: Bytes, m': Bytes, cap: nat, w: nat, published: seq<Bytes>, consumed: nat)
    requires Stored(m, cap, w, published, consumed) && |published| < consumed + cap
    requires var at := |published| % cap * w; OnlyWithin(m, m', at, at + w)
    ensures Stored(m', cap, w, published, consumed)
  {
    forall p: nat | consumed <= p < |published|
      ensures Record(SlotRow(m', cap, w, p), p, published[p])
    {
      ModDistinct(p, |published|, cap);
      OtherRowsKept(m, m', w, cap, |published| % cap, p % cap);
      assert Record(SlotRow(m, cap, w, p), p, published[p]);
    }
  }

  lemma StoredAppended(m: Bytes, cap: nat, w: nat, published: seq<Bytes>, consumed: nat, data: Bytes)
    requires Stored(m, cap, w, published, consumed)
    requires Record(SlotRow(m, cap, w, |published|), |published|, data)
    ensures Stored(m, cap, w, published + [data], consumed)
  {
    forall p: nat | consumed <= p < |published + [data]|
      ensures Record(SlotRow(m, cap, w, p), p, (published + [data])[p])
    {
      if p < |published| { assert Record(SlotRow(m, cap, w, p), p, published[p]); }
    }
  }

  // -------------------------------------------------------------- the ring

  class Ring {
    const capacity: Word
    const slotSize: Word
    const mask: Word
    const mem: array<Byte>

    var head: Word
    var tail: Word
    var reserved: bool
    var reservePos: Word

    // History, in unbounded positions.
    ghost var published: seq<Bytes>
    ghost var consumed: nat
    ghost var heldLen: nat

    /** Sizes fixed at creation. */
    ghost predicate Laid() {
      && IsPow2(capacity) && mask == capacity - 1
      && slotSize >= HEADER_SIZE + 8
      && mem.Length == capacity * slotSize
    }

    function MaxPayload(): nat
      requires slotSize >= HEADER_SIZE
    {
      slotSize - HEADER_SIZE
    }

    ghost predicate Valid()
      reads this, mem
    {
      && Laid()
      && head == Wrap(|published|) && tail == Wrap(consumed)
      && consumed <= |published| <= consumed + capacity
      && (forall i :: 0 <= i < |published| ==> |published[i]| <= MaxPayload())
      && Stored(mem[..], capacity, slotSize, published, consumed)
      && (reserved ==>
            reservePos == head && heldLen <= MaxPayload() && |published| < consumed + capacity)
    }

    /** The bounded queue this ring stands for. */
    ghost function Model(): (q: Queue)
      requires Valid()
      reads this, mem
      ensures q.Valid()
    {
      Queue(capacity, MaxPayload(), published, consumed,
            if reserved then Hold(heldLen, SlotRow(mem[..], capacity, slotSize, |published|)[8..]) else NoHold)
    }

    /** No byte outside the slot of position p has changed; none at all when p is negative. */
    ghost predicate OnlySlot(m: Bytes, m': Bytes, p: int)
      requires Laid()
    {
      if p < 0 then m' == m
      else var at := p % capacity * slotSize; OnlyWithin(m, m', at, at + slotSize)
    }

    /** Byte offset of the slot of a counter (get_slot). */
    function Offset(index: Word): (at: nat)
      requires Laid()
      ensures at + slotSize <= mem.Length
    {
      AndAtMost(index, mask);
      var j: nat := And(index, mask);
      RowInside(j, capacity, slotSize);
      j * slotSize
    }

    constructor (g: Geometry)
      requires IsPow2(g.capacity) && g.slotSize >= HEADER_SIZE + 8
      ensures Valid() && fresh(mem) && capacity == g.capacity && slotSize == g.slotSize
      ensures Model() == Queue(g.capacity, g.slotSize - HEADER_SIZE, [], 0, NoHold)
    {
      capacity, slotSize, mask := g.capacity, g.slotSize, g.capacity - 1;
      mem := new Byte[g.capacity * g.slotSize](_ => 0);
      head, tail, reserved, reservePos := 0, 0, false, 0;
      published, consumed, heldLen := [], 0, 0;
    }

    /**
      A handle on a region that exists already: sizes come from the control
      block, everything else is as found. On a region that holds a queue, the
      attacher sees the same queue as its creator.
     */
    constructor Attach(g: Geometry, bytes: Bytes, head: Word, tail: Word,
                       ghost published: seq<Bytes>, ghost consumed: nat)
      requires |bytes| == g.capacity * g.slotSize
      ensures fresh(mem) && mem[..] == bytes && this.head == head && this.tail == tail && !reserved
      ensures IsPow2(g.capacity) && g.slotSize >= HEADER_SIZE + 8 ==> Resettable()
      ensures var q := Queue(g.capacity, if g.slotSize >= HEADER_SIZE then g.slotSize - HEADER_SIZE else 0, published, consumed, NoHold);
        && IsPow2(g.capacity) && g.slotSize >= HEADER_SIZE + 8 && q.Valid()
        && head == Wrap(|published|) && tail == Wrap(consumed)
        && Stored(bytes, g.capacity, g.slotSize, published, consumed)
        ==> Valid() && Model() == q
    {
      capacity, slotSize, mask := g.capacity, g.slotSize, Wrap(g.capacity - 1);
      mem := new Byte[|bytes|](i requires 0 <= i < |bytes| => bytes[i]);
      this.head, this.tail, reserved, reservePos := head, tail, false, 0;
      this.published, this.consumed, heldLen := published, consumed, 0;
      new;
      assert mem[..] == bytes;
    }

    method Push(data: Bytes) returns (r: Answer)
      requires Valid() && !reserved
      modifies this, mem
      ensures Valid() && (Model(), r) == Do(old(Model()), BoundedQueue.Push(data))
      ensures OnlySlot(old(mem[..]), mem[..], if r.code == Ok then old(|published|) else -1)
    {
      if |data| > slotSize - HEADER_SIZE { return Fail(TooBig); }
      DiffOfWraps(|published|, consumed);
      if Diff(head, tail) >= capacity { return Fail(Full); }
      MaskedIndex(|published|, capacity);
      WrapMod32(|published|);
      WrapSucc(|published|);
      var at := Offset(head);
      ghost var m := mem[..];
      CopyIn(mem, at + HEADER_SIZE, data);
      ghost var m1 := mem[..];
      WriteHeader(mem, at, |data| % TWO16, head % TWO32);
      PushStores(m, m1, mem[..], capacity, slotSize, published, consumed, data);
      head := Wrap(head + 1);
      published := published + [data];
      r := OK;
    }

    method Reserve(len: nat) returns (r: Answer, at: nat, ghost junk: Bytes)
      requires Valid()
      modifies this
      ensures Valid() && |junk| == MaxPayload()
      ensures (Model(), r) == Do(old(Model()), BoundedQueue.Reserve(len, junk))
      ensures r.code == Ok ==> at == |published| % capacity * slotSize + HEADER_SIZE
    {
      junk, at := SlotRow(mem[..], capacity, slotSize, |published|)[8..], 0;
      if reserved { return Fail(Invalid), at, junk; }
      if len > slotSize - HEADER_SIZE { return Fail(TooBig), at, junk; }
      DiffOfWraps(|published|, consumed);
      if Diff(head, tail) >= capacity { return Fail(Full), at, junk; }
      MaskedIndex(|published|, capacity);
      reserved, reservePos := true, head;
      at := Offset(head) + HEADER_SIZE;
      heldLen := len;
      r := OK;
    }

    /** The application stores a byte through the pointer that reserve gave it. */
    method WriteReserved(at: nat, i: nat, b: Byte)
      requires Valid() && reserved && i < heldLen
      requires at == |published| % capacity * slotSize + HEADER_SIZE
      modifies mem
      ensures Valid() && (Model(), OK) == Do(old(Model()), Write(i, b))
    {
      RowInside(|published| % capacity, capacity, slotSize);
      ghost var m := mem[..];
      mem[at + i] := b;
      StagedWrite(m, mem[..], capacity, slotSize, published, consumed, i, b);
    }

    /** Stores the header of the reserved slot, which completes the staged message. */
    method Stamp(n: nat, ghost data: Bytes)
      requires Valid() && reserved && n <= heldLen && data == Model().hold.staged[..n]
      modifies mem
      ensures Stored(mem[..], capacity, slotSize, published + [data], consumed)
      ensures OnlySlot(old(mem[..]), mem[..], |published|)
    {
      MaskedIndex(|published|, capacity);
      WrapMod32(|published|);
      var at := Offset(reservePos);
      ghost var m := mem[..];
      StagedPrefix(m, capacity, slotSize, |published|, n);
      WriteHeader(mem, at, n % TWO16, reservePos % TWO32);
      ArraySlice(mem, at, at + 8);
      PushStores(m, m, mem[..], capacity, slotSize, published, consumed, data);
    }

    method Commit(n: nat) returns (r: Answer)
      requires Valid() && (reserved ==> n <= heldLen)
      modifies this, mem
      ensures Valid() && (Model(), r) == Do(old(Model()), BoundedQueue.Commit(n))
      ensures OnlySlot(old(mem[..]), mem[..], if r.code == Ok then old(|published|) else -1)
    {
      if !reserved { return Fail(Invalid); }
      ghost var data := Model().hold.staged[..n];
      Stamp(n, data);
      WrapSucc(|published|);
      head := Wrap(reservePos + 1);
      reserved := false;
      published := published + [data];
      r := OK;
    }

    /** The oldest queued message: its payload's offset and its header length. */
    method Front() returns (at: nat, n: nat)
      requires Valid() && consumed < |published|
      ensures at + n <= mem.Length
      ensures n == |Wire(published[consumed])| && mem[at..at + n] == Wire(published[consumed])
    {
      MaskedIndex(consumed, capacity);
      var slot := Offset(tail);
      OldestQueued(mem[..], capacity, slotSize, published, consumed, slot);
      ArraySlice(mem, slot, slot + slotSize);
      n := ReadLength(mem, slot, slotSize, consumed, published[consumed]);
      at := slot + HEADER_SIZE;
    }

    method IsEmpty() returns (empty: bool)
      requires Valid()
      ensures empty == Model().IsEmpty()
    {
      WrapInjective(|published|, consumed);
      empty := tail == head;
    }

    method Pop(buf: array<Byte>, room: nat) returns (r: Answer)
      requires Valid() && buf != mem && room <= buf.Length
      modifies this, buf
      ensures Valid() && (Model(), r) == Do(old(Model()), BoundedQueue.Pop(room))
      ensures r.code == Ok ==> buf[..r.len] == r.out
      ensures OnlyWithin(old(buf[..]), buf[..], 0, if r.code == Ok then r.len else 0)
    {
      var empty := IsEmpty();
      if empty { return Fail(Empty); }
      var at, n := Front();
      if n > room { return Answer(TooBig, n, []); }
      CopyOut(buf, at, n);
      Consume();
      r := Answer(Ok, n, buf[0..0 + n]);
    }

    /** memcpy of the front payload into the caller's buffer; the ring is only read. */
    method CopyOut(buf: array<Byte>, at: nat, n: nat)
      requires Valid() && buf != mem && n <= buf.Length && at + n <= mem.Length
      modifies buf
      ensures Valid() && Model() == old(Model())
      ensures buf[0..0 + n] == mem[at..at + n]
      ensures OnlyWithin(old(buf[..]), buf[..], 0, n)
    {
      CopyIn(buf, 0, mem[at..at + n]);
    }

    /** Store of tail + 1. */
    method Consume()
      requires Valid() && consumed < |published|
      modifies this
      ensures Valid() && Model() == old(Model()).(consumed := old(consumed) + 1)
    {
      WrapSucc(consumed);
      OldestTaken(mem[..], capacity, slotSize, published, consumed);
      tail := Wrap(tail + 1);
      consumed := consumed + 1;
    }

    /** The answer's bytes are those the returned pointer shows. */
    method Peek() returns (r: Answer, at: nat)
      requires Valid()
      ensures (Model(), r) == Do(Model(), BoundedQueue.Peek)
      ensures r.code == Ok ==> at + r.len <= mem.Length && mem[at..at + r.len] == r.out
    {
      at := 0;
      var empty := IsEmpty();
      if empty { return Fail(Empty), at; }
      var n;
      at, n := Front();
      r := Answer(Ok, n, mem[at..at + n]);
    }

    method Release() returns (r: Answer)
      requires Valid() && consumed < |published|
      modifies this
      ensures Valid() && (Model(), r) == Do(old(Model()), BoundedQueue.Release)
    {
      Consume();
      r := OK;
    }

    /** nabd_full and the used count of nabd_stats, with nobody else running. */
    method Status() returns (full: bool, used: Word)
      requires Valid()
      ensures full == Model().IsFull()
      ensures used == |published| - consumed
    {
      DiffOfWraps(|published|, consumed);
      full := Diff(head, tail) >= capacity;
      used := Diff(head, tail);
    }

    /** One call of the application. The bytes a reservation finds are reported in done. */
    method Perform(c: Call) returns (r: Answer, ghost done: Call)
      requires Valid() && Allowed(Model(), c)
      modifies this, mem
      ensures Valid() && SameCall(c, done) && Allowed(old(Model()), done)
      ensures (Model(), r) == Do(old(Model()), done)
    {
      done := c;
      match c
      case Push(data) => r := Push(data);
      case Reserve(len, _) =>
        var at;
        ghost var junk;
        r, at, junk := Reserve(len);
        done := BoundedQueue.Reserve(len, junk);
      case Write(i, b) =>
        MaskedIndex(|published|, capacity);
        WriteReserved(Offset(reservePos) + HEADER_SIZE, i, b);
        r := OK;
      case Commit(n) => r := Commit(n);
      case Pop(room) =>
        var buf := new Byte[room];
        r := Pop(buf, room);
      case Peek =>
        var at;
        r, at := Peek();
      case Release => r := Release();
    }

    /** Any rule-following sequence of calls on the bytes is that sequence on the queue. */
    method PerformAll(calls: seq<Call>) returns (answers: seq<Answer>, ghost done: seq<Call>)
      requires Valid() && AllAllowed(Model(), calls)
      modifies this, mem
      ensures Valid() && SameCalls(calls, done) && AllAllowed(old(Model()), done)
      ensures Model() == After(old(Model()), done) && answers == Answers(old(Model()), done)
      decreases |calls|
    {
      if calls == [] { return [], []; }
      ghost var q := Model();
      var r;
      ghost var d;
      r, d := Perform(calls[0]);
      Continues(q, calls, d);
      var rest;
      ghost var restDone;
      rest, restDone := PerformAll(calls[1..]);
      RunCons(q, d, restDone);
      answers, done := [r] + rest, [d] + restDone;
    }

    // ------------------------------------------------------------- recovery

    /** What a forced reset needs to find; the counters may have any value. */
    ghost predicate Resettable()
      reads this
    {
      Laid() && (reserved ==> reservePos == head && heldLen <= MaxPayload())
    }

    /** The empty queue that a reset leaves: all positions before head count as consumed. */
    ghost function ResetModel(): (q: Queue)
      requires Resettable()
      reads this, mem
      ensures q.Valid() && q.IsEmpty()
    {
      Queue(capacity, MaxPayload(), seq(head, _ => []), head,
            if reserved then Hold(heldLen, SlotRow(mem[..], capacity, slotSize, head)[8..]) else NoHold)
    }

    /**
      The forced reset of nabd_recover, on counters in any state: tail becomes
      head, and what was there before is forgotten. A handle keeps its
      reservation.
     */
    method ForceReset()
      modifies this
      ensures tail == head == old(head)
      ensures reserved == old(reserved) && reservePos == old(reservePos) && heldLen == old(heldLen)
      ensures old(Resettable()) ==> Valid() && Model() == old(ResetModel())
    {
      tail := head;
      published := seq(head, _ => []);
      consumed := head;
    }
  }

  /** After the first call, the remaining calls are still allowed on the ring as it is. */
  lemma Continues(q: Queue, calls: seq<Call>, d: Call)
    requires q.Valid() && calls != [] && AllAllowed(q, calls)
    requires SameCall(calls[0], d) && Allowed(q, d)
    ensures Do(q, d).0.Valid() && AllAllowed(Do(q, d).0, calls[1..])
  {
    DoValid(q, calls[0]);
    DoValid(q, d);
    AlikeStep(q, q, calls[0], d);
    AlikeRun(Do(q, calls[0]).0, Do(q, d).0, calls[1..]);
  }

  lemma ArraySlice(mem: array<Byte>, a: nat, b: nat)
    requires a <= b <= mem.Length
    ensures mem[..][a..b] == mem[a..b]
  {
  }

  /** The oldest queued message's record, at its byte offset. */
  lemma OldestQueued(m: Bytes, cap: nat, w: nat, published: seq<Bytes>, consumed: nat, at: nat)
    requires Stored(m, cap, w, published, consumed) && consumed < |published|
    requires at == consumed % cap * w && at + w <= |m|
    ensures Record(m[at..at + w], consumed, published[consumed])
  {
    assert Record(SlotRow(m, cap, w, consumed), consumed, published[consumed]);
  }

  /** Load of a record's length field; the payload behind it is what goes out. */
  method ReadLength(mem: array<Byte>, slot: nat, w: nat, ghost p: nat, ghost data: Bytes) returns (n: nat)
    requires slot + w <= mem.Length && Record(mem[slot..slot + w], p, data)
    ensures n == |Wire(data)| && 8 + n <= w && mem[slot + 8..slot + 8 + n] == Wire(data)
  {
    ghost var row := mem[slot..slot + w];
    assert mem[slot..slot + 2] == row[0..2];
    n := Little(mem[slot..slot + 2]);
    assert n == |Wire(data)|;
    forall k | 0 <= k < n ensures mem[slot + 8..slot + 8 + n][k] == Wire(data)[k] {
      assert row[8..8 + |data|][k] == row[8 + k];
    }
  }

  lemma OldestTaken(m: Bytes, cap: nat, w: nat, published: seq<Bytes>, consumed: nat)
    requires Stored(m, cap, w, published, consumed)
    ensures Stored(m, cap, w, published, consumed + 1)
  {
  }

  /** A byte stored in the reserved slot shows there and nowhere else. */
  lemma StagedWrite(m: Bytes, m': Bytes, cap: nat, w: nat, published: seq<Bytes>, consumed: nat, i: nat, b: Byte)
    requires Stored(m, cap, w, published, consumed) && |published| < consumed + cap && 8 + i < w
    requires var at := |published| % cap * w; at + w <= |m| && m' == m[at + 8 + i := b]
    ensures Stored(m', cap, w, published, consumed)
    ensures SlotRow(m', cap, w, |published|)[8..] == SlotRow(m, cap, w, |published|)[8..][i := b]
  {
    StoredKept(m, m', cap, w, published, consumed);
  }

  lemma StagedPrefix(m: Bytes, cap: nat, w: nat, p: nat, n: nat)
    requires cap > 0 && |m| == cap * w && 8 + n <= w
    ensures var at := p % cap * w;
      at + w <= |m| && SlotRow(m, cap, w, p)[8..][..n] == m[at + 8..at + 8 + n]
  {
    var at := p % cap * w;
    RowInside(p % cap, cap, w);
    SubSlice(m, at, at + w, 8, w);
    SubSlice(m, at + 8, at + w, 0, n);
  }

  /** A header stored in front of a payload completes the record. */
  lemma RecordFilled(m: Bytes, m': Bytes, at: nat, w: nat, p: nat, data: Bytes)
    requires at + w <= |m| && 8 + |data| <= w
    requires m[at + 8..at + 8 + |data|] == data
    requires OnlyWithin(m, m', at, at + 8)
    requires Header(m'[at..at + 8], |data| % TWO16, p % TWO32)
    ensures Record(m'[at..at + w], p, data)
  {
    HeaderJoined(m', at);
    SubSlice(m', at, at + w, 0, 2);
    SubSlice(m', at, at + w, 2, 4);
    SubSlice(m', at, at + w, 4, 8);
    SubSlice(m', at, at + w, 8, 8 + |data|);
    SliceKept(m, m', at, at + 8, at + 8, at + 8 + |data|);
  }

  /** Payload copied, then header stored: the message joins the queued ones. */
  lemma PushStores(m: Bytes, m1: Bytes, m2: Bytes, cap: nat, w: nat,
                   published: seq<Bytes>, consumed: nat, data: Bytes)
    requires Stored(m, cap, w, published, consumed) && |published| < consumed + cap
    requires 8 + |data| <= w
    requires var at := |published| % cap * w;
      && at + w <= |m|
      && OnlyWithin(m, m1, at + 8, at + 8 + |data|) && m1[at + 8..at + 8 + |data|] == data
      && OnlyWithin(m1, m2, at, at + 8) && Header(m2[at..at + 8], |data| % TWO16, |published| % TWO32)
    ensures Stored(m2, cap, w, published + [data], consumed)
  {
    RecordFilled(m1, m2, |published| % cap * w, w, |published|, data);
    StoredKept(m, m2, cap, w, published, consumed);
    StoredAppended(m2, cap, w, published, consumed, data);
  }
}

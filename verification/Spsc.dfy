/**
  The single-producer single-consumer protocol of src/nabd.c as a machine of
  small interleaved steps. Each shared access of nabd_push, nabd_pop,
  nabd_reserve, nabd_commit, nabd_peek and nabd_release is one step; payload
  bytes are copied one at a time, and header fields are stored one at a time.

  The load of the other side's index may return any value between the one last
  seen and the current one (an acquire load is never required to be fresh).

  One machine serves both arithmetics: `Unbounded` counters with `mod`, and
  `Wrapped` 64-bit counters with `index & mask`, which is what the code runs.
 */
module Spsc {
  import opened Payload
  import opened Words

  // ------------------------------------------------------------ arithmetic

  datatype Arith = Unbounded | Wrapped

  datatype Config = Config(arith: Arith, capacity: nat, maxPayload: nat) {
    ghost predicate Valid() {
      capacity > 0 && (arith.Wrapped? ==> IsPow2(capacity) && capacity < TWO64)
    }

    /** Is x a value a counter of this machine can hold? */
    predicate Counter(x: nat) {
      arith.Wrapped? ==> x < TWO64
    }

    /** x + 1 */
    function Succ(x: nat): nat {
      if arith.Wrapped? then Wrap(x + 1) else x + 1
    }

    /** x - y, as the code computes it */
    function Gap(x: nat, y: nat): int {
      if arith.Wrapped? then (x - y) % TWO64 else x - y
    }

    /** Slot index of a counter value */
    function SlotOf(x: nat): (i: nat)
      requires capacity > 0
      ensures i < capacity
    {
      if arith.Wrapped? then AndAtMost(x, capacity - 1); And(x, capacity - 1)
      else x % capacity
    }
  }

  // ----------------------------------------------------------------- state

  datatype Slot = Slot(length: nat, flags: nat, sequence: nat, payload: Bytes)

  datatype PushRequest = Push(data: Bytes) | Reserve(len: nat)

  datatype Producer =
    | PIdle
    | Called(req: PushRequest)
    | HasHead(req: PushRequest, h: nat)
    | HasTail(req: PushRequest, h: nat, v: nat)
    | Copying(data: Bytes, h: nat, i: nat)
    | Held(len: nat, h: nat)                  // between reserve and commit
    | WriteLength(data: Bytes, h: nat)
    | WriteFlags(data: Bytes, h: nat)
    | WriteSequence(data: Bytes, h: nat)
    | Publish(data: Bytes, h: nat)

  datatype PopRequest = Pop(room: nat) | Peek

  datatype Consumer =
    | CIdle
    | Asked(pop: PopRequest)
    | HasOwn(pop: PopRequest, t: nat)
    | HasSeen(pop: PopRequest, t: nat, v: nat)
    | AtHeader(pop: PopRequest, t: nat)
    | Draining(room: nat, t: nat, n: nat, got: Bytes)
    | Consume(room: nat, t: nat, got: Bytes)
    | Peeked(t: nat, n: nat)                  // the application reads in place
    | Releasing(n: nat)
    | Release(t: nat, n: nat)

  /** A third process that loads head and then tail (diagnose, metrics, stats). */
  datatype Observer = OIdle | OHead(h: nat) | OBoth(h: nat, t: nat)

  /** Shared memory, the two program counters, what each side last saw, and
      history: where the other side's index stood when each side's latest call
      began, and the published and delivered payloads. */
  datatype State = State(
    slots: seq<Slot>, head: nat, tail: nat,
    prod: Producer, cons: Consumer, obs: Observer,
    seenTail: nat, seenHead: nat,
    callTail: nat, callHead: nat,
    published: seq<Bytes>, delivered: seq<Bytes>)

  predicate SlotShape(c: Config, slot: Slot) {
    |slot.payload| == c.maxPayload && slot.length <= c.maxPayload
  }

  predicate ProducerShape(c: Config, p: Producer) {
    match p
    case PIdle => true
    case Called(req) => RequestShape(c, req)
    case HasHead(req, h) => RequestShape(c, req) && c.Counter(h)
    case HasTail(req, h, v) => RequestShape(c, req) && c.Counter(h) && c.Counter(v)
    case Copying(data, h, i) => i <= |data| <= c.maxPayload && c.Counter(h)
    case Held(len, h) => len <= c.maxPayload && c.Counter(h)
    case WriteLength(data, h) => |data| <= c.maxPayload && c.Counter(h)
    case WriteFlags(data, h) => |data| <= c.maxPayload && c.Counter(h)
    case WriteSequence(data, h) => |data| <= c.maxPayload && c.Counter(h)
    case Publish(data, h) => |data| <= c.maxPayload && c.Counter(h)
  }

  predicate RequestShape(c: Config, req: PushRequest) {
    match req
    case Push(data) => |data| <= c.maxPayload
    case Reserve(len) => len <= c.maxPayload
  }

  predicate ConsumerShape(c: Config, k: Consumer) {
    match k
    case HasOwn(_, t) => c.Counter(t)
    case HasSeen(_, t, v) => c.Counter(t) && c.Counter(v)
    case AtHeader(_, t) => c.Counter(t)
    case Draining(room, t, n, got) => c.Counter(t) && |got| <= n <= c.maxPayload
    case Consume(room, t, _) => c.Counter(t)
    case Peeked(t, n) => c.Counter(t) && n <= c.maxPayload
    case Releasing(n) => n <= c.maxPayload
    case Release(t, n) => c.Counter(t) && n <= c.maxPayload
    case _ => true
  }

  /** Sizes that every step keeps; nothing about order or contents. */
  ghost predicate Shape(c: Config, s: State) {
    && c.Valid()
    && |s.slots| == c.capacity
    && (forall j :: 0 <= j < |s.slots| ==> SlotShape(c, s.slots[j]))
    && ProducerShape(c, s.prod) && ConsumerShape(c, s.cons)
    && c.Counter(s.head) && c.Counter(s.tail)
    && c.Counter(s.seenTail) && c.Counter(s.seenHead)
    && c.Counter(s.callTail) && c.Counter(s.callHead)
  }

  function Poke(slots: seq<Slot>, j: nat, slot: Slot): seq<Slot>
    requires j < |slots|
  {
    slots[j := slot]
  }

  // ----------------------------------------------------------------- steps

  datatype PStep =
    | CallPush(data: Bytes)
    | CallReserve(len: nat)
    | LoadHead
    | LoadTail(v: nat)
    | CheckFull
    | CopyByte
    | EndCopy
    | WriteHeld(i: nat, b: Byte)    // the application writes the reserved slot
    | CallCommit(n: nat)
    | StoreLength
    | StoreFlags
    | StoreSequence
    | StoreHead

  datatype CStep =
    | CallPop(room: nat)
    | CallPeek
    | LoadOwnTail
    | LoadSeenHead(v: nat)
    | CheckEmpty
    | ReadLength
    | ReadByte
    | EndRead
    | StoreTail
    | DropPeek
    | CallRelease
    | ReleaseLoad
    | ReleaseStore

  datatype OStep = ObserveHead | ObserveTail

  datatype Step = P(p: PStep) | C(k: CStep) | O(o: OStep)

  /** v lies between the value last seen and the current one. */
  predicate Visible(c: Config, seen: nat, v: nat, now: nat) {
    c.Counter(v) && 0 <= c.Gap(v, seen) <= c.Gap(now, seen)
  }

  predicate PEnabled(c: Config, s: State, e: PStep) {
    match e
    case CallPush(_) => s.prod.PIdle?
    case CallReserve(_) => s.prod.PIdle?
    case LoadHead => s.prod.Called?
    case LoadTail(v) => s.prod.HasHead? && Visible(c, s.seenTail, v, s.tail)
    case CheckFull => s.prod.HasTail?
    case CopyByte => s.prod.Copying? && s.prod.i < |s.prod.data|
    case EndCopy => s.prod.Copying? && s.prod.i == |s.prod.data|
    case WriteHeld(i, _) => s.prod.Held? && i < s.prod.len
    case CallCommit(n) => s.prod.Held? && n <= s.prod.len
    case StoreLength => s.prod.WriteLength?
    case StoreFlags => s.prod.WriteFlags?
    case StoreSequence => s.prod.WriteSequence?
    case StoreHead => s.prod.Publish?
  }

  /** FULL is what the pending check will answer. */
  predicate AnswersFull(c: Config, p: Producer) {
    p.HasTail? && c.Gap(p.h, p.v) >= c.capacity
  }

  function PApply(c: Config, s: State, e: PStep): (s': State)
    requires Shape(c, s) && PEnabled(c, s, e)
  {
    match e
    case CallPush(data) =>
      if |data| > c.maxPayload then s                                           // TOOBIG
      else s.(prod := Called(Push(data)), callTail := s.tail)
    case CallReserve(len) =>
      if len > c.maxPayload then s                                              // TOOBIG
      else s.(prod := Called(Reserve(len)), callTail := s.tail)
    case LoadHead => s.(prod := HasHead(s.prod.req, s.head))
    case LoadTail(v) => s.(prod := HasTail(s.prod.req, s.prod.h, v), seenTail := v)
    case CheckFull =>
      if AnswersFull(c, s.prod) then s.(prod := PIdle)
      else (match s.prod.req
            case Push(data) => s.(prod := Copying(data, s.prod.h, 0))
            case Reserve(len) => s.(prod := Held(len, s.prod.h)))
    case CopyByte =>
      var j, i := c.SlotOf(s.prod.h), s.prod.i;
      s.(slots := Poke(s.slots, j, s.slots[j].(payload := s.slots[j].payload[i := s.prod.data[i]])),
         prod := Copying(s.prod.data, s.prod.h, i + 1))
    case EndCopy => s.(prod := WriteLength(s.prod.data, s.prod.h))
    case WriteHeld(i, b) =>
      var j := c.SlotOf(s.prod.h);
      s.(slots := Poke(s.slots, j, s.slots[j].(payload := s.slots[j].payload[i := b])))
    case CallCommit(n) =>
      s.(prod := WriteLength(s.slots[c.SlotOf(s.prod.h)].payload[..n], s.prod.h))
    case StoreLength =>
      var j := c.SlotOf(s.prod.h);
      s.(slots := Poke(s.slots, j, s.slots[j].(length := |s.prod.data| % TWO16)),
         prod := WriteFlags(s.prod.data, s.prod.h))
    case StoreFlags =>
      var j := c.SlotOf(s.prod.h);
      s.(slots := Poke(s.slots, j, s.slots[j].(flags := 0)),
         prod := WriteSequence(s.prod.data, s.prod.h))
    case StoreSequence =>
      var j := c.SlotOf(s.prod.h);
      s.(slots := Poke(s.slots, j, s.slots[j].(sequence := s.prod.h % TWO32)),
         prod := Publish(s.prod.data, s.prod.h))
    case StoreHead =>
      s.(head := c.Succ(s.prod.h), prod := PIdle, published := s.published + [s.prod.data])
  }

  predicate CEnabled(c: Config, s: State, e: CStep) {
    match e
    case CallPop(_) => s.cons.CIdle?
    case CallPeek => s.cons.CIdle?
    case LoadOwnTail => s.cons.Asked?
    case LoadSeenHead(v) => s.cons.HasOwn? && Visible(c, s.seenHead, v, s.head)
    case CheckEmpty => s.cons.HasSeen?
    case ReadLength => s.cons.AtHeader?
    case ReadByte => s.cons.Draining? && |s.cons.got| < s.cons.n
    case EndRead => s.cons.Draining? && |s.cons.got| == s.cons.n
    case StoreTail => s.cons.Consume?
    case DropPeek => s.cons.Peeked?
    case CallRelease => s.cons.Peeked?
    case ReleaseLoad => s.cons.Releasing?
    case ReleaseStore => s.cons.Release?
  }

  /** EMPTY is what the pending check will answer. */
  predicate AnswersEmpty(k: Consumer) {
    k.HasSeen? && k.t == k.v
  }

  /** The bytes a peeked pointer shows right now. */
  function PeekView(c: Config, s: State, t: nat, n: nat): Bytes
    requires Shape(c, s) && n <= c.maxPayload
  {
    s.slots[c.SlotOf(t)].payload[..n]
  }

  function CApply(c: Config, s: State, e: CStep): (s': State)
    requires Shape(c, s) && CEnabled(c, s, e)
  {
    match e
    case CallPop(room) => s.(cons := Asked(Pop(room)), callHead := s.head)
    case CallPeek => s.(cons := Asked(Peek), callHead := s.head)
    case LoadOwnTail => s.(cons := HasOwn(s.cons.pop, s.tail))
    case LoadSeenHead(v) => s.(cons := HasSeen(s.cons.pop, s.cons.t, v), seenHead := v)
    case CheckEmpty =>
      if AnswersEmpty(s.cons) then s.(cons := CIdle)
      else s.(cons := AtHeader(s.cons.pop, s.cons.t))
    case ReadLength =>
      var n := s.slots[c.SlotOf(s.cons.t)].length;
      (match s.cons.pop
       case Peek => s.(cons := Peeked(s.cons.t, n))
       case Pop(room) =>
         if n > room then s.(cons := CIdle)                                     // TOOBIG
         else s.(cons := Draining(room, s.cons.t, n, [])))
    case ReadByte =>
      var b := s.slots[c.SlotOf(s.cons.t)].payload[|s.cons.got|];
      s.(cons := Draining(s.cons.room, s.cons.t, s.cons.n, s.cons.got + [b]))
    case EndRead => s.(cons := Consume(s.cons.room, s.cons.t, s.cons.got))
    case StoreTail =>
      s.(tail := c.Succ(s.cons.t), cons := CIdle, delivered := s.delivered + [s.cons.got])
    case DropPeek => s.(cons := CIdle)
    case CallRelease => s.(cons := Releasing(s.cons.n))
    case ReleaseLoad => s.(cons := Release(s.tail, s.cons.n))
    case ReleaseStore =>
      s.(tail := c.Succ(s.cons.t), cons := CIdle,
         delivered := s.delivered + [PeekView(c, s, s.cons.t, s.cons.n)])
  }

  predicate OEnabled(s: State, o: OStep) {
    match o
    case ObserveHead => true
    case ObserveTail => s.obs.OHead?
  }

  function OApply(s: State, o: OStep): State
    requires OEnabled(s, o)
  {
    match o
    case ObserveHead => s.(obs := OHead(s.head))
    case ObserveTail => s.(obs := OBoth(s.obs.h, s.tail))
  }

  predicate Enabled(c: Config, s: State, e: Step) {
    match e
    case P(p) => PEnabled(c, s, p)
    case C(k) => CEnabled(c, s, k)
    case O(o) => OEnabled(s, o)
  }

  function Apply(c: Config, s: State, e: Step): State
    requires Shape(c, s) && Enabled(c, s, e)
  {
    match e
    case P(p) => PApply(c, s, p)
    case C(k) => CApply(c, s, k)
    case O(o) => OApply(s, o)
  }

  // ------------------------------------------------------------------ runs

  ghost predicate Init(c: Config, s: State) {
    && Shape(c, s)
    && s.head == s.tail == s.seenTail == s.seenHead == s.callTail == s.callHead == 0
    && s.prod == PIdle && s.cons == CIdle && s.obs == OIdle
    && s.published == [] && s.delivered == []
  }

  /** states[i + 1] follows states[i] by steps[i]. */
  ghost predicate IsRun(c: Config, states: seq<State>, steps: seq<Step>) {
    && |states| == |steps| + 1
    && Init(c, states[0])
    && forall i :: 0 <= i < |steps| ==> Follows(c, states[i], steps[i], states[i + 1])
  }

  ghost predicate Follows(c: Config, s: State, e: Step, s': State) {
    Shape(c, s) && Enabled(c, s, e) && s' == Apply(c, s, e)
  }

  lemma ShapeKept(c: Config, s: State, e: Step)
    requires Shape(c, s) && Enabled(c, s, e)
    ensures Shape(c, Apply(c, s, e))
  {
    match e
    case P(p) => PShapeKept(c, s, p);
    case C(k) => CShapeKept(c, s, k);
    case O(o) =>
  }

  lemma PShapeKept(c: Config, s: State, e: PStep)
    requires Shape(c, s) && PEnabled(c, s, e)
    ensures Shape(c, PApply(c, s, e))
  {
    var s' := PApply(c, s, e);
    assert |s'.slots| == c.capacity;
    assert forall j :: 0 <= j < |s'.slots| ==> SlotShape(c, s'.slots[j]);
  }

  lemma CShapeKept(c: Config, s: State, e: CStep)
    requires Shape(c, s) && CEnabled(c, s, e)
    ensures Shape(c, CApply(c, s, e))
  {
  }
}

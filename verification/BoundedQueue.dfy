/**
  The bounded FIFO queue that the ring implements, as a state machine over
  whole calls, and what every sequence of rule-following calls does.
 */
module BoundedQueue {
  import opened Payload

  /** The return codes of include/nabd/types.h that the modelled calls use. */
  datatype Code = Ok | Empty | Full | Invalid | NotFound | TooBig | Corrupted | SysErr

  /** A slot handed out by reserve: the length asked for and the bytes in it now. */
  datatype Hold = NoHold | Hold(len: nat, staged: Bytes)

  /** published[consumed..] are the messages in the queue, oldest first. */
  datatype Queue = Queue(capacity: nat, maxPayload: nat, published: seq<Bytes>, consumed: nat, hold: Hold) {
    ghost predicate Valid() {
      && capacity > 0
      && consumed <= |published| <= consumed + capacity
      && (forall i :: 0 <= i < |published| ==> |published[i]| <= maxPayload)
      && (hold.Hold? ==>
            && |published| < consumed + capacity
            && hold.len <= |hold.staged| == maxPayload)
    }

    predicate IsFull() { |published| - consumed >= capacity }
    predicate IsEmpty() { consumed == |published| }
  }

  datatype Call =
    | Push(data: Bytes)
    | Reserve(len: nat, junk: Bytes)    // junk: what the slot happens to contain
    | Write(i: nat, b: Byte)            // the application fills the reserved slot
    | Commit(n: nat)
    | Pop(room: nat)
    | Peek
    | Release

  /** Return code, `*len`, and the bytes handed to the caller. */
  datatype Answer = Answer(code: Code, len: nat, out: Bytes)

  const OK := Answer(Ok, 0, [])

  function Fail(code: Code): Answer {
    Answer(code, 0, [])
  }

  /** The usage rules: no push inside a reservation, writes and commits within the
      reserved length, a release only of a message that is there. */
  predicate Allowed(q: Queue, c: Call) {
    match c
    case Push(_) => q.hold.NoHold?
    case Reserve(_, junk) => |junk| == q.maxPayload
    case Write(i, _) => q.hold.Hold? && i < q.hold.len
    case Commit(n) => q.hold.Hold? ==> n <= q.hold.len
    case Pop(_) => true
    case Peek => true
    case Release => !q.IsEmpty()
  }

  function Do(q: Queue, c: Call): (Queue, Answer)
    requires q.Valid() && Allowed(q, c)
  {
    match c
    case Push(data) =>
      if |data| > q.maxPayload then (q, Fail(TooBig))
      else if q.IsFull() then (q, Fail(Full))
      else (q.(published := q.published + [data]), OK)
    case Reserve(len, junk) =>
      if q.hold.Hold? then (q, Fail(Invalid))
      else if len > q.maxPayload then (q, Fail(TooBig))
      else if q.IsFull() then (q, Fail(Full))
      else (q.(hold := Hold(len, junk)), OK)
    case Write(i, b) => (q.(hold := Hold(q.hold.len, q.hold.staged[i := b])), OK)
    case Commit(n) =>
      if q.hold.NoHold? then (q, Fail(Invalid))
      else (q.(published := q.published + [q.hold.staged[..n]], hold := NoHold), OK)
    case Pop(room) =>
      if q.IsEmpty() then (q, Fail(Empty))
      else
        var m := Wire(q.published[q.consumed]);
        if |m| > room then (q, Answer(TooBig, |m|, []))
        else (q.(consumed := q.consumed + 1), Answer(Ok, |m|, m))
    case Peek =>
      if q.IsEmpty() then (q, Fail(Empty))
      else var m := Wire(q.published[q.consumed]); (q, Answer(Ok, |m|, m))
    case Release => (q.(consumed := q.consumed + 1), OK)
  }

  lemma DoValid(q: Queue, c: Call)
    requires q.Valid() && Allowed(q, c)
    ensures Do(q, c).0.Valid()
  {
  }

  /** When each code is the answer, call by call; only an OK changes anything. */
  lemma CodesExactly(q: Queue, c: Call)
    requires q.Valid() && Allowed(q, c)
    ensures var code, queued := Do(q, c).1.code, |q.published| - q.consumed;
      && (code == Invalid <==> (c.Reserve? && q.hold.Hold?) || (c.Commit? && q.hold.NoHold?))
      && (code == Full <==>
            || (c.Push? && |c.data| <= q.maxPayload && queued == q.capacity)
            || (c.Reserve? && q.hold.NoHold? && c.len <= q.maxPayload && queued == q.capacity))
      && (code == Empty <==> (c.Pop? || c.Peek?) && queued == 0)
      && (code == TooBig <==>
            || (c.Push? && |c.data| > q.maxPayload)
            || (c.Reserve? && q.hold.NoHold? && c.len > q.maxPayload)
            || (c.Pop? && queued > 0 && |q.published[q.consumed]| % TWO16 > c.room))
      && (code in {Ok, Invalid, Full, Empty, TooBig})
      && (code != Ok || c.Peek? ==> Do(q, c).0 == q)
  {
  }

  /** What comes with the code: the oldest message, or its length when there is no room for it. */
  lemma OutputExactly(q: Queue, c: Call)
    requires q.Valid() && Allowed(q, c)
    ensures var a, front := Do(q, c).1, (c.Pop? || c.Peek?) && q.consumed < |q.published|;
      && (front && a.code == Ok ==> a == Answer(Ok, |Wire(q.published[q.consumed])|, Wire(q.published[q.consumed])))
      && (front && a.code == TooBig ==> a == Answer(TooBig, |Wire(q.published[q.consumed])|, []))
      && (!front ==> a == Answer(a.code, 0, []))
  {
  }

  // ------------------------------------------------------------------ runs

  predicate AllAllowed(q: Queue, calls: seq<Call>)
    requires q.Valid()
    decreases |calls|
  {
    calls == [] || (Allowed(q, calls[0]) && (DoValid(q, calls[0]); AllAllowed(Do(q, calls[0]).0, calls[1..])))
  }

  function After(q: Queue, calls: seq<Call>): (r: Queue)
    requires q.Valid() && AllAllowed(q, calls)
    ensures r.Valid()
    decreases |calls|
  {
    if calls == [] then q
    else DoValid(q, calls[0]); After(Do(q, calls[0]).0, calls[1..])
  }

  /** Payload this call adds to the queue. */
  function SentBy(q: Queue, c: Call): seq<Bytes>
    requires q.Valid() && Allowed(q, c)
  {
    if Do(q, c).1.code != Ok then []
    else match c
      case Push(data) => [data]
      case Commit(n) => [q.hold.staged[..n]]
      case _ => []
  }

  /** Payload this call takes from the queue: what pop copied out, or what the
      released pointer shows. */
  function GotBy(q: Queue, c: Call): seq<Bytes>
    requires q.Valid() && Allowed(q, c)
  {
    if Do(q, c).1.code != Ok then []
    else match c
      case Pop(_) => [Do(q, c).1.out]
      case Release => [Do(q, Peek).1.out]
      case _ => []
  }

  function Sent(q: Queue, calls: seq<Call>): seq<Bytes>
    requires q.Valid() && AllAllowed(q, calls)
    decreases |calls|
  {
    if calls == [] then []
    else DoValid(q, calls[0]); SentBy(q, calls[0]) + Sent(Do(q, calls[0]).0, calls[1..])
  }

  function Got(q: Queue, calls: seq<Call>): seq<Bytes>
    requires q.Valid() && AllAllowed(q, calls)
    decreases |calls|
  {
    if calls == [] then []
    else DoValid(q, calls[0]); GotBy(q, calls[0]) + Got(Do(q, calls[0]).0, calls[1..])
  }

  /** What the calls return. */
  function Answers(q: Queue, calls: seq<Call>): seq<Answer>
    requires q.Valid() && AllAllowed(q, calls)
    decreases |calls|
  {
    if calls == [] then []
    else DoValid(q, calls[0]); [Do(q, calls[0]).1] + Answers(Do(q, calls[0]).0, calls[1..])
  }

  /** What was sent is appended, in order, and nothing else. */
  lemma {:induction false} SentIsAppended(q: Queue, calls: seq<Call>)
    requires q.Valid() && AllAllowed(q, calls)
    ensures After(q, calls).published == q.published + Sent(q, calls)
    ensures q.consumed <= After(q, calls).consumed
    decreases |calls|
  {
    if calls == [] {
      assert q.published + [] == q.published;
    } else {
      DoValid(q, calls[0]);
      SentIsAppended(Do(q, calls[0]).0, calls[1..]);
      OneCall(q, calls[0]);
    }
  }

  lemma SliceSplits(p: seq<Bytes>, p': seq<Bytes>, a: nat, b: nat, c: nat)
    requires a <= b <= c <= |p'| && b <= |p| && p <= p'
    ensures WireAll(p[a..b]) + WireAll(p'[b..c]) == WireAll(p'[a..c])
  {
  }

  /**
    Conservation over any sequence of calls: what was sent is appended, and what
    was received is exactly the messages between the old and the new read
    position, in order.
   */
  lemma {:induction false} Conservation(q: Queue, calls: seq<Call>)
    requires q.Valid() && AllAllowed(q, calls)
    ensures After(q, calls).published == q.published + Sent(q, calls)
    ensures q.consumed <= After(q, calls).consumed
    ensures Got(q, calls) == WireAll(After(q, calls).published[q.consumed..After(q, calls).consumed])
    decreases |calls|
  {
    SentIsAppended(q, calls);
    if calls != [] {
      var c := calls[0];
      DoValid(q, c);
      var q1, r := Do(q, c).0, After(q, calls);
      Conservation(q1, calls[1..]);
      OneCall(q, c);
      SliceSplits(q1.published, r.published, q.consumed, q1.consumed, r.consumed);
    }
  }

  lemma OneCall(q: Queue, c: Call)
    requires q.Valid() && Allowed(q, c)
    ensures var q1 := Do(q, c).0;
      && q1.published == q.published + SentBy(q, c)
      && q.consumed <= q1.consumed <= |q1.published|
      && GotBy(q, c) == WireAll(q1.published[q.consumed..q1.consumed])
  {
  }

  /** From an empty queue, what comes out is a prefix of what went in. */
  lemma FifoFromEmpty(q: Queue, calls: seq<Call>)
    requires q.Valid() && q.IsEmpty() && AllAllowed(q, calls)
    ensures var r := After(q, calls);
      && Got(q, calls) + WireAll(r.published[r.consumed..]) == WireAll(Sent(q, calls))
  {
    Conservation(q, calls);
    var r := After(q, calls);
    assert r.published[q.consumed..] == Sent(q, calls);
    SliceSplits(r.published, r.published, q.consumed, r.consumed, |r.published|);
    assert r.published[q.consumed..|r.published|] == r.published[q.consumed..];
    assert r.published[r.consumed..|r.published|] == r.published[r.consumed..];
  }

  // -------------------------------------------------------------- zero copy

  /** The copying call that stands for a zero-copy one: a commit is a push of the
      staged bytes, a release is a pop of the peeked message. */
  function EraseOne(q: Queue, c: Call): seq<Call>
    requires q.Valid() && Allowed(q, c)
  {
    match c
    case Reserve(_, _) => []
    case Write(_, _) => []
    case Commit(n) => if q.hold.NoHold? then [] else [Push(q.hold.staged[..n])]
    case Release => [Pop(q.maxPayload)]
    case _ => [c]
  }

  function Erase(q: Queue, calls: seq<Call>): seq<Call>
    requires q.Valid() && AllAllowed(q, calls)
    decreases |calls|
  {
    if calls == [] then []
    else DoValid(q, calls[0]); EraseOne(q, calls[0]) + Erase(Do(q, calls[0]).0, calls[1..])
  }

  function Plain(q: Queue): Queue {
    q.(hold := NoHold)
  }

  /** Either the call leaves no trace outside the reservation, or one copying call matches it. */
  lemma EraseOneAgrees(q: Queue, c: Call)
    requires q.Valid() && Allowed(q, c)
    ensures EraseOne(q, c) == [] ==>
      Plain(Do(q, c).0) == Plain(q) && SentBy(q, c) == [] && GotBy(q, c) == []
    ensures EraseOne(q, c) != [] ==>
      && var x := EraseOne(q, c)[0];
      && EraseOne(q, c) == [x] && Plain(q).Valid() && Allowed(Plain(q), x)
      && Do(Plain(q), x).0 == Plain(Do(q, c).0)
      && SentBy(Plain(q), x) == SentBy(q, c) && GotBy(Plain(q), x) == GotBy(q, c)
  {
    assert c.Release? ==> |Wire(q.published[q.consumed])| <= q.maxPayload;
  }

  lemma RunCons(q: Queue, x: Call, rest: seq<Call>)
    requires q.Valid() && Allowed(q, x) && Do(q, x).0.Valid() && AllAllowed(Do(q, x).0, rest)
    ensures AllAllowed(q, [x] + rest)
    ensures After(q, [x] + rest) == After(Do(q, x).0, rest)
    ensures Sent(q, [x] + rest) == SentBy(q, x) + Sent(Do(q, x).0, rest)
    ensures Got(q, [x] + rest) == GotBy(q, x) + Got(Do(q, x).0, rest)
    ensures Answers(q, [x] + rest) == [Do(q, x).1] + Answers(Do(q, x).0, rest)
  {
    assert ([x] + rest)[1..] == rest;
  }

  /**
    Any rule-following mix of reserve/write/commit with push, and of
    peek/release with pop, behaves like the run with only push, pop and peek:
    the same messages go in and come out, and the queue ends up the same.
   */
  lemma {:induction false} ZeroCopyErases(q: Queue, calls: seq<Call>)
    requires q.Valid() && AllAllowed(q, calls)
    ensures AllAllowed(Plain(q), Erase(q, calls))
    ensures After(Plain(q), Erase(q, calls)) == Plain(After(q, calls))
    ensures Sent(Plain(q), Erase(q, calls)) == Sent(q, calls)
    ensures Got(Plain(q), Erase(q, calls)) == Got(q, calls)
    decreases |calls|
  {
    if calls != [] {
      DoValid(q, calls[0]);
      var q1 := Do(q, calls[0]).0;
      ZeroCopyErases(q1, calls[1..]);
      EraseOneAgrees(q, calls[0]);
      var one, rest := EraseOne(q, calls[0]), Erase(q1, calls[1..]);
      if one == [] {
        assert one + rest == rest;
      } else {
        RunCons(Plain(q), one[0], rest);
      }
    }
  }

  /** Stores of the application into a reserved slot. */
  predicate Writes(calls: seq<Call>, len: nat) {
    forall k :: 0 <= k < |calls| ==> calls[k].Write? && calls[k].i < len
  }

  /** Call k stores byte b at place i, and no later call stores there. */
  predicate LastStore(calls: seq<Call>, k: nat, i: nat, b: Byte) {
    k < |calls| && calls[k] == Write(i, b) && Unwritten(calls[k + 1..], i)
  }

  predicate Unwritten(calls: seq<Call>, i: nat) {
    forall k :: 0 <= k < |calls| && calls[k].Write? ==> calls[k].i != i
  }

  /** Byte b at place i is the one stored there last, or the one that was there before. */
  ghost predicate LastWritten(calls: seq<Call>, before: Byte, i: nat, b: Byte) {
    (b == before && Unwritten(calls, i)) || exists k: nat :: LastStore(calls, k, i, b)
  }

  /** In a reservation the bytes are the ones stored last, and nothing else changes. */
  lemma {:induction false} WritesRun(q: Queue, calls: seq<Call>)
    requires q.Valid() && q.hold.Hold? && Writes(calls, q.hold.len)
    ensures AllAllowed(q, calls)
    ensures var h := After(q, calls).hold;
      && h.Hold? && After(q, calls) == q.(hold := h) && |h.staged| == |q.hold.staged| && h.len == q.hold.len
      && forall i :: 0 <= i < |h.staged| ==> LastWritten(calls, q.hold.staged[i], i, h.staged[i])
    decreases |calls|
  {
    if calls != [] {
      var first, rest := calls[0], calls[1..];
      DoValid(q, first);
      var q1 := Do(q, first).0;
      WritesRun(q1, rest);
      var h := After(q1, rest).hold;
      assert calls == [first] + rest;
      forall i | 0 <= i < |h.staged| ensures LastWritten(calls, q.hold.staged[i], i, h.staged[i]) {
        WriteFirst(first, rest, q.hold.staged[i], i, h.staged[i]);
      }
    }
  }

  lemma WriteFirst(first: Call, rest: seq<Call>, before: Byte, i: nat, b: Byte)
    requires first.Write? && LastWritten(rest, if first.i == i then first.b else before, i, b)
    ensures LastWritten([first] + rest, before, i, b)
  {
    var calls := [first] + rest;
    assert calls[1..] == rest;
    if Unwritten(rest, i) && b == (if first.i == i then first.b else before) {
      assert first.i == i ==> LastStore(calls, 0, i, b);
      assert first.i != i ==> Unwritten(calls, i);
    } else {
      var k: nat :| LastStore(rest, k, i, b);
      assert calls[k + 1 + 1..] == rest[k + 1..];
      assert LastStore(calls, k + 1, i, b);
    }
  }

  lemma {:induction false} RunAppend(q: Queue, calls: seq<Call>, last: Call)
    requires q.Valid() && AllAllowed(q, calls) && Allowed(After(q, calls), last)
    ensures AllAllowed(q, calls + [last])
    ensures After(q, calls + [last]) == Do(After(q, calls), last).0
    decreases |calls|
  {
    DoValid(After(q, calls), last);
    if calls == [] {
      assert calls + [last] == [last];
      RunCons(q, last, []);
    } else {
      DoValid(q, calls[0]);
      RunAppend(Do(q, calls[0]).0, calls[1..], last);
      assert (calls + [last])[1..] == calls[1..] + [last];
    }
  }

  /** A committed message is what the application wrote: each byte of the committed prefix
      is the one stored there last, or what the slot happened to contain. */
  lemma CommitCarriesWrites(q: Queue, len: nat, junk: Bytes, writes: seq<Call>, n: nat)
    requires q.Valid() && q.hold.NoHold? && !q.IsFull() && len <= q.maxPayload == |junk|
    requires Writes(writes, len) && n <= len
    ensures var calls := [Reserve(len, junk)] + (writes + [Commit(n)]);
      && AllAllowed(q, calls) && |After(q, calls).published| == |q.published| + 1
      && var data := After(q, calls).published[|q.published|];
      && After(q, calls) == q.(published := q.published + [data]) && |data| == n
      && forall i :: 0 <= i < n ==> LastWritten(writes, junk[i], i, data[i])
  {
    DoValid(q, Reserve(len, junk));
    var q1 := Do(q, Reserve(len, junk)).0;
    WritesRun(q1, writes);
    RunAppend(q1, writes, Commit(n));
    RunCons(q, Reserve(len, junk), writes + [Commit(n)]);
  }

  /** A reservation is refused exactly when a push of that length would be. */
  lemma ReserveAnswersAsPush(q: Queue, len: nat, junk: Bytes, data: Bytes)
    requires q.Valid() && q.hold.NoHold? && |junk| == q.maxPayload && |data| == len
    ensures Do(q, Reserve(len, junk)).1.code == Do(q, Push(data)).1.code
  {
  }

  // ------------------------------------------------- calls and slot contents

  /** The same call; a reservation may find other bytes in its slot. */
  predicate SameCall(c: Call, d: Call) {
    c == d || (c.Reserve? && d.Reserve? && c.len == d.len)
  }

  predicate SameCalls(calls: seq<Call>, done: seq<Call>) {
    |calls| == |done| && forall k :: 0 <= k < |calls| ==> SameCall(calls[k], done[k])
  }

  /** Lengths of the queued messages, oldest first. */
  function Lengths(q: Queue): (r: seq<nat>)
    requires q.consumed <= |q.published|
    ensures |r| == |q.published| - q.consumed
  {
    seq(|q.published| - q.consumed, k requires 0 <= k < |q.published| - q.consumed => |q.published[q.consumed + k]|)
  }

  /** Queues that differ at most in message contents and in what was consumed earlier. */
  ghost predicate Alike(q: Queue, q': Queue) {
    && q.Valid() && q'.Valid()
    && q.capacity == q'.capacity && q.maxPayload == q'.maxPayload && Lengths(q) == Lengths(q')
    && (q.hold.Hold? <==> q'.hold.Hold?) && (q.hold.Hold? ==> q.hold.len == q'.hold.len)
  }

  /** What a call does to the lengths. */
  lemma LengthsStep(q: Queue, c: Call)
    requires q.Valid() && Allowed(q, c)
    ensures var q1, l := Do(q, c).0, Lengths(q);
      && q1.Valid()
      && Lengths(q1) ==
           (if Do(q, c).1.code != Ok then l
            else match c
              case Push(data) => l + [|data|]
              case Commit(n) => l + [n]
              case Pop(_) => l[1..]
              case Release => l[1..]
              case _ => l)
  {
    DoValid(q, c);
  }

  /** Return codes and usage rules look at lengths only. */
  lemma AlikeCodes(q: Queue, q': Queue, c: Call, d: Call)
    requires Alike(q, q') && SameCall(c, d) && Allowed(q, c) && (d.Reserve? ==> |d.junk| == q.maxPayload)
    ensures Allowed(q', d) && Do(q, c).1.code == Do(q', d).1.code
  {
    assert Lengths(q) != [] ==> Lengths(q)[0] == |q.published[q.consumed]| && Lengths(q')[0] == |q'.published[q'.consumed]|;
  }

  /** What a call does to the sizes and to the reservation. */
  lemma HoldStep(q: Queue, c: Call)
    requires q.Valid() && Allowed(q, c)
    ensures var q1 := Do(q, c).0;
      && q1.capacity == q.capacity && q1.maxPayload == q.maxPayload
      && (q1.hold.Hold? <==> !(c.Commit? && Do(q, c).1.code == Ok) && (q.hold.Hold? || (c.Reserve? && Do(q, c).1.code == Ok)))
      && (q1.hold.Hold? ==> q1.hold.len == (if q.hold.Hold? then q.hold.len else c.len))
  {
  }

  lemma AlikeStep(q: Queue, q': Queue, c: Call, d: Call)
    requires Alike(q, q') && SameCall(c, d) && Allowed(q, c) && (d.Reserve? ==> |d.junk| == q.maxPayload)
    ensures Allowed(q', d) && Alike(Do(q, c).0, Do(q', d).0)
  {
    AlikeCodes(q, q', c, d);
    LengthsStep(q, c);
    LengthsStep(q', d);
    HoldStep(q, c);
    HoldStep(q', d);
  }

  lemma {:induction false} AlikeRun(q: Queue, q': Queue, calls: seq<Call>)
    requires Alike(q, q') && AllAllowed(q, calls)
    ensures AllAllowed(q', calls)
    decreases |calls|
  {
    if calls != [] {
      AlikeStep(q, q', calls[0], calls[0]);
      DoValid(q, calls[0]);
      DoValid(q', calls[0]);
      AlikeRun(Do(q, calls[0]).0, Do(q', calls[0]).0, calls[1..]);
    }
  }
}

/**
  The retrying pushes of src/backpressure.c, run against a queue that a consumer
  drains between attempts and against a clock, both arbitrary.
 */
module Backpressure {
  import opened Words
  import opened Payload
  import opened BoundedQueue

  const MAX_DELAY: int := 100000
  const MAX_SPINS: int := 100
  const SLEEP_US: int := 10
  const INT_MAX: int := 0x7FFF_FFFF
  const INT64_MAX: int := 0x7FFF_FFFF_FFFF_FFFF

  /** The consumer during the attempts, which are counted from 0: the messages it takes
      before each, and the attempts that load an old tail, a full queue behind head. */
  datatype World = World(takes: nat -> nat, stale: nat -> bool) {
    /** Messages that the consumer may take in n attempts, beginning with attempt `from`. */
    function Room(from: nat, n: nat): nat {
      if n == 0 then 0 else Room(from, n - 1) + takes(from + n - 1)
    }

    /** Read position after n attempts that added nothing to q. */
    function Eaten(q: Queue, from: nat, n: nat): nat {
      var upTo := q.consumed + Room(from, n);
      if upTo < |q.published| then upTo else |q.published|
    }

    /** With all earlier ones refused, attempt from + k on q is refused: the queue is full
        after the consumer's turn, or a stale tail makes it look full. */
    predicate Refused(q: Queue, from: nat, data: Bytes, k: nat) {
      && |data| <= q.maxPayload
      && ((stale(from + k) && |q.published| >= q.capacity)
          || |q.published| - Eaten(q, from, k + 1) >= q.capacity)
    }

    /** q is q0 with what the consumer took in n attempts gone, and the payloads `more` added. */
    ghost predicate Passed(q0: Queue, from: nat, n: nat, more: seq<Bytes>, q: Queue) {
      forall m: nat :: m == n ==> q == q0.(consumed := Eaten(q0, from, m), published := q0.published + more)
    }

    /** After n refused attempts on q0 the queue is q. */
    ghost predicate Trying(q0: Queue, from: nat, data: Bytes, n: nat, q: Queue) {
      (forall k :: 0 <= k < n ==> Refused(q0, from, data, k)) && Passed(q0, from, n, [], q)
    }

    /** n attempts were made on q0; all are refused but the last, unless the answer is FULL.
        It is the answer of the last one, which left q. */
    ghost predicate Answered(q0: Queue, from: nat, data: Bytes, n: int, code: Code, q: Queue) {
      && n > 0 && (forall k :: 0 <= k < n ==> (Refused(q0, from, data, k) <==> k < n - 1 || code == Full))
      && (code == TooBig <==> |data| > q0.maxPayload)
      && (code == Ok || code == Full || code == TooBig)
      && Passed(q0, from, n, if code == Ok then [data] else [], q)
    }

    /** The consumer's turn in attempt k on q. */
    function Turn(q: Queue, k: nat): Queue {
      var upTo := q.consumed + takes(k);
      q.(consumed := if upTo < |q.published| then upTo else |q.published|)
    }

    /** What one more attempt on q answers and leaves, after n refused ones. */
    lemma OneMore(q0: Queue, from: nat, data: Bytes, n: nat, q: Queue, code: Code, q': Queue)
      requires Trying(q0, from, data, n, q) && q.consumed <= |q.published|
      requires var t := Turn(q, from + n);
        && q' == t.(published := if code == Ok then q.published + [data] else q.published)
        && (code == TooBig <==> |data| > t.maxPayload)
        && (code == Full <==> |data| <= t.maxPayload && ((stale(from + n) && |t.published| >= t.capacity) || t.IsFull()))
        && (code == Ok || code == Full || code == TooBig)
      ensures Answered(q0, from, data, n + 1, code, q')
      ensures code == Full ==> Trying(q0, from, data, n + 1, q')
    {
      assert q == q0.(consumed := Eaten(q0, from, n), published := q0.published + []);
      assert Eaten(q0, from, n + 1) == Turn(q, from + n).consumed;
      assert code == Full <==> Refused(q0, from, data, n);
    }
  }

  /** One producer: its queue, the world around it, and a log of what it did. */
  class Sender {
    const world: World
    const clock: nat -> int     // k-th reading of the monotonic clock, in microseconds
    var q: Queue
    var attempts: nat
    var readings: nat
    var sleeps: seq<int>

    ghost predicate Valid()
      reads this`q
    {
      q.Valid() && q.hold.NoHold?
    }

    constructor (q: Queue, world: World, clock: nat -> int)
      requires q.Valid() && q.hold.NoHold?
      ensures Valid() && this.q == q && this.world == world && this.clock == clock
      ensures attempts == 0 && readings == 0 && sleeps == []
    {
      this.q, this.world, this.clock := q, world, clock;
      attempts, readings, sleeps := 0, 0, [];
    }

    /** The consumer gets its turn, then nabd_push runs once. */
    method Attempt(data: Bytes, ghost q0: Queue, ghost from: nat, ghost n: nat) returns (code: Code)
      requires Valid() && world.Trying(q0, from, data, n, q) && attempts == from + n
      modifies this`q, this`attempts
      ensures Valid() && attempts == old(attempts) + 1 && world.Answered(q0, from, data, n + 1, code, q)
      ensures code == Full ==> world.Trying(q0, from, data, n + 1, q)
      ensures code == Full ==> world.stale(old(attempts)) || world.takes(old(attempts)) == 0
    {
      ghost var before := q;
      var room := world.takes(attempts);
      var pending := |q.published| - q.consumed;
      q := q.(consumed := q.consumed + (if room < pending then room else pending));
      attempts := attempts + 1;
      if |data| <= q.maxPayload && world.stale(attempts - 1) && |q.published| >= q.capacity {
        code := Full;
      } else {
        var (q', answer) := Do(q, Push(data));
        DoValid(q, Push(data));
        q := q';
        code := answer.code;
      }
      world.OneMore(q0, from, data, n, before, code, q);
    }

    method Sleep(us: int)
      modifies this`sleeps
      ensures sleeps == old(sleeps) + [us]
    {
      sleeps := sleeps + [us];
    }

    method ReadClock() returns (now: int)
      modifies this`readings
      ensures readings == old(readings) + 1 && now == clock(old(readings))
    {
      now := clock(readings);
      readings := readings + 1;
    }

    /** The k-th sleep of a call, and the delay of the next one. */
    method SleepAndDouble(delay: int, ghost base: int, ghost k: nat, ghost before: seq<int>) returns (next: int)
      requires delay == Delay(base, k) && 0 < delay && Slept(before, sleeps, base, k)
      modifies this`sleeps
      ensures next == Delay(base, k + 1) && 0 < next <= MAX_DELAY
      ensures Slept(before, sleeps, base, k + 1)
    {
      Sleep(delay);
      assert Delays(base, k + 1) == Delays(base, k) + [delay];
      next := delay * 2;
      if next > MAX_DELAY { next := MAX_DELAY; }
    }

    /**
      nabd_push_backoff. With max_retries > 0 it ends by itself; without a limit
      it ends by attempt `taken`, which sees that the consumer took something. Attempts go
      on while they are refused: the answer is FULL exactly when a limit is set
      and that many attempts are refused, and otherwise that of the first attempt
      that is not. Its sleeps are the delays of the schedule (SleptInAll says how
      long they take). The doubling stays within `int` (fits) exactly when the
      base is at most 2^30 - 1 or no sleep was needed.
     */
    method PushBackoff(data: Bytes, maxRetries: int, baseDelay: int, ghost taken: nat) returns (code: Code, ghost fits: bool)
      requires Valid() && baseDelay <= INT_MAX && maxRetries <= INT_MAX
      requires maxRetries > 0 || (taken >= attempts && world.takes(taken) >= 1 && !world.stale(taken))
      modifies this`q, this`attempts, this`sleeps
      ensures Valid()
      ensures world.Answered(old(q), old(attempts), data, attempts - old(attempts), code, q)
      ensures code == Full ==> attempts == old(attempts) + maxRetries
      ensures code == Full <==> maxRetries > 0 && forall k :: 0 <= k < maxRetries ==> world.Refused(old(q), old(attempts), data, k)
      ensures Slept(old(sleeps), sleeps, baseDelay, attempts - old(attempts) - 1)
      ensures fits <==> 2 * baseDelay <= INT_MAX || sleeps == old(sleeps)
    {
      ghost var q0, from := q, attempts;
      fits := true;
      var delay := if baseDelay > 0 then baseDelay else 1;
      var retries := 0;
      while true
        invariant 0 <= retries && attempts == from + retries
        invariant Valid() && world.Trying(q0, from, data, retries, q)
        invariant maxRetries > 0 ==> retries < maxRetries
        invariant maxRetries <= 0 ==> attempts <= taken
        invariant delay == Delay(baseDelay, retries) && 0 < delay && (retries > 0 ==> delay <= MAX_DELAY)
        invariant fits <==> 2 * baseDelay <= INT_MAX || retries == 0
        invariant Slept(old(sleeps), sleeps, baseDelay, retries)
        decreases if maxRetries > 0 then maxRetries - retries else taken - attempts
      {
        code := Attempt(data, q0, from, retries);
        if code != Full {
          assert maxRetries > 0 ==> !world.Refused(q0, from, data, retries);
          return;
        }
        retries := retries + 1;
        if maxRetries > 0 && retries >= maxRetries { return Full, fits; }
        fits := fits && delay * 2 <= INT_MAX;
        delay := SleepAndDouble(delay, baseDelay, retries - 1, old(sleeps));
      }
    }

    /** Spin for a bit before sleeping; the spin count never passes 100. */
    method SpinOrSleep(spins: int) returns (spins': int)
      requires 0 <= spins <= MAX_SPINS
      modifies this`sleeps
      ensures spins' == Min(spins + 1, MAX_SPINS)
      ensures sleeps == old(sleeps) + (if spins < MAX_SPINS then [] else [SLEEP_US])
    {
      spins' := spins;
      if spins < MAX_SPINS {
        spins' := spins + 1;
      } else {
        var sleepTime := SLEEP_US * (spins / MAX_SPINS);
        if sleepTime > 1000 { sleepTime := 1000; }
        Sleep(sleepTime);
      }
    }

    /** From reading r on, n readings were taken, all before the deadline but, if late, the last. */
    predicate ReadingsBefore(r: nat, n: nat, deadline: int, late: bool) {
      && (forall j :: r <= j < r + n - 1 ==> clock(j) < deadline)
      && (n > 0 ==> (late <==> clock(r + n - 1) >= deadline))
    }

    /** After `rounds` refused attempts of the loop, each with its reading, spin or sleep. */
    ghost predicate Paced(timeout: int, deadline: int, r: nat, before: seq<int>, rounds: nat, spins: int)
      reads this`readings, this`sleeps
    {
      && spins == Min(rounds, MAX_SPINS) && ShortSleeps(before, sleeps, rounds - MAX_SPINS)
      && readings == r + (if timeout > 0 then rounds else 0)
      && (timeout > 0 ==> ReadingsBefore(r, rounds, deadline, false))
    }

    /**
      The loop made `rounds` + 1 attempts, its last answer was code, and it started
      at reading r: each refused attempt was followed by a reading before the
      deadline, if there is one, and by a spin or, after 100 of them, a sleep. FULL
      came with a reading that was not before the deadline.
     */
    ghost predicate LoopEnded(timeout: int, deadline: int, r: nat, before: seq<int>, rounds: nat, code: Code)
      reads this`readings, this`sleeps
    {
      && ShortSleeps(before, sleeps, rounds - MAX_SPINS)
      && if timeout <= 0 then code != Full && readings == r
         else if code == Full then readings == r + rounds + 1 && ReadingsBefore(r, rounds + 1, deadline, true)
         else readings == r + rounds && ReadingsBefore(r, rounds, deadline, false)
    }

    /** What follows a refused attempt: the clock, if there is a deadline, then a spin or a sleep. */
    method Pause(timeout: int, deadline: int, spins: int, ghost r: nat, ghost before: seq<int>, ghost rounds: nat)
        returns (late: bool, spins': int)
      requires Paced(timeout, deadline, r, before, rounds, spins)
      modifies this`readings, this`sleeps
      ensures late <==> timeout > 0 && clock(old(readings)) >= deadline
      ensures late ==> LoopEnded(timeout, deadline, r, before, rounds, Full)
      ensures !late ==> Paced(timeout, deadline, r, before, rounds + 1, spins')
    {
      late, spins' := false, spins;
      if timeout > 0 {
        var now := ReadClock();
        if now >= deadline { return true, spins; }
      }
      spins' := SpinOrSleep(spins);
    }

    /**
      The loop of nabd_push_wait, entered after one refused attempt. `last`
      witnesses that it ends. Each refused attempt is followed by one reading of
      the clock, if there is a deadline, and then by a spin or a sleep.
     */
    method RetryUntil(data: Bytes, timeout: int, deadline: int, ghost last: nat,
                      ghost q0: Queue, ghost from: nat) returns (code: Code, ghost rounds: nat)
      requires Valid() && timeout != 0 && world.Trying(q0, from, data, 1, q) && attempts == from + 1
      requires timeout > 0 ==> readings <= last && clock(last) >= deadline
      requires timeout < 0 ==> attempts <= last && world.takes(last) >= 1 && !world.stale(last)
      modifies this`q, this`attempts, this`readings, this`sleeps
      ensures Valid() && attempts == from + 2 + rounds && world.Answered(q0, from, data, rounds + 2, code, q)
      ensures LoopEnded(timeout, deadline, old(readings), old(sleeps), rounds, code)
    {
      var spins := 0;
      ghost var r, before := readings, sleeps;
      rounds := 0;
      while true
        invariant attempts == from + 1 + rounds
        invariant Valid() && world.Trying(q0, from, data, rounds + 1, q)
        invariant Paced(timeout, deadline, r, before, rounds, spins)
        invariant (if timeout > 0 then r else from + 1) + rounds <= last
        decreases last - rounds
      {
        code := Attempt(data, q0, from, rounds + 1);
        if code != Full { return; }
        var late;
        late, spins := Pause(timeout, deadline, spins, r, before, rounds);
        if late { return Full, rounds; }
        rounds := rounds + 1;
      }
    }

    /**
      nabd_push_wait. Attempts go on while they are refused, and the answer is that
      of the last one. FULL means that timeout was 0, or that a clock reading after
      the last attempt, and no earlier one, was at or past the deadline; a negative
      timeout never answers FULL; `last` witnesses that it ends. The first 100 retries only spin; every further one
      is followed by a sleep of exactly 10 microseconds. The deadline stays within
      `int64_t` (fits) exactly when it is not computed or the clock leaves room for
      the timeout.
     */
    method PushWait(data: Bytes, timeout: int, ghost last: nat) returns (code: Code, ghost fits: bool)
      requires Valid()
      requires timeout > 0 ==> last > readings && clock(last) >= clock(readings) + timeout
      requires timeout < 0 ==> last > attempts && world.takes(last) >= 1 && !world.stale(last)
      modifies this`q, this`attempts, this`readings, this`sleeps
      ensures Valid()
      ensures world.Answered(old(q), old(attempts), data, attempts - old(attempts), code, q)
      ensures attempts == old(attempts) + 1 ==>
        (code == Full ==> timeout == 0) && readings == old(readings) && sleeps == old(sleeps)
      ensures attempts > old(attempts) + 1 ==>
        && timeout != 0
        && LoopEnded(timeout, clock(old(readings)) + timeout, old(readings) + (if timeout > 0 then 1 else 0),
                     old(sleeps), attempts - old(attempts) - 2, code)
      ensures fits <==> timeout <= 0 || readings == old(readings) || clock(old(readings)) + timeout <= INT64_MAX
    {
      ghost var q0, from := q, attempts;
      fits := true;
      code := Attempt(data, q0, from, 0);
      if code != Full { return; }
      if timeout == 0 { return Full, fits; }

      var deadline := 0;
      if timeout > 0 {
        var now := ReadClock();
        deadline := now + timeout;
        fits := deadline <= INT64_MAX;
      }
      ghost var rounds;
      code, rounds := RetryUntil(data, timeout, deadline, last, q0, from);
    }
  }

  /** Since `before`, n sleeps of exactly 10 microseconds were added; none when n is negative. */
  ghost predicate ShortSleeps(before: seq<int>, now: seq<int>, n: int) {
    && before <= now && |now| == |before| + (if n > 0 then n else 0)
    && forall i :: |before| <= i < |now| ==> now[i] == SLEEP_US
  }

  // ------------------------------------------------------------ delay schedule

  /** The k-th sleep of the backoff, counted from 0. */
  function Delay(base: int, k: nat): int {
    if k == 0 then (if base > 0 then base else 1)
    else
      var d := 2 * Delay(base, k - 1);
      if d > MAX_DELAY then MAX_DELAY else d
  }

  function Min(a: int, b: int): int {
    if a < b then a else b
  }

  /** The first sleep is the base, or 1 for a base below 1; the k-th after it is
      min(first * 2^k, cap). */
  lemma {:induction false} DelayClosedForm(base: int, k: nat)
    ensures Delay(base, 0) == First(base)
    ensures k > 0 || base <= MAX_DELAY ==> Delay(base, k) == Min(First(base) * Pow2(k), MAX_DELAY)
  {
    if k != 0 {
      DelayClosedForm(base, k - 1);
      Doubled(First(base), Pow2(k - 1));
    }
  }

  function First(base: int): int {
    if base < 1 then 1 else base
  }

  /** Time slept in all. */
  function Sum(s: seq<int>): int {
    if s == [] then 0 else Sum(s[..|s| - 1]) + s[|s| - 1]
  }

  /** Since `before`, the first n sleeps of the schedule were added. */
  ghost predicate Slept(before: seq<int>, now: seq<int>, base: int, n: nat) {
    now == before + Delays(base, n)
  }

  /** The first n sleeps of a call. */
  function Delays(base: int, n: nat): (s: seq<int>)
    ensures |s| == n
  {
    if n == 0 then [] else Delays(base, n - 1) + [Delay(base, n - 1)]
  }

  lemma {:induction false} DelaysTotal(base: int, n: nat)
    ensures forall k :: 0 <= k < n ==> Delays(base, n)[k] == Delay(base, k)
    ensures Sum(Delays(base, n)) == TotalDelay(base, n)
  {
    if n != 0 {
      DelaysTotal(base, n - 1);
      assert Delays(base, n)[..n - 1] == Delays(base, n - 1);
    }
  }

  function TotalDelay(base: int, n: nat): int {
    if n == 0 then 0 else TotalDelay(base, n - 1) + Delay(base, n - 1)
  }

  lemma Doubled(base: int, p: int)
    ensures base * (2 * p) == 2 * (base * p)
    ensures base * (2 * p - 1) == base * (p - 1) + base * p
  {
  }

  lemma {:induction false} TotalDelayGeometric(base: int, n: nat)
    ensures TotalDelay(base, n) <= First(base) * (Pow2(n) - 1)
  {
    if n != 0 {
      TotalDelayGeometric(base, n - 1);
      DelayClosedForm(base, n - 1);
      Doubled(First(base), Pow2(n - 1));
    }
  }

  lemma {:induction false} TotalDelayCapped(base: int, n: nat)
    ensures TotalDelay(base, n) <= First(base) + n * MAX_DELAY
    ensures base <= MAX_DELAY ==> TotalDelay(base, n) <= n * MAX_DELAY
  {
    if n != 0 {
      TotalDelayCapped(base, n - 1);
      DelayClosedForm(base, n - 1);
    }
  }

  /** n sleeps take at most first * (2^n - 1), and at most n times the cap, if the base is
      within it, or that and the first sleep. */
  lemma TotalDelayBound(base: int, n: nat)
    ensures TotalDelay(base, n) <= First(base) * (Pow2(n) - 1)
    ensures TotalDelay(base, n) <= n * MAX_DELAY + (if base <= MAX_DELAY then 0 else base)
  {
    TotalDelayGeometric(base, n);
    TotalDelayCapped(base, n);
  }

  /** What a retrying push adds to the sleeps: each delay in turn, and their time. */
  lemma SleptInAll(before: seq<int>, now: seq<int>, base: int, n: nat)
    requires Slept(before, now, base, n)
    ensures before <= now && |now| == |before| + n
    ensures forall k :: 0 <= k < n ==> now[|before| + k] == Delay(base, k)
    ensures Sum(now[|before|..]) == TotalDelay(base, n)
    ensures Sum(now[|before|..]) <= First(base) * (Pow2(n) - 1)
    ensures Sum(now[|before|..]) <= n * MAX_DELAY + (if base <= MAX_DELAY then 0 else base)
  {
    DelaysTotal(base, n);
    assert now[|before|..] == Delays(base, n);
    TotalDelayBound(base, n);
  }
}

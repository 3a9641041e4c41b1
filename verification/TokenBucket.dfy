/** The token bucket that every multicast and unicast packet of an interface
    passes (babeld/message.c, check_bucket). */
module TokenBucket {
  const TOKENS_MAX := 200
  const TOKENS_PER_SEC := 40

  datatype Level = Level(bucket: nat, time: int)

  function Refilled(l: Level, now: int): Level {
    if l.bucket > 0 then l
    else
      var seconds := now - l.time;
      Level(if seconds <= 0 then 0
            else if seconds * TOKENS_PER_SEC < TOKENS_MAX then seconds * TOKENS_PER_SEC else TOKENS_MAX,
            now)
  }

  /** One packet offered at `now`: the new level, and whether it may go. */
  function Offer(l: Level, now: int): (Level, bool) {
    var r := Refilled(l, now);
    if r.bucket > 0 then (r.(bucket := r.bucket - 1), true) else (r, false)
  }

  class Interface {
    var bucket: nat
    var bucketTime: int

    function State(): Level
      reads this
    {
      Level(bucket, bucketTime)
    }

    constructor (now: int)
      ensures State() == Level(TOKENS_MAX, now)
    {
      bucket := TOKENS_MAX;
      bucketTime := now;
    }

    /** check_bucket */
    method CheckBucket(now: int) returns (send: bool)
      modifies this
      ensures (State(), send) == Offer(old(State()), now)
    {
      if bucket == 0 {
        var seconds := now - bucketTime;
        if seconds > 0 {
          bucket := if TOKENS_MAX < seconds * TOKENS_PER_SEC then TOKENS_MAX else seconds * TOKENS_PER_SEC;
        }
        bucketTime := now;
      }
      if bucket > 0 {
        bucket := bucket - 1;
        return true;
      } else {
        return false;
      }
    }
  }

  /** The packets let through when packets are offered at the given times. */
  function Sent(l: Level, times: seq<int>): nat
    decreases |times|
  {
    if times == [] then 0
    else
      var (l', ok) := Offer(l, times[0]);
      (if ok then 1 else 0) + Sent(l', times[1..])
  }

  /** How far the clock moved forward in all, starting at `clock`. */
  function Forward(clock: int, times: seq<int>): nat
    decreases |times|
  {
    if times == [] then 0
    else (if times[0] > clock then times[0] - clock else 0) + Forward(times[0], times[1..])
  }

  /** What a level is worth at clock time `clock`. */
  function Credit(l: Level, clock: int): nat {
    l.bucket + if clock > l.time then TOKENS_PER_SEC * (clock - l.time) else 0
  }

  /** The bound for every clock, stepped or not. */
  lemma {:induction false} SentBound(l: Level, clock: int, times: seq<int>)
    ensures Sent(l, times) <= Credit(l, clock) + TOKENS_PER_SEC * Forward(clock, times)
    decreases |times|
  {
    if times != [] {
      SentBound(Offer(l, times[0]).0, times[0], times[1..]);
    }
  }

  predicate Monotone(clock: int, times: seq<int>) {
    (times != [] ==> clock <= times[0]) && forall i :: 0 < i < |times| ==> times[i - 1] <= times[i]
  }

  lemma {:induction false} ForwardMonotone(clock: int, times: seq<int>)
    requires Monotone(clock, times) && times != []
    ensures Forward(clock, times) == times[|times| - 1] - clock
    decreases |times|
  {
    if |times| > 1 {
      var rest := times[1..];
      assert times[1 - 1] <= times[1];
      forall i | 0 < i < |rest| ensures rest[i - 1] <= rest[i] {
        assert times[i + 1 - 1] <= times[i + 1];
      }
      ForwardMonotone(times[0], rest);
      assert rest[|rest| - 1] == times[|times| - 1];
    }
  }

  /** With a monotone clock an interface lets through at most 200 packets, and
      40 more for every second since its bucket was filled. */
  lemma RateLimit(start: int, times: seq<int>)
    requires Monotone(start, times) && times != []
    ensures Sent(Level(TOKENS_MAX, start), times) <=
            TOKENS_MAX + TOKENS_PER_SEC * (times[|times| - 1] - start)
  {
    SentBound(Level(TOKENS_MAX, start), start, times);
    ForwardMonotone(start, times);
  }

  // ---- The bound is reached ----

  function Repeat(t: int, n: nat): (s: seq<int>) { seq(n, _ => t) }

  /** A level of n tokens lets n packets through at once. */
  lemma {:induction false} Drain(n: nat, time: int, t: int, rest: seq<int>)
    ensures Sent(Level(n, time), Repeat(t, n) + rest) == n + Sent(Level(0, time), rest)
  {
    if n > 0 {
      var times := Repeat(t, n) + rest;
      assert times[1..] == Repeat(t, n - 1) + rest;
      Drain(n - 1, time, t, rest);
    } else {
      assert Repeat(t, 0) + rest == rest;
    }
  }

  /** An empty bucket refilled once a second. */
  function Busy(start: int, seconds: nat): seq<int>
    decreases seconds
  {
    if seconds == 0 then [] else Repeat(start + 1, TOKENS_PER_SEC) + Busy(start + 1, seconds - 1)
  }

  lemma {:induction false} BusySent(start: int, seconds: nat)
    ensures Sent(Level(0, start), Busy(start, seconds)) == TOKENS_PER_SEC * seconds
    decreases seconds
  {
    if seconds > 0 {
      var rest := Busy(start + 1, seconds - 1);
      var times := Repeat(start + 1, TOKENS_PER_SEC) + rest;
      assert times == Busy(start, seconds);
      assert times[1..] == Repeat(start + 1, TOKENS_PER_SEC - 1) + rest;
      Drain(TOKENS_PER_SEC - 1, start + 1, start + 1, rest);
      BusySent(start + 1, seconds - 1);
    }
  }

  lemma {:induction false} BusyMonotone(start: int, seconds: nat)
    ensures forall i :: 0 <= i < |Busy(start, seconds)| ==> start < Busy(start, seconds)[i] <= start + seconds
    ensures Monotone(start, Busy(start, seconds))
    ensures seconds > 0 ==>
              Busy(start, seconds) != [] && Busy(start, seconds)[|Busy(start, seconds)| - 1] == start + seconds
    decreases seconds
  {
    if seconds > 0 {
      BusyMonotone(start + 1, seconds - 1);
      var rest := Busy(start + 1, seconds - 1);
      var times := Repeat(start + 1, TOKENS_PER_SEC) + rest;
      assert times == Busy(start, seconds);
      forall i | 0 < i < |times| ensures times[i - 1] <= times[i] {
        if i > TOKENS_PER_SEC { assert rest[i - TOKENS_PER_SEC - 1] <= rest[i - TOKENS_PER_SEC]; }
      }
    }
  }

  /** No smaller bound holds: some monotone run lets exactly that many through. */
  lemma RateReached(start: int, seconds: nat) returns (times: seq<int>)
    ensures times != [] && Monotone(start, times) && times[|times| - 1] == start + seconds
    ensures Sent(Level(TOKENS_MAX, start), times) == TOKENS_MAX + TOKENS_PER_SEC * seconds
  {
    times := Repeat(start, TOKENS_MAX) + Busy(start, seconds);
    Drain(TOKENS_MAX, start, start, Busy(start, seconds));
    BusySent(start, seconds);
    BusyMonotone(start, seconds);
    forall i | 0 < i < |times| ensures times[i - 1] <= times[i] {
      if i > TOKENS_MAX {
        assert Busy(start, seconds)[i - TOKENS_MAX - 1] <= Busy(start, seconds)[i - TOKENS_MAX];
      }
    }
  }

  // ---- Any clock: exactly how many packets can be let through ----

  /** What an empty bucket is refilled with after the clock moved from a to b. */
  function Refill(a: int, b: int): nat {
    if b <= a then 0 else if (b - a) * TOKENS_PER_SEC < TOKENS_MAX then (b - a) * TOKENS_PER_SEC else TOKENS_MAX
  }

  /** What a clock with these readings is worth in all. */
  function Gain(clock: int, readings: seq<int>): nat
    decreases |readings|
  {
    if readings == [] then 0 else Refill(clock, readings[0]) + Gain(readings[0], readings[1..])
  }

  /** Packets offered counts[i] times at the i-th reading. */
  function Offers(readings: seq<int>, counts: seq<nat>): (times: seq<int>)
    requires |counts| == |readings|
    decreases |readings|
  {
    if readings == [] then [] else Repeat(readings[0], counts[0]) + Offers(readings[1..], counts[1..])
  }

  /** What a level can still let through at clock time t. */
  function Worth(l: Level, t: int): nat { l.bucket + Refill(l.time, t) }

  /** A burst at one reading trades what the level is worth for packets; a long
      enough one empties it. */
  lemma {:induction false} Burst(l: Level, t: int, n: nat, rest: seq<int>) returns (l': Level)
    ensures Sent(l, Repeat(t, n) + rest) + Worth(l', t) == Worth(l, t) + Sent(l', rest)
    ensures n == 0 ==> l' == l
    ensures n > Worth(l, t) ==> l' == Level(0, t)
    decreases n
  {
    var times := Repeat(t, n) + rest;
    l' := l;
    if n > 0 {
      assert times[1..] == Repeat(t, n - 1) + rest;
      l' := Burst(Offer(l, t).0, t, n - 1, rest);
    } else {
      assert times == rest;
    }
  }

  /** Waiting longer is never worth more than waiting in parts. */
  lemma RefillParts(a: int, b: int, c: int)
    ensures Refill(a, c) <= Refill(a, b) + Refill(b, c)
  {
  }

  /** Whatever the clock does and however packets are offered at its readings,
      no more than its gain is let through beyond what the level is worth. */
  lemma {:induction false} GainBound(l: Level, clock: int, readings: seq<int>, counts: seq<nat>)
    requires |counts| == |readings|
    ensures Sent(l, Offers(readings, counts)) <= Worth(l, clock) + Gain(clock, readings)
    decreases |readings|
  {
    if readings != [] {
      var t, rest := readings[0], Offers(readings[1..], counts[1..]);
      var l' := Burst(l, t, counts[0], rest);
      GainBound(l', t, readings[1..], counts[1..]);
      RefillParts(l.time, clock, t);
    }
  }

  /** More packets than a level can ever be worth, at every reading. */
  function Flood(n: nat): seq<nat> { seq(n, _ => 2 * TOKENS_MAX + 1) }

  /** Offering enough packets at every reading takes the whole gain. */
  lemma {:induction false} GainReached(l: Level, readings: seq<int>)
    requires l.bucket <= TOKENS_MAX
    ensures Sent(l, Offers(readings, Flood(|readings|))) ==
            if readings == [] then 0 else l.bucket + Gain(l.time, readings)
    decreases |readings|
  {
    if readings != [] {
      var counts := Flood(|readings|);
      assert counts[1..] == Flood(|readings[1..]|);
      var t := readings[0];
      var l' := Burst(l, t, counts[0], Offers(readings[1..], counts[1..]));
      GainReached(l', readings[1..]);
    }
  }

  /** Some way of offering packets at these readings gets more than 200, and 40
      for every second from the start to the last reading, through. */
  ghost predicate Exceeds(start: int, readings: seq<int>)
    requires readings != []
  {
    exists counts: seq<nat> :: |counts| == |readings| &&
      Sent(Level(TOKENS_MAX, start), Offers(readings, counts)) >
      TOKENS_MAX + TOKENS_PER_SEC * (readings[|readings| - 1] - start)
  }

  /** For any clock: the rate limit can be exceeded exactly when the forward moves
      between readings, each counted for at most 5 seconds, add up to more than
      the time from the start to the last reading. */
  lemma ExceedsExactly(start: int, readings: seq<int>)
    requires readings != []
    ensures Exceeds(start, readings) <==>
            Gain(start, readings) > TOKENS_PER_SEC * (readings[|readings| - 1] - start)
  {
    var full := Level(TOKENS_MAX, start);
    GainReached(full, readings);
    assert |Flood(|readings|)| == |readings|;
    forall counts: seq<nat> | |counts| == |readings|
      ensures Sent(full, Offers(readings, counts)) <= TOKENS_MAX + Gain(start, readings)
    {
      GainBound(full, start, readings, counts);
    }
  }

  lemma {:induction false} GainForward(clock: int, readings: seq<int>)
    ensures Gain(clock, readings) <= TOKENS_PER_SEC * Forward(clock, readings)
    decreases |readings|
  {
    if readings != [] { GainForward(readings[0], readings[1..]); }
  }

  /** A monotone clock, such as the one babeld reads, never allows it. */
  lemma MonotoneNeverExceeds(start: int, readings: seq<int>)
    requires readings != [] && Monotone(start, readings)
    ensures !Exceeds(start, readings)
  {
    ExceedsExactly(start, readings);
    GainForward(start, readings);
    ForwardMonotone(start, readings);
  }

  /** Neither does every clock that is stepped back; but a second counted twice
      does. */
  lemma SteppedClocks()
    ensures !Exceeds(0, [100, 99]) && Exceeds(0, [1, 0, 1])
  {
    ExceedsExactly(0, [100, 99]);
    ExceedsExactly(0, [1, 0, 1]);
    assert [100, 99][1..] == [99] && [99][1..] == [];
    assert [1, 0, 1][1..] == [0, 1] && [0, 1][1..] == [1] && [1][1..] == [];
    assert Gain(0, [1]) == 40 && Gain(1, [0, 1]) == 40;
    assert Gain(100, [99]) == 0;
  }
}

/** When smoothing does not converge: calls less than a half-life apart take
    one-second steps that truncation can reduce to nothing. */
module SmoothingStall {
  import opened Seqno
  import opened Smoothing

  // ---- One-second steps that cannot move ----

  /** The largest value roughly() can return for distance d. */
  function MaxDraw(d: nat): nat
    requires d >= 4
  {
    d * 3 / 4 + d / 2 - 1
  }

  /** At distance d no draw moves the smoothed value in one second. */
  predicate Stuck(hl: nat, d: nat)
    requires hl >= 1
  {
    d >= 4 && MaxDraw(d) * Factor(hl) < 65536
  }

  lemma ShareMonotone(x: nat, y: nat, f: nat)
    requires x <= y
    ensures x * f <= y * f
  {
  }

  /** Stuck is exactly the condition under which every random choice leaves
      the value where it is. */
  lemma StuckExactly(metric: int, hl: nat, a: int)
    requires hl >= 1 && Abs(metric - a) >= 4
    ensures (forall b :: SecondStep(metric, hl, a, b) ==> b == a) <==> Stuck(hl, Abs(metric - a))
  {
    var d, f := Abs(metric - a), Factor(hl);
    if Stuck(hl, d) {
      forall b | SecondStep(metric, hl, a, b) ensures b == a {
        StuckStays(metric, hl, a, b);
      }
    } else {
      var b := Moved(metric, a, Share(MaxDraw(d), f));
      assert Draw(d, MaxDraw(d));
      hide Factor, MaxDraw, SecondStep, Draw;
      SecondMoves(metric, hl, a, b);
      assert SecondStep(metric, hl, a, b) && b != a;
    }
  }

  lemma StuckStays(metric: int, hl: nat, a: int, b: int)
    requires hl >= 1 && Stuck(hl, Abs(metric - a)) && SecondStep(metric, hl, a, b)
    ensures b == a
  {
    var d := Abs(metric - a);
    SecondMoves(metric, hl, a, b);
    var x: nat :| Draw(d, x) && b == Moved(metric, a, Share(x, Factor(hl)));
    assert x <= MaxDraw(d);
    ShareMonotone(x, MaxDraw(d), Factor(hl));
  }

  lemma SmallFactor(hl: nat)
    requires hl >= 4
    ensures Factor(hl) <= 12399
  {
    if hl > 4 {
      var q := 45426 / hl;
      assert q * hl <= 45426;
      assert q * 5 <= q * hl;
    }
  }

  /** Some distance is stuck exactly for half-lives of four seconds and more;
      with the default of four seconds, the distances 4 and 5. */
  lemma StuckHalfLives(hl: nat, d: nat)
    requires hl >= 1
    ensures (exists e: nat :: Stuck(hl, e)) <==> hl >= 4
    ensures Stuck(4, d) <==> d == 4 || d == 5
  {
    if hl >= 4 {
      SmallFactor(hl);
      assert MaxDraw(4) == 4;
      assert Stuck(hl, 4);
    }
    if e: nat :| Stuck(hl, e) {
      ShareMonotone(4, MaxDraw(e), Factor(hl));
    }
    if d >= 6 { ShareMonotone(6, MaxDraw(d), 12399); }
  }

  /** Calls closer together than a half-life. */
  predicate ShortGaps(hl: nat, states: seq<Smooth>) {
    forall i :: 0 <= i < |states| - 1 ==> 0 <= states[i + 1].time - states[i].time < hl
  }

  lemma {:induction false} SecondsStuck(metric: int, hl: nat, s: Smooth, t: Smooth, n: nat)
    requires hl >= 1 && Stuck(hl, Abs(metric - s.value)) && Seconds(metric, hl, s, t, n)
    ensures t.value == s.value
    decreases n
  {
    hide Seconds, SecondStep, Stuck;
    var c := LastSecond(metric, hl, s, t, n);
    if n > 0 {
      SecondsStuck(metric, hl, s, c, n - 1);
      StuckStays(metric, hl, c.value, t.value);
    }
  }

  /** A call less than a half-life after the last one. */
  lemma Brief(s: Smooth, metric: U16, hl: nat, now: int, s': Smooth) returns (w: Smooth)
    requires Called(s, metric, hl, now, s') && !Immediate(s, metric, hl, now) && now < s.time + hl
    ensures Seconds(metric, hl, s, w, now - s.time) && s' == Smooth(Snapped(metric, w.value), now)
    ensures Toward(metric, s.value, w.value)
  {
    hide Called, HalfLives, Seconds, Toward, Snapped, LeftAfter;
    var v, n, m;
    v, n, w, m := Inside(s, metric, hl, now, s');
    NoHalfLife(n, hl, v.time - s.time);
    var c := LastHalfLife(metric, hl, s, v, n);
  }

  lemma NoHalfLife(n: nat, hl: nat, gap: int)
    requires gap == n * hl && gap < hl
    ensures n == 0
  {
    assert n >= 1 ==> n * hl >= hl;
  }

  lemma CallStuck(s: Smooth, metric: U16, hl: nat, now: int, s': Smooth)
    requires hl >= 1 && metric < INF && s.time <= now < s.time + hl
    requires Stuck(hl, Abs(metric - s.value)) && Called(s, metric, hl, now, s')
    ensures s'.value == s.value
  {
    assert !Immediate(s, metric, hl, now);
    hide Called, Seconds, Factor, MaxDraw;
    var w := Brief(s, metric, hl, now, s');
    SecondsStuck(metric, hl, s, w, now - s.time);
  }

  /** A stuck value never moves, however long the run and whatever is drawn. */
  lemma {:induction false} StuckForever(metric: U16, hl: nat, states: seq<Smooth>, i: nat)
    requires hl >= 1 && metric < INF && Run(metric, hl, states) && ShortGaps(hl, states) && i < |states|
    requires Stuck(hl, Abs(metric - states[0].value))
    ensures states[i].value == states[0].value
  {
    if i > 0 {
      StuckForever(metric, hl, states, i - 1);
      assert Called(states[i - 1], metric, hl, states[i - 1 + 1].time, states[i - 1 + 1]);
      CallStuck(states[i - 1], metric, hl, states[i].time, states[i]);
    }
  }

  // ---- For which half-lives every run converges ----

  /** Calls in different seconds. */
  predicate Advancing(states: seq<Smooth>) {
    forall i :: 0 <= i < |states| - 1 ==> states[i].time < states[i + 1].time
  }

  ghost predicate RunFrom(metric: U16, hl: nat, states: seq<Smooth>) {
    states != [] && metric < INF && Abs(metric - states[0].value) <= 65535 && Run(metric, hl, states)
  }

  /** There is a number of calls after which every run, with calls in different
      seconds and any random choices, has reached its constant metric. */
  ghost predicate AlwaysConverges(hl: nat) {
    exists n: nat :: ConvergesWithin(hl, n)
  }

  ghost predicate ConvergesWithin(hl: nat, n: nat) {
    forall metric: U16, states: seq<Smooth> :: RunFrom(metric, hl, states) && Advancing(states) && |states| > n ==>
      states[|states| - 1].value == metric
  }

  lemma SecondProgress(metric: U16, a: int, b: int)
    requires Abs(metric - a) >= 4 && SecondStep(metric, 2, a, b)
    ensures Abs(metric - b) < Abs(metric - a)
  {
    SecondMoves(metric, 2, a, b);
    var x: nat :| Draw(Abs(metric - a), x) && b == Moved(metric, a, Share(x, Factor(2)));
    assert x >= 3;
    Scaled(x, Factor(2));
    MovedToward(metric, a, x, Share(x, Factor(2)));
  }

  lemma CallProgress(a: Smooth, metric: U16, hl: nat, b: Smooth)
    requires hl <= 2 && a.time < b.time && Called(a, metric, hl, b.time, b)
    ensures b.value == metric || Abs(metric - b.value) < Abs(metric - a.value)
  {
    NeverOvershoots(a, metric, hl, b.time, b);
    if b.time - a.time >= hl {
      CallShrinks(a, metric, hl, b.time, b, 1);
      assert LeftAfter(Abs(metric - a.value), 1) == Left(LeftAfter(Abs(metric - a.value), 0));
    } else if !Immediate(a, metric, hl, b.time) {
      hide Called, Seconds, SecondStep, LeftAfter;
      var w := Brief(a, metric, hl, b.time, b);
      OneSecond(metric, hl, a, w);
      if Abs(metric - a.value) >= 4 { SecondProgress(metric, a.value, w.value); }
    }
  }

  lemma OneSecond(metric: int, hl: nat, s: Smooth, t: Smooth)
    requires hl >= 1 && Seconds(metric, hl, s, t, 1)
    ensures SecondStep(metric, hl, s.value, t.value)
  {
    var c :| Seconds(metric, hl, s, c, 0) && SecondStep(metric, hl, c.value, t.value) && t.time == c.time + 1;
  }

  lemma {:induction false} RunProgress(metric: U16, hl: nat, states: seq<Smooth>)
    requires hl <= 2 && states != [] && Run(metric, hl, states) && Advancing(states)
    ensures var last := states[|states| - 1].value;
            last == metric || Abs(metric - last) <= Abs(metric - states[0].value) - (|states| - 1)
    decreases |states|
  {
    var n := |states|;
    if n > 1 {
      RunProgress(metric, hl, states[..n - 1]);
      assert Called(states[n - 2], metric, hl, states[n - 2 + 1].time, states[n - 2 + 1]);
      assert states[n - 2].time < states[n - 2 + 1].time;
      CallProgress(states[n - 2], metric, hl, states[n - 1]);
    }
  }

  /** A run with a call every second that never moves. */
  function Standstill(n: nat): seq<Smooth> { seq(n, i => Smooth(0, i)) }

  lemma StandsStill(hl: nat, i: int)
    requires hl >= 3
    ensures Called(Smooth(0, i), 4, hl, i + 1, Smooth(0, i + 1))
  {
    var s, w := Smooth(0, i), Smooth(0, i + 1);
    if hl >= 4 { SmallFactor(hl); }
    assert Draw(4, 3) && Share(3, Factor(hl)) == 0;
    SecondMoves(4, hl, 0, 0);
    assert HalfLives(4, hl, s, s, 0);
    assert Seconds(4, hl, s, s, 0);
    assert Seconds(4, hl, s, w, 1);
  }

  /** Every run converges exactly for half-lives of at most two seconds. */
  lemma ConvergesExactly(hl: nat)
    ensures AlwaysConverges(hl) <==> hl <= 2
  {
    if hl <= 2 {
      forall metric: U16, states: seq<Smooth> | RunFrom(metric, hl, states) && Advancing(states) && |states| > 65536
        ensures states[|states| - 1].value == metric
      {
        RunProgress(metric, hl, states);
      }
      assert ConvergesWithin(hl, 65536);
    } else if n: nat :| ConvergesWithin(hl, n) {
      var states := Standstill(n + 1);
      forall i | 0 <= i < |states| - 1 ensures Called(states[i], 4, hl, states[i + 1].time, states[i + 1]) {
        StandsStill(hl, i);
      }
      assert RunFrom(4, hl, states) && Advancing(states);
    }
  }
}

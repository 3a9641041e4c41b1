/** The smoothed metric of a route (babeld/route.c, route_smoothed_metric):
    an exponential approach to the metric with randomised steps, over
    mathematical integers. A random draw is any value roughly() can return. */
module Smoothing {
  import opened Seqno

  /** What route_smoothed_metric keeps in a route. */
  datatype Smooth = Smooth(value: int, time: int)

  /** C division, toward zero. */
  function Trunc(a: int, b: int): int
    requires b > 0
  {
    if a >= 0 then a / b else -((-a) / b)
  }

  function Abs(x: int): nat { if x < 0 then -x else x }

  /** two_to_the_one_over_hl - 0x10000, as change_smoothing_half_life sets it. */
  function Factor(hl: nat): nat
    requires hl >= 1
  {
    if hl == 1 then 65536 else if hl == 2 then 27146 else if hl == 3 then 17034
    else if hl == 4 then 12399 else 45426 / hl
  }

  /** r is a possible result of roughly(v). */
  predicate Rough(v: int, r: int)
    decreases v < 0
  {
    if v < 0 then Rough(-v, -r)
    else if v <= 1 then r == v
    else v * 3 / 4 <= r < v * 3 / 4 + v / 2
  }

  method Roughly(v: int) returns (r: int)
    ensures Rough(v, r)
    decreases v < 0
  {
    if v < 0 {
      r := Roughly(-v);
      r := -r;
    } else if v <= 1 {
      r := v;
    } else {
      var random: nat := *;
      r := v * 3 / 4 + random % (v / 2);
    }
  }

  // ---- One call ----

  ghost predicate HalfLifeStep(metric: int, a: int, b: int) {
    exists r :: Rough(metric - a, r) && b == a + Trunc(r, 2)
  }

  ghost predicate SecondStep(metric: int, hl: nat, a: int, b: int)
    requires hl >= 1
  {
    exists r :: Rough(metric - a, r) && b == a + Trunc(r * Factor(hl), 65536)
  }

  /** n turns of the first loop. */
  ghost predicate HalfLives(metric: int, hl: nat, s: Smooth, t: Smooth, n: nat)
    decreases n
  {
    if n == 0 then s == t
    else exists c :: HalfLives(metric, hl, s, c, n - 1) && HalfLifeStep(metric, c.value, t.value) && t.time == c.time + hl
  }

  /** n turns of the second loop. */
  ghost predicate Seconds(metric: int, hl: nat, s: Smooth, t: Smooth, n: nat)
    requires hl >= 1
    decreases n
  {
    if n == 0 then s == t
    else exists c :: Seconds(metric, hl, s, c, n - 1) && SecondStep(metric, hl, c.value, t.value) && t.time == c.time + 1
  }

  /** The final rounding. */
  function Snapped(metric: int, v: int): int {
    if -4 < metric - v < 4 then metric else v
  }

  predicate Immediate(s: Smooth, metric: U16, hl: nat, now: int) {
    hl == 0 || metric >= INF || s.time > now || s.value == metric
  }

  /** s' is a possible state after a call at `now` in state s. */
  ghost predicate Called(s: Smooth, metric: U16, hl: nat, now: int, s': Smooth) {
    if Immediate(s, metric, hl, now) then s' == Smooth(metric, now)
    else
      exists v, n, w, m ::
        && HalfLives(metric, hl, s, v, n) && now - hl < v.time <= now
        && Seconds(metric, hl, v, w, m) && w.time == now
        && s' == Smooth(Snapped(metric, w.value), now)
  }

  class SmoothedRoute {
    var value: int
    var time: int

    constructor (metric: U16, now: int)
      ensures State() == Smooth(metric, now)
    {
      value := metric;
      time := now;
    }

    function State(): Smooth
      reads this
    {
      Smooth(value, time)
    }

    /** route_smoothed_metric, with its closing assertion. */
    method Update(metric: U16, hl: nat, now: int) returns (v: int)
      modifies this
      ensures Called(old(State()), metric, hl, now, State())
      ensures v == value && time == now
    {
      if hl <= 0 || metric >= INF || time > now || value == metric {
        value := metric;
        time := now;
        return value;
      }
      ghost var s, n := State(), 0;
      while time <= now - hl
        invariant time <= now && HalfLives(metric, hl, s, State(), n)
        decreases now - time
      {
        ghost var c := State();
        var r := Roughly(metric - value);
        value := value + Trunc(r, 2);
        time := time + hl;
        assert HalfLifeStep(metric, c.value, value);
        n := n + 1;
      }
      ghost var v0, m := State(), 0;
      while time < now
        invariant time <= now && Seconds(metric, hl, v0, State(), m)
      {
        ghost var c := State();
        var r := Roughly(metric - value);
        value := value + Trunc(r * Factor(hl), 65536);
        time := time + 1;
        assert SecondStep(metric, hl, c.value, value);
        m := m + 1;
      }
      ghost var w := State();
      if -4 < metric - value < 4 {
        value := metric;
      }
      assert Seconds(metric, hl, v0, w, m) && HalfLives(metric, hl, s, v0, n);
      return value;
    }
  }

  // ---- Every step goes toward the metric ----

  /** b lies between a and the metric. */
  predicate Toward(metric: int, a: int, b: int) {
    a <= b <= metric || metric <= b <= a
  }

  /** The largest distance a half-life can leave of distance d. */
  function Left(d: nat): (r: nat)
    ensures r <= d && (d >= 4 ==> r < d)
  {
    d - d * 3 / 4 / 2
  }

  /** What the absolute value of a draw can be. */
  predicate Draw(d: nat, x: nat) {
    if d <= 1 then x == d else d * 3 / 4 <= x < d * 3 / 4 + d / 2
  }

  lemma RoughIsDraw(v: int, r: int)
    ensures Rough(v, r) <==> Draw(Abs(v), Abs(r)) && (v >= 0 ==> r >= 0) && (v <= 0 ==> r <= 0)
  {
    if v < 0 { assert Rough(v, r) == Rough(-v, -r); }
  }

  function Signed(v: int, x: int): int { if v >= 0 then x else -x }

  /** Moving by t toward the metric. */
  function Moved(metric: int, a: int, t: nat): int {
    if metric >= a then a + t else a - t
  }

  lemma HalfLifeMoves(metric: int, a: int, b: int)
    ensures HalfLifeStep(metric, a, b) <==> exists x: nat :: Draw(Abs(metric - a), x) && b == Moved(metric, a, x / 2)
  {
    var v := metric - a;
    if HalfLifeStep(metric, a, b) {
      var r :| Rough(v, r) && b == a + Trunc(r, 2);
      RoughIsDraw(v, r);
    }
    if x: nat :| Draw(Abs(v), x) && b == Moved(metric, a, x / 2) {
      var r := Signed(v, x);
      RoughIsDraw(v, r);
      assert Trunc(r, 2) == if v >= 0 then x / 2 else -(x / 2);
    }
  }

  /** How far a draw of x moves in one second. */
  function Share(x: nat, f: nat): nat { x * f / 65536 }

  lemma SignedShare(r: int, f: nat)
    ensures Trunc(r * f, 65536) == Signed(r, Share(Abs(r), f))
  {
    if r < 0 {
      assert r * f == -(Abs(r) * f);
      assert Abs(r) * f >= 0;
    }
  }

  lemma SecondMoves(metric: int, hl: nat, a: int, b: int)
    requires hl >= 1
    ensures SecondStep(metric, hl, a, b) <==>
            exists x: nat :: Draw(Abs(metric - a), x) && b == Moved(metric, a, Share(x, Factor(hl)))
  {
    var v := metric - a;
    if SecondStep(metric, hl, a, b) {
      var r :| Rough(v, r) && b == a + Trunc(r * Factor(hl), 65536);
      hide Trunc, Share, Draw, Factor;
      RoughIsDraw(v, r);
      SignedShare(r, Factor(hl));
      assert Draw(Abs(v), Abs(r)) && b == Moved(metric, a, Share(Abs(r), Factor(hl)));
    }
    if x: nat :| Draw(Abs(v), x) && b == Moved(metric, a, Share(x, Factor(hl))) {
      hide Trunc, Share, Draw, Factor;
      var r := Signed(v, x);
      RoughIsDraw(v, r);
      SignedShare(r, Factor(hl));
      assert Rough(v, r) && b == a + Trunc(r * Factor(hl), 65536);
    }
  }

  lemma HalfLifeShrinks(metric: int, a: int, b: int)
    requires HalfLifeStep(metric, a, b)
    ensures Toward(metric, a, b) && Abs(metric - b) <= Left(Abs(metric - a))
  {
    HalfLifeMoves(metric, a, b);
  }

  lemma FactorBound(hl: nat)
    requires hl >= 2
    ensures Factor(hl) <= 27146
  {
    if hl > 4 { assert 45426 / hl <= 45426; Quotient(45426, hl); }
  }

  lemma Quotient(a: nat, b: nat)
    requires b >= 2
    ensures a / b <= a / 2
  {
    var q := a / b;
    assert q * b <= a;
    assert q * 2 <= q * b;
  }

  lemma SecondShrinks(metric: int, hl: nat, a: int, b: int)
    requires hl >= 2 && SecondStep(metric, hl, a, b)
    ensures Toward(metric, a, b)
  {
    SecondMoves(metric, hl, a, b);
    var x: nat :| Draw(Abs(metric - a), x) && b == Moved(metric, a, Share(x, Factor(hl)));
    FactorBound(hl);
    hide Share, Factor, Draw;
    Scaled(x, Factor(hl));
    MovedToward(metric, a, x, Share(x, Factor(hl)));
  }

  lemma MovedToward(metric: int, a: int, x: nat, t: nat)
    requires Draw(Abs(metric - a), x) && t <= x / 2
    ensures Toward(metric, a, Moved(metric, a, t))
    ensures Abs(metric - Moved(metric, a, t)) == Abs(metric - a) - t
  {
  }

  lemma Scaled(x: nat, f: nat)
    requires f <= 32768
    ensures Share(x, f) <= x / 2
  {
    var t := Share(x, f);
    assert x * f <= x * 32768;
    assert t * 65536 <= x * 32768;
  }

  // ---- One call: bounds, clock, rounding ----

  /** The state before the last turn of the first loop. */
  lemma LastHalfLife(metric: int, hl: nat, s: Smooth, t: Smooth, n: nat) returns (c: Smooth)
    requires HalfLives(metric, hl, s, t, n)
    ensures n == 0 ==> s == t
    ensures n > 0 ==> HalfLives(metric, hl, s, c, n - 1) && t.time == c.time + hl
    ensures n > 0 ==> Toward(metric, c.value, t.value) && Abs(metric - t.value) <= Left(Abs(metric - c.value))
  {
    c := s;
    if n > 0 {
      hide HalfLifeStep;
      c :| HalfLives(metric, hl, s, c, n - 1) && HalfLifeStep(metric, c.value, t.value) && t.time == c.time + hl;
      hide HalfLives, Left, Toward;
      HalfLifeShrinks(metric, c.value, t.value);
    }
  }

  lemma TowardTrans(metric: int, a: int, b: int, c: int)
    requires Toward(metric, a, b) && Toward(metric, b, c)
    ensures Toward(metric, a, c)
  {
  }

  lemma {:induction false} HalfLivesShrink(metric: int, hl: nat, s: Smooth, t: Smooth, n: nat)
    requires HalfLives(metric, hl, s, t, n)
    ensures Toward(metric, s.value, t.value) && t.time == s.time + n * hl
    ensures Abs(metric - t.value) <= LeftAfter(Abs(metric - s.value), n)
    decreases n
  {
    hide HalfLives, HalfLifeStep, Left;
    var c := LastHalfLife(metric, hl, s, t, n);
    if n > 0 {
      HalfLivesShrink(metric, hl, s, c, n - 1);
      LeftMonotone(Abs(metric - c.value), LeftAfter(Abs(metric - s.value), n - 1));
      TowardTrans(metric, s.value, c.value, t.value);
      assert n * hl == (n - 1) * hl + hl;
    }
  }

  /** The largest distance left after n half-lives. */
  function LeftAfter(d: nat, n: nat): nat { if n == 0 then d else Left(LeftAfter(d, n - 1)) }

  lemma LeftMonotone(d: nat, e: nat)
    requires d <= e
    ensures Left(d) <= Left(e)
  {
  }

  lemma {:induction false} LeftAfterMonotone(d: nat, e: nat, n: nat, m: nat)
    requires d <= e && n >= m
    ensures LeftAfter(d, n) <= LeftAfter(e, m)
    decreases n
  {
    if m > 0 {
      LeftAfterMonotone(d, e, n - 1, m - 1);
      LeftMonotone(LeftAfter(d, n - 1), LeftAfter(e, m - 1));
    } else if n > 0 {
      LeftAfterMonotone(d, e, n - 1, 0);
    }
  }

  /** The state before the last turn of the second loop. */
  lemma LastSecond(metric: int, hl: nat, s: Smooth, t: Smooth, n: nat) returns (c: Smooth)
    requires hl >= 1 && Seconds(metric, hl, s, t, n)
    ensures n == 0 ==> s == t
    ensures n > 0 ==> Seconds(metric, hl, s, c, n - 1)
    ensures n > 0 ==> SecondStep(metric, hl, c.value, t.value) && t.time == c.time + 1
  {
    c := s;
    if n > 0 {
      hide SecondStep;
      c :| Seconds(metric, hl, s, c, n - 1) && SecondStep(metric, hl, c.value, t.value) && t.time == c.time + 1;
    }
  }

  lemma {:induction false} SecondsShrink(metric: int, hl: nat, s: Smooth, t: Smooth, n: nat)
    requires hl >= 1 && Seconds(metric, hl, s, t, n)
    ensures t.time == s.time + n
    ensures hl >= 2 ==> Toward(metric, s.value, t.value)
    decreases n
  {
    hide Seconds, SecondStep;
    var c := LastSecond(metric, hl, s, t, n);
    if n > 0 {
      SecondsShrink(metric, hl, s, c, n - 1);
      if hl >= 2 {
        SecondShrinks(metric, hl, c.value, t.value);
        TowardTrans(metric, s.value, c.value, t.value);
      }
    }
  }

  /** The two loops inside one call. */
  lemma Inside(s: Smooth, metric: U16, hl: nat, now: int, s': Smooth)
    returns (v: Smooth, n: nat, w: Smooth, m: nat)
    requires Called(s, metric, hl, now, s') && !Immediate(s, metric, hl, now)
    ensures HalfLives(metric, hl, s, v, n) && now - hl < v.time <= now && v.time == s.time + n * hl
    ensures Seconds(metric, hl, v, w, m) && w.time == now && now == v.time + m
    ensures s' == Smooth(Snapped(metric, w.value), now)
    ensures Toward(metric, s.value, v.value) && Toward(metric, v.value, w.value)
    ensures Abs(metric - v.value) <= LeftAfter(Abs(metric - s.value), n)
  {
    hide Seconds, HalfLives, Snapped, LeftAfter;
    v, n, w, m :|
      && HalfLives(metric, hl, s, v, n) && now - hl < v.time <= now
      && Seconds(metric, hl, v, w, m) && w.time == now
      && s' == Smooth(Snapped(metric, w.value), now);
    HalfLivesShrink(metric, hl, s, v, n);
    SecondsShrink(metric, hl, v, w, m);
    var c := LastSecond(metric, hl, v, w, m);
  }

  /** The smoothed value stays between its old value and the metric, for every
      half-life and every random choice, and the clock ends at now. */
  lemma NeverOvershoots(s: Smooth, metric: U16, hl: nat, now: int, s': Smooth)
    requires Called(s, metric, hl, now, s')
    ensures Toward(metric, s.value, s'.value) && s'.time == now
    ensures s'.value == metric || Abs(metric - s'.value) >= 4
  {
    if !Immediate(s, metric, hl, now) {
      var v, n, w, m := Inside(s, metric, hl, now, s');
    }
  }

  lemma NoTime(n: nat, hl: nat, m: nat)
    requires hl >= 1 && n * hl + m == 0
    ensures n == 0 && m == 0
  {
  }

  lemma WholeHalfLives(n: nat, k: nat, hl: nat, gap: int)
    requires k == 0 || gap - hl < n * hl
    requires k > 0 ==> gap >= k * hl
    ensures n >= k
  {
    assert n < k ==> n * hl <= (k - 1) * hl;
  }

  /** A second call in the same second changes nothing. */
  lemma CalledTwice(s: Smooth, metric: U16, hl: nat, now: int, s': Smooth, s'': Smooth)
    requires Called(s, metric, hl, now, s') && Called(s', metric, hl, now, s'')
    ensures s'' == s'
  {
    NeverOvershoots(s, metric, hl, now, s');
    if !Immediate(s', metric, hl, now) {
      var v, n, w, m := Inside(s', metric, hl, now, s'');
      NoTime(n, hl, m);
    }
  }

  /** How much whole half-lives inside one call leave of the distance. */
  lemma CallShrinks(s: Smooth, metric: U16, hl: nat, now: int, s': Smooth, k: nat)
    requires Called(s, metric, hl, now, s') && (k > 0 ==> now - s.time >= k * hl)
    ensures Abs(metric - s'.value) <= LeftAfter(Abs(metric - s.value), k)
  {
    if !Immediate(s, metric, hl, now) {
      var v, n, w, m := Inside(s, metric, hl, now, s');
      hide Called, HalfLives, Seconds, LeftAfter;
      WholeHalfLives(n, k, hl, now - s.time);
      LeftAfterMonotone(Abs(metric - s.value), Abs(metric - s.value), n, k);
    }
  }

  const ENOUGH: nat := 23

  lemma LeftStep(n: nat, x: nat)
    requires LeftAfter(65535, n) == x || (n == 0 && x == 65535)
    ensures LeftAfter(65535, n + 1) == Left(x)
  {
  }

  lemma HalfWay()
    ensures LeftAfter(65535, 12) == 234
  {
    hide LeftAfter;
    LeftStep(0, 65535); LeftStep(1, 40960); LeftStep(2, 25600); LeftStep(3, 16000); LeftStep(4, 10000); LeftStep(5, 6250);
    LeftStep(6, 3907); LeftStep(7, 2442); LeftStep(8, 1527); LeftStep(9, 955); LeftStep(10, 597); LeftStep(11, 374);
  }

  /** 23 half-lives close every distance between 16-bit metrics. */
  lemma EnoughHalfLives(d: nat)
    requires d <= 65535
    ensures LeftAfter(d, ENOUGH) <= 3
  {
    hide LeftAfter;
    HalfWay();
    LeftStep(12, 234); LeftStep(13, 147); LeftStep(14, 92); LeftStep(15, 58); LeftStep(16, 37); LeftStep(17, 24);
    LeftStep(18, 15); LeftStep(19, 10); LeftStep(20, 7); LeftStep(21, 5); LeftStep(22, 4);
    LeftAfterMonotone(d, 65535, ENOUGH, ENOUGH);
  }

  // ---- Runs of calls under one metric ----

  /** The states before and after each call of a run. */
  ghost predicate Run(metric: U16, hl: nat, states: seq<Smooth>) {
    forall i :: 0 <= i < |states| - 1 ==> Called(states[i], metric, hl, states[i + 1].time, states[i + 1])
  }

  /** The whole half-lives that pass between two calls; a clock that is stepped
      back counts for none. */
  function HalfLivesIn(hl: nat, gap: int): nat
    requires hl >= 1
  {
    if gap < 0 then 0 else gap / hl
  }

  /** The whole half-lives inside the calls of a run. */
  function Elapsed(hl: nat, states: seq<Smooth>): nat
    requires hl >= 1
  {
    if |states| < 2 then 0
    else
      var n := |states|;
      Elapsed(hl, states[..n - 1]) + HalfLivesIn(hl, states[n - 1].time - states[n - 2].time)
  }

  lemma RunLast(metric: U16, hl: nat, states: seq<Smooth>)
    requires |states| > 1 && Run(metric, hl, states)
    ensures Run(metric, hl, states[..|states| - 1])
    ensures var n := |states|; Called(states[n - 2], metric, hl, states[n - 1].time, states[n - 1])
  {
    var n := |states|;
    assert Called(states[n - 2], metric, hl, states[n - 2 + 1].time, states[n - 2 + 1]);
  }

  lemma {:induction false} LeftAfterTwice(d: nat, g: nat, k: nat)
    ensures LeftAfter(LeftAfter(d, g), k) == LeftAfter(d, g + k)
  {
    if k > 0 { LeftAfterTwice(d, g, k - 1); }
  }

  lemma {:induction false} RunShrinks(metric: U16, hl: nat, states: seq<Smooth>)
    requires hl >= 1 && states != [] && Run(metric, hl, states)
    ensures var last := states[|states| - 1].value;
            && Toward(metric, states[0].value, last)
            && Abs(metric - last) <= LeftAfter(Abs(metric - states[0].value), Elapsed(hl, states))
            && (|states| > 1 ==> last == metric || Abs(metric - last) >= 4)
    decreases |states|
  {
    var n := |states|;
    if n > 1 {
      var pre := states[..n - 1];
      RunLast(metric, hl, states);
      hide Called, LeftAfter, Run;
      RunShrinks(metric, hl, pre);
      RunStep(metric, hl, states[n - 2], states[n - 1], Abs(metric - states[0].value), Elapsed(hl, pre));
    }
  }

  lemma RunStep(metric: U16, hl: nat, a: Smooth, b: Smooth, d: nat, g: nat)
    requires hl >= 1 && Called(a, metric, hl, b.time, b) && Abs(metric - a.value) <= LeftAfter(d, g)
    ensures Toward(metric, a.value, b.value) && (b.value == metric || Abs(metric - b.value) >= 4)
    ensures Abs(metric - b.value) <= LeftAfter(d, g + HalfLivesIn(hl, b.time - a.time))
  {
    var k := HalfLivesIn(hl, b.time - a.time);
    NeverOvershoots(a, metric, hl, b.time, b);
    hide Called, LeftAfter;
    if k > 0 { DivideGap(b.time - a.time, hl); }
    CallShrinks(a, metric, hl, b.time, b, k);
    LeftAfterMonotone(Abs(metric - a.value), LeftAfter(d, g), k, k);
    LeftAfterTwice(d, g, k);
  }

  lemma DivideGap(gap: int, hl: nat)
    requires hl >= 1
    ensures gap >= gap / hl * hl
  {
  }

  /** Under a constant metric the smoothed value is the metric once 23 half-lives
      have passed inside its calls, however many calls these are and whatever is
      drawn; without smoothing, after one call. */
  lemma ConvergesAfterHalfLives(metric: U16, hl: nat, states: seq<Smooth>)
    requires states != [] && Run(metric, hl, states) && Abs(metric - states[0].value) <= 65535
    requires if hl == 0 then |states| > 1 else Elapsed(hl, states) >= ENOUGH
    ensures states[|states| - 1].value == metric
  {
    if hl == 0 {
      RunLast(metric, hl, states);
    } else {
      RunShrinks(metric, hl, states);
      var d := Abs(metric - states[0].value);
      EnoughHalfLives(d);
      LeftAfterMonotone(d, d, Elapsed(hl, states), ENOUGH);
    }
  }

  /** In particular one call after 23 half-lives is enough. */
  lemma ConvergesInOneCall(s: Smooth, metric: U16, hl: nat, now: int, s': Smooth)
    requires Called(s, metric, hl, now, s') && Abs(metric - s.value) <= 65535 && now - s.time >= ENOUGH * hl
    ensures s'.value == metric
  {
    NeverOvershoots(s, metric, hl, now, s');
    hide Called, LeftAfter;
    CallShrinks(s, metric, hl, now, s', ENOUGH);
    EnoughHalfLives(Abs(metric - s.value));
  }
}

/** route_smoothed_metric in the integers it is computed in: a product of type
    int that may overflow, taken as wrapping around, and a result that is stored
    in an unsigned short (babeld/route.h:32). */
module SmoothingWrap {
  import opened Seqno
  import opened Smoothing

  function Int32(x: int): int { (x + 0x8000_0000) % 0x1_0000_0000 - 0x8000_0000 }

  lemma Int32Values(x: int)
    requires Abs(x) < 0x1_8000_0000
    ensures Int32(x) == if x > 0x7fff_ffff then x - 0x1_0000_0000 else if x < -0x8000_0000 then x + 0x1_0000_0000 else x
  {
  }

  // ---- When the product overflows ----

  lemma DrawBounds(v: int, r: int)
    requires Rough(v, r) && Abs(v) <= 65535
    ensures Abs(r) <= 81917 && (Abs(v) < 63288 ==> Abs(r) < 79109)
  {
    RoughIsDraw(v, r);
  }

  lemma SlowFactor(hl: nat, r: int)
    requires hl >= 3 && Abs(r) <= 81917
    ensures Abs(r * Factor(hl)) <= 0x7fff_ffff
  {
    var f := Factor(hl);
    if hl > 4 {
      Divided(hl);
      assert f <= 9085;
    }
    assert f <= 17034;
    ProductBound(r, f);
  }

  lemma Divided(hl: nat)
    requires hl >= 5
    ensures 45426 / hl <= 9085
  {
    var q := 45426 / hl;
    assert q * hl <= 45426;
    assert q * 5 <= q * hl;
  }

  lemma ProductBound(r: int, f: nat)
    requires Abs(r) <= 81917 && f <= 17034
    ensures Abs(r * f) <= 0x7fff_ffff
  {
    var x := Abs(r);
    assert r * f == x * f || r * f == -(x * f);
    assert x * f <= 81917 * f;
  }

  /** Some draw takes the product out of the range of an int exactly when the
      half-life is two seconds and the distance at least 63288. A half-life of one
      second never gets to the product. */
  lemma OverflowExactly(hl: nat, v: int)
    requires hl >= 2 && Abs(v) <= 65535
    ensures (exists r :: Rough(v, r) && Int32(r * Factor(hl)) != r * Factor(hl)) <==> hl == 2 && Abs(v) >= 63288
  {
    if hl == 2 && Abs(v) >= 63288 {
      var x := Abs(v) * 3 / 4 + Abs(v) / 2 - 1;
      var r := Signed(v, x);
      RoughIsDraw(v, r);
      Int32Values(r * 27146);
      assert Rough(v, r) && Int32(r * Factor(hl)) != r * Factor(hl);
    }
    if r :| Rough(v, r) && Int32(r * Factor(hl)) != r * Factor(hl) {
      DrawBounds(v, r);
      if hl >= 3 {
        SlowFactor(hl, r);
        Int32Values(r * Factor(hl));
      } else {
        Int32Values(r * 27146);
      }
    }
  }

  // ---- What is stored then ----

  /** One turn of the second loop. */
  function WrappedStep(hl: nat, a: U16, r: int): (b: U16)
    requires hl >= 1
  {
    (a + Trunc(Int32(r * Factor(hl)), 65536)) % 65536
  }

  lemma StoredUp(a: U16, r: int)
    requires 79109 <= r <= 81917 && a <= 2247
    ensures var b := a + Trunc(r * 27146, 65536);
            && (a + Trunc(Int32(r * 27146), 65536)) % 65536 - b <= 1
            && (a + Trunc(Int32(r * 27146), 65536)) % 65536 >= b
            && 32768 <= b - a <= 33931
  {
    var p := r * 27146;
    Int32Values(p);
    var q := 0x1_0000_0000 - p;
    assert Trunc(Int32(p), 65536) == -(q / 65536);
    assert p / 65536 + q / 65536 == 65536 || p / 65536 + q / 65536 == 65535;
  }

  lemma StoredDown(a: U16, r: int)
    requires 79109 <= r <= 81917 && a >= 63288
    ensures var b := a + Trunc(-r * 27146, 65536);
            && b - (a + Trunc(Int32(-r * 27146), 65536)) % 65536 <= 1
            && (a + Trunc(Int32(-r * 27146), 65536)) % 65536 <= b
            && 32768 <= a - b <= 33931
  {
    var p := r * 27146;
    assert -r * 27146 == -p;
    Int32Values(-p);
    var q := 0x1_0000_0000 - p;
    assert Trunc(Int32(-p), 65536) == q / 65536;
    assert Trunc(-p, 65536) == -(p / 65536);
    assert p / 65536 + q / 65536 == 65536 || p / 65536 + q / 65536 == 65535;
  }

  /** b is on the way to the metric and at most one off the mathematical result,
      off only where some draw overflows. */
  predicate Harmless(metric: U16, hl: nat, a: U16, r: int, b: U16)
    requires hl >= 1
  {
    var c := a + Trunc(r * Factor(hl), 65536);
    && Toward(metric, a, b) && Abs(b - c) <= 1
    && (hl != 2 || Abs(metric - a) < 63288 ==> b == c)
  }

  lemma NoWrap(metric: U16, hl: nat, a: U16, r: int)
    requires hl >= 2 && Rough(metric - a, r) && Int32(r * Factor(hl)) == r * Factor(hl)
    ensures Harmless(metric, hl, a, r, WrappedStep(hl, a, r))
  {
    var b := a + Trunc(r * Factor(hl), 65536);
    assert SecondStep(metric, hl, a, b);
    hide Rough, Int32, Trunc, Factor, SecondStep;
    SecondShrinks(metric, hl, a, b);
  }

  lemma Wraps(metric: U16, a: U16, r: int)
    requires Rough(metric - a, r) && Abs(r) >= 79109
    ensures Harmless(metric, 2, a, r, WrappedStep(2, a, r))
  {
    DrawBounds(metric - a, r);
    RoughIsDraw(metric - a, r);
    hide Rough, Int32, Trunc;
    if r > 0 { StoredUp(a, r); } else { StoredDown(a, -r); }
  }

  /** The stored value differs by at most one from the one over mathematical
      integers, only in the case above, and still lies between the old value and
      the metric. */
  lemma WrapsHarmlessly(metric: U16, hl: nat, a: U16, r: int)
    requires hl >= 2 && Rough(metric - a, r)
    ensures Harmless(metric, hl, a, r, WrappedStep(hl, a, r))
  {
    DrawBounds(metric - a, r);
    hide Rough, Harmless, WrappedStep;
    if hl == 2 && Abs(r) >= 79109 {
      Wraps(metric, a, r);
    } else {
      if hl >= 3 { SlowFactor(hl, r); }
      Int32Values(r * Factor(hl));
      NoWrap(metric, hl, a, r);
    }
  }

  // ---- One call ----

  /** n turns of the second loop. */
  ghost predicate WrappedSeconds(metric: U16, hl: nat, a: U16, b: U16, n: nat)
    requires hl >= 1
    decreases n
  {
    if n == 0 then a == b
    else
      exists c: U16, r ::
        WrappedSeconds(metric, hl, a, c, n - 1) && Rough(metric - c, r) && b == WrappedStep(hl, c, r)
  }

  /** s' is a possible state after a call at `now` in state s. */
  ghost predicate CalledWrapped(s: Smooth, metric: U16, hl: nat, now: int, s': Smooth) {
    if Immediate(s, metric, hl, now) then s' == Smooth(metric, now)
    else
      exists v, n, w: U16 ::
        && HalfLives(metric, hl, s, v, n) && now - hl < v.time <= now && 0 <= v.value < 65536
        && WrappedSeconds(metric, hl, v.value, w, now - v.time)
        && s' == Smooth(Snapped(metric, w), now)
  }

  lemma {:induction false} WrappedToward(metric: U16, hl: nat, a: U16, b: U16, n: nat)
    requires hl >= 2 && WrappedSeconds(metric, hl, a, b, n)
    ensures Toward(metric, a, b)
    decreases n
  {
    if n > 0 {
      var c: U16, r :| WrappedSeconds(metric, hl, a, c, n - 1) && Rough(metric - c, r) && b == WrappedStep(hl, c, r);
      hide Rough, WrappedStep, WrappedSeconds;
      WrappedToward(metric, hl, a, c, n - 1);
      WrapsHarmlessly(metric, hl, c, r);
    }
  }

  /** In machine integers, too, the value stays between the old value and the
      metric, whole half-lives close it as fast, and nothing ends closer than 4. */
  lemma NeverOvershootsWrapped(s: Smooth, metric: U16, hl: nat, now: int, s': Smooth, k: nat)
    requires CalledWrapped(s, metric, hl, now, s') && 0 <= s.value < 65536 && (k > 0 ==> now - s.time >= k * hl)
    ensures Toward(metric, s.value, s'.value) && s'.time == now && 0 <= s'.value < 65536
    ensures s'.value == metric || Abs(metric - s'.value) >= 4
    ensures Abs(metric - s'.value) <= LeftAfter(Abs(metric - s.value), k)
  {
    if !Immediate(s, metric, hl, now) {
      var v, n, w := InsideWrapped(s, metric, hl, now, s');
      hide CalledWrapped, LeftAfter;
      WholeHalfLives(n, k, hl, now - s.time);
      LeftAfterMonotone(Abs(metric - s.value), Abs(metric - s.value), n, k);
    }
  }

  /** The two loops inside one call. */
  lemma InsideWrapped(s: Smooth, metric: U16, hl: nat, now: int, s': Smooth) returns (v: Smooth, n: nat, w: U16)
    requires CalledWrapped(s, metric, hl, now, s') && !Immediate(s, metric, hl, now)
    ensures now - hl < v.time <= now && v.time == s.time + n * hl && s' == Smooth(Snapped(metric, w), now)
    ensures Toward(metric, s.value, v.value) && Toward(metric, v.value, w)
    ensures Abs(metric - v.value) <= LeftAfter(Abs(metric - s.value), n)
  {
    hide HalfLives, WrappedSeconds, LeftAfter, Snapped;
    v, n, w :|
      && HalfLives(metric, hl, s, v, n) && now - hl < v.time <= now && 0 <= v.value < 65536
      && WrappedSeconds(metric, hl, v.value, w, now - v.time)
      && s' == Smooth(Snapped(metric, w), now);
    HalfLivesShrink(metric, hl, s, v, n);
    if hl >= 2 { WrappedToward(metric, hl, v.value, w, now - v.time); } else { NoSeconds(metric, hl, v.value, w); }
  }

  lemma NoSeconds(metric: U16, hl: nat, a: U16, b: U16)
    requires hl >= 1 && WrappedSeconds(metric, hl, a, b, 0)
    ensures a == b
  {
  }

  // ---- The loops ----

  lemma HalfLifeStays(metric: U16, a: U16, b: int)
    requires HalfLifeStep(metric, a, b)
    ensures 0 <= b < 65536
  {
    HalfLifeShrinks(metric, a, b);
  }

  /** route_smoothed_metric with the field types of struct babel_route. */
  method RouteSmoothedMetric(value: U16, time: int, metric: U16, hl: nat, now: int) returns (v: U16, t: int)
    ensures CalledWrapped(Smooth(value, time), metric, hl, now, Smooth(v, t)) && t == now
  {
    hide HalfLifeStep, WrappedStep;
    if hl <= 0 || metric >= INF || time > now || value == metric {
      return metric, now;
    }
    v, t := value, time;
    ghost var s, n := Smooth(value, time), 0;
    while t <= now - hl
      invariant t <= now && HalfLives(metric, hl, s, Smooth(v, t), n)
      decreases now - t
    {
      var r := Roughly(metric - v);
      ghost var c := Smooth(v, t);
      HalfLifeBy(metric, v, r);
      v := v + Trunc(r, 2);
      t := t + hl;
      n := n + 1;
      assert HalfLives(metric, hl, s, c, n - 1) && t == c.time + hl;
    }
    ghost var mid, m := Smooth(v, t), 0;
    while t < now
      invariant t <= now && m == t - mid.time && WrappedSeconds(metric, hl, mid.value, v, m)
    {
      var r := Roughly(metric - v);
      ghost var c := v;
      v := WrappedStep(hl, v, r);
      t := t + 1;
      m := m + 1;
      assert WrappedSeconds(metric, hl, mid.value, c, m - 1) && Rough(metric - c, r) && v == WrappedStep(hl, c, r);
    }
    ghost var w := v;
    if -4 < metric - v < 4 {
      v := metric;
    }
    assert HalfLives(metric, hl, s, mid, n) && WrappedSeconds(metric, hl, mid.value, w, now - mid.time);
    assert Smooth(v, t) == Smooth(Snapped(metric, w), now) && now - hl < mid.time <= now;
  }

  lemma HalfLifeBy(metric: U16, a: U16, r: int)
    requires Rough(metric - a, r)
    ensures HalfLifeStep(metric, a, a + Trunc(r, 2)) && 0 <= a + Trunc(r, 2) < 65536
  {
    assert HalfLifeStep(metric, a, a + Trunc(r, 2));
    HalfLifeStays(metric, a, a + Trunc(r, 2));
  }
}

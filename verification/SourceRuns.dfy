/** A source entry over a whole run of update_source calls: with seqnos unrolled
    to unbounded numbers, its feasibility distance only ever improves, so the
    set of feasible updates only ever shrinks. */
module SourceRuns {
  import opened Seqno
  import opened BabelTypes
  import opened BabelNode

  datatype Call = Call(d: Distance, now: int)

  function After(s: Source, calls: seq<Call>): (s': Source) {
    if calls == [] then s
    else
      var last := calls[|calls| - 1];
      UpdatedSource(After(s, calls[..|calls| - 1]), last.d, last.now)
  }

  /** Every call finds the entry younger than SOURCE_GC_TIME. */
  predicate StaysFresh(s: Source, calls: seq<Call>) {
    calls != [] ==>
      && StaysFresh(s, calls[..|calls| - 1])
      && After(s, calls[..|calls| - 1]).time >= calls[|calls| - 1].now - SOURCE_GC_TIME
  }

  /** The entry's seqno with every wrap-around counted. */
  function Unrolled(s: Source, calls: seq<Call>): int {
    if calls == [] then s.seqno
    else
      var pre := calls[..|calls| - 1];
      Unrolled(s, pre) + (After(s, calls).seqno - After(s, pre).seqno) % MODULUS
  }

  lemma Advances(u: int, a: U16, b: U16)
    requires u % MODULUS == a
    ensures (u + (b - a) % MODULUS) % MODULUS == b
  {
    ModDifference(u + (b - a) % MODULUS, b);
    assert u + (b - a) % MODULUS - b == (u - a) + ((b - a) % MODULUS - (b - a));
  }

  lemma {:induction false} UnrolledResidue(s: Source, calls: seq<Call>)
    ensures Unrolled(s, calls) % MODULUS == After(s, calls).seqno
  {
    if calls != [] {
      var pre := calls[..|calls| - 1];
      UnrolledResidue(s, pre);
      Advances(Unrolled(s, pre), After(s, pre).seqno, After(s, calls).seqno);
    }
  }

  /** One call moves the entry to a newer seqno or, within the seqno, to a
      smaller metric. */
  lemma StepImproves(s: Source, calls: seq<Call>)
    requires calls != [] && StaysFresh(s, calls)
    ensures var pre := calls[..|calls| - 1];
            || Unrolled(s, pre) < Unrolled(s, calls) < Unrolled(s, pre) + HALF
            || (Unrolled(s, pre) == Unrolled(s, calls) && After(s, calls).metric <= After(s, pre).metric)
  {
    var pre := calls[..|calls| - 1];
    var last := calls[|calls| - 1];
    var a := After(s, pre);
    if a.seqno != last.d.seqno { ModDistinctSmall(a.seqno, last.d.seqno); }
  }

  /** Feasibility distances never worsen: between any two moments of a fresh
      run the unrolled seqno grows, or stays and the metric does not grow. */
  lemma {:induction false} NeverWorsens(s: Source, calls: seq<Call>, k: nat)
    requires StaysFresh(s, calls) && k <= |calls|
    ensures || Unrolled(s, calls[..k]) < Unrolled(s, calls)
            || (Unrolled(s, calls[..k]) == Unrolled(s, calls) &&
                After(s, calls).metric <= After(s, calls[..k]).metric)
    decreases |calls|
  {
    if k == |calls| {
      assert calls[..k] == calls;
    } else {
      var pre := calls[..|calls| - 1];
      assert pre[..k] == calls[..k];
      NeverWorsens(s, pre, k);
      StepImproves(s, calls);
    }
  }

  /** An update that is feasible at the end of a fresh run was feasible at every
      earlier moment, as long as its seqno is within half the number space. */
  lemma FeasibleShrinks(s: Source, calls: seq<Call>, k: nat, x: int, metric: U16)
    requires StaysFresh(s, calls) && k <= |calls| && metric < INF
    requires -HALF < x - Unrolled(s, calls[..k]) < HALF && -HALF < x - Unrolled(s, calls) < HALF
    requires Better(Distance(x % MODULUS, metric), FeasibilityDistance(After(s, calls)))
    ensures Better(Distance(x % MODULUS, metric), FeasibilityDistance(After(s, calls[..k])))
  {
    NeverWorsens(s, calls, k);
    UnrolledResidue(s, calls);
    UnrolledResidue(s, calls[..k]);
    CompareAgrees(x, Unrolled(s, calls));
    CompareAgrees(x, Unrolled(s, calls[..k]));
    if x % MODULUS == Unrolled(s, calls) % MODULUS && x != Unrolled(s, calls) {
      ModDistinct(x, Unrolled(s, calls));
    }
    if x == Unrolled(s, calls[..k]) {
      assert x % MODULUS == After(s, calls[..k]).seqno;
    }
  }
}

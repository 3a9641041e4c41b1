/** What aspath_aggregate keeps of the order of hops (section 9.2.2.2 of
    RFC 4271): an AS stands in a sequence of the aggregate only where both paths
    agree on everything up to it. */
module AsPathOrder {
  import opened AsPath
  import opened AsPathAggregate

  /** The hops up to the last single AS. */
  ghost function OrderedPart(h: seq<Hop>): (r: seq<Hop>)
    ensures r <= h
  {
    if h == [] || h[|h| - 1].As? then h else OrderedPart(h[..|h| - 1])
  }

  ghost function CommonPrefix(a: seq<Hop>, b: seq<Hop>): (c: seq<Hop>)
    ensures c <= a && c <= b
    ensures |c| < |a| && |c| < |b| ==> a[|c|] != b[|c|]
  {
    if a == [] || b == [] || a[0] != b[0] then []
    else
      var c := CommonPrefix(a[1..], b[1..]);
      assert a == [a[0]] + a[1..] && b == [b[0]] + b[1..];
      [a[0]] + c
  }

  // ---- Ordered parts and common prefixes of concatenations ----

  lemma {:induction false} OrderedConcat(a: seq<Hop>, b: seq<Hop>)
    ensures OrderedPart(a + b) == if OrderedPart(b) == [] then OrderedPart(a) else a + OrderedPart(b)
    decreases |b|
  {
    if b == [] {
      assert a + b == a;
    } else if !b[|b| - 1].As? {
      assert (a + b)[..|a + b| - 1] == a + b[..|b| - 1];
      OrderedConcat(a, b[..|b| - 1]);
    }
  }

  lemma OneUnordered(a: seq<Hop>, x: Hop)
    requires !x.As?
    ensures OrderedPart(a + [x]) == OrderedPart(a)
  {
    assert (a + [x])[..|a|] == a;
  }

  lemma {:induction false} CommonConcat(a: seq<Hop>, b: seq<Hop>, c: seq<Hop>)
    ensures CommonPrefix(a + b, a + c) == a + CommonPrefix(b, c)
  {
    if a == [] {
      assert a + b == b && a + c == c;
      assert [] + CommonPrefix(b, c) == CommonPrefix(b, c);
    } else {
      assert (a + b)[1..] == a[1..] + b && (a + c)[1..] == a[1..] + c;
      CommonConcat(a[1..], b, c);
      assert a == [a[0]] + a[1..];
    }
  }

  lemma {:induction false} AllOrdered(h: seq<Hop>)
    requires forall i :: 0 <= i < |h| ==> h[i].As?
    ensures OrderedPart(h) == h
  {
  }

  // ---- Adding sets does not touch the ordered part ----

  lemma MeaningSnoc(p: Path, g: Segment)
    ensures Meaning(p + [g]) == Meaning(p) + SegmentHops(g)
  {
    MeaningConcat(p, [g]);
    assert [g][1..] == [] && Meaning([]) == [] && SegmentHops(g) + [] == SegmentHops(g);
  }

  lemma SetSnoc(p: Path, g: Segment)
    requires SetKind(g.kind)
    ensures OrderedPart(Meaning(p + [g])) == OrderedPart(Meaning(p))
  {
    MeaningSnoc(p, g);
    OneUnordered(Meaning(p), SegmentHops(g)[0]);
  }

  lemma AddRightmostOrder(p: Path, x: Asn, kind: Kind)
    requires SetKind(kind)
    ensures OrderedPart(Meaning(AddRightmost(p, x, kind))) == OrderedPart(Meaning(p))
  {
    var n := |p| - 1;
    hide Meaning, OrderedPart;
    if p != [] && p[n].kind == kind && |p[n].asns| + 1 <= SEGMENT_MAX {
      var g := Segment(kind, p[n].asns + [x]);
      assert p == p[..n] + [p[n]] && p[n := g] == p[..n] + [g];
      SetSnoc(p[..n], p[n]);
      SetSnoc(p[..n], g);
    } else {
      SetSnoc(p, Segment(kind, [x]));
    }
  }

  lemma {:induction false} AddAllOrder(p: Path, asns: seq<Asn>, kind: Kind)
    requires SetKind(kind)
    ensures OrderedPart(Meaning(AddAll(p, asns, kind))) == OrderedPart(Meaning(p))
    decreases |asns|
  {
    if asns != [] {
      hide Meaning, OrderedPart, AddRightmost;
      AddRightmostOrder(p, asns[0], kind);
      AddAllOrder(AddRightmost(p, asns[0], kind), asns[1..], kind);
    }
  }

  lemma {:induction false} AddRestOrder(p: Path, segs: Path, from: nat)
    requires segs != [] ==> from <= |segs[0].asns|
    ensures OrderedPart(Meaning(AddRest(p, segs, from))) == OrderedPart(Meaning(p))
    decreases |segs|
  {
    if segs != [] {
      hide Meaning, OrderedPart, AddAll;
      var p1 := AddAll(p, segs[0].asns[from..], SetFor(segs[0].kind));
      AddAllOrder(p, segs[0].asns[from..], SetFor(segs[0].kind));
      AddRestOrder(p1, segs[1..], 0);
    }
  }

  /** The ordered part of the aggregate is that of the common leading segments. */
  lemma AggregateKeepsOrder(p: Path, q: Path)
    ensures OrderedPart(Meaning(Aggregate(p, q))) == OrderedPart(Meaning(Leading(p, q).common))
  {
    var l := Leading(p, q);
    hide Meaning, OrderedPart, AddRest, Leading;
    var r := AddRest(l.common, l.left1, l.from);
    AddRestOrder(l.common, l.left1, l.from);
    AddRestOrder(r, l.left2, l.from);
    NormalisedMeans(AddRest(r, l.left2, l.from));
  }

  // ---- Order is never invented ----

  /** Segments other than AS_SEQUENCEs hold an ASN. */
  predicate Filled(p: Path) { forall i :: 0 <= i < |p| && p[i].kind != Sequence ==> p[i].asns != [] }

  lemma PrefixConcat(a: seq<Hop>, b: seq<Hop>, c: seq<Hop>)
    requires b <= c
    ensures a + b <= a + c
  {
  }

  lemma OrderedAfter(a: seq<Hop>, b: seq<Hop>, h: seq<Hop>)
    requires OrderedPart(b) <= h
    ensures OrderedPart(a + b) <= a + h
  {
    OrderedConcat(a, b);
    PrefixConcat(a, OrderedPart(b), h);
    assert a <= a + h;
  }

  /** Two different lists part where one goes on without the other. */
  lemma MatchStops(a: seq<Asn>, b: seq<Asn>)
    requires a != b
    ensures var m := Match(a, b);
            && m <= |a| && m <= |b| && a[..m] == b[..m] && (m < |a| || m < |b|)
            && (m < |a| && m < |b| ==> a[m] != b[m])
  {
    assert a[..|a|] == a && b[..|b|] == b;
  }

  lemma CommonCut(p: Path, q: Path)
    requires p != [] && q != [] && p[0].kind == q[0].kind && p[0].asns != q[0].asns
    ensures var g := Segment(p[0].kind, p[0].asns[..Match(p[0].asns, q[0].asns)]);
            Leading(p, q).common == if g.asns != [] then [g] else []
  {
    MatchStops(p[0].asns, q[0].asns);
    hide Match;
  }

  /** What is ordered in a segment alone. */
  lemma PartOrder(g: Segment)
    ensures var seg := if g.asns != [] then [g] else [];
            OrderedPart(Meaning(seg)) == if g.kind == Sequence then SegmentHops(g) else []
    ensures g.kind == Sequence ==> OrderedPart(SegmentHops(g)) == SegmentHops(g)
  {
    MeaningSnoc([], g);
    assert [] + [g] == [g] && [] + SegmentHops(g) == SegmentHops(g);
    if g.kind == Sequence {
      AllOrdered(SegmentHops(g));
      if g.asns == [] { assert SegmentHops(g) == []; }
    } else {
      OneUnordered([], SegmentHops(g)[0]);
      assert [] + [SegmentHops(g)[0]] == SegmentHops(g);
    }
  }

  /** The first m ASNs of a segment alone. */
  lemma CutOrder(p: Path, m: nat)
    requires p != [] && m <= |p[0].asns|
    ensures var g := Segment(p[0].kind, p[0].asns[..m]);
            OrderedPart(Meaning(if g.asns != [] then [g] else [])) <= Meaning(p)
  {
    var g := Segment(p[0].kind, p[0].asns[..m]);
    PartOrder(g);
    if g.kind == Sequence { assert SegmentHops(g) == SegmentHops(p[0])[..m]; }
  }

  lemma LeadingOrderCut(p: Path, q: Path)
    requires p != [] && q != [] && p[0].kind == q[0].kind && p[0].asns != q[0].asns
    ensures OrderedPart(Meaning(Leading(p, q).common)) <= Meaning(p)
    ensures OrderedPart(Meaning(Leading(p, q).common)) <= Meaning(q)
  {
    hide Meaning, Leading, OrderedPart, Match;
    MatchStops(p[0].asns, q[0].asns);
    CommonCut(p, q);
    CutOrder(p, Match(p[0].asns, q[0].asns));
    CutOrder(q, Match(p[0].asns, q[0].asns));
  }

  lemma {:induction false} LeadingOrder(p: Path, q: Path)
    requires Filled(p)
    ensures OrderedPart(Meaning(Leading(p, q).common)) <= Meaning(p)
    ensures OrderedPart(Meaning(Leading(p, q).common)) <= Meaning(q)
    decreases |p|
  {
    if p == [] || q == [] || p[0].kind != q[0].kind {
    } else if p[0].asns == q[0].asns {
      LeadingNext(p, q);
      assert forall i :: 0 <= i < |p[1..]| ==> p[1..][i] == p[i + 1];
      var common := Leading(p[1..], q[1..]).common;
      FirstCommon(p, common);
      assert Meaning(p) == SegmentHops(p[0]) + Meaning(p[1..]) && Meaning(q) == SegmentHops(p[0]) + Meaning(q[1..]);
      hide Meaning, Leading, OrderedPart, SegmentHops;
      LeadingOrder(p[1..], q[1..]);
      OrderedAfter(SegmentHops(p[0]), Meaning(common), Meaning(p[1..]));
      OrderedAfter(SegmentHops(p[0]), Meaning(common), Meaning(q[1..]));
    } else {
      LeadingOrderCut(p, q);
    }
  }

  lemma FirstCommon(p: Path, common: Path)
    requires p != [] && (p[0].kind != Sequence ==> p[0].asns != [])
    ensures var seg := if p[0].asns != [] then [Segment(p[0].kind, p[0].asns)] else [];
            Meaning(seg + common) == SegmentHops(p[0]) + Meaning(common)
  {
    if p[0].asns != [] {
      assert ([p[0]] + common)[1..] == common;
    } else {
      assert SegmentHops(p[0]) == [] && [] + common == common;
    }
  }

  /** Whatever the aggregate puts in order stands at the start of both paths, in
      that order: up to its last AS in sequence it agrees with each of them. */
  lemma AggregateOrder(p: Path, q: Path)
    requires Filled(p)
    ensures OrderedPart(Meaning(Aggregate(p, q))) <= Meaning(p)
    ensures OrderedPart(Meaning(Aggregate(p, q))) <= Meaning(q)
  {
    AggregateKeepsOrder(p, q);
    LeadingOrder(p, q);
  }

  // ---- Nor lost, for normalised paths ----

  lemma NormalDiffer(p: Path, q: Path)
    requires IsNormal(p) && IsNormal(q)
    requires p == [] || q == [] || p[0].kind != q[0].kind || (p[0].kind != Sequence && p[0].asns != q[0].asns)
    ensures CommonPrefix(Meaning(p), Meaning(q)) == []
  {
    if p != [] && q != [] {
      FirstHop(p);
      FirstHop(q);
      if p[0].kind == q[0].kind && SetKind(p[0].kind) {
        if AsSet(p[0].asns) == AsSet(q[0].asns) { IncreasingUnique(p[0].asns, q[0].asns); }
      }
    }
  }

  lemma HopsCut(a: seq<Asn>, m: nat)
    requires m <= |a|
    ensures var u, v := SegmentHops(Segment(Sequence, a[..m])), SegmentHops(Segment(Sequence, a[m..]));
            && SegmentHops(Segment(Sequence, a)) == u + v
            && if m < |a| then v != [] && v[0] == As(a[m]) else v == []
  {
  }

  /** The hops of a path that starts with an AS_SEQUENCE, after the first m. */
  lemma SequenceCut(p: Path, m: nat)
    requires IsNormal(p) && p != [] && p[0].kind == Sequence && m <= |p[0].asns|
    ensures var u := SegmentHops(Segment(Sequence, p[0].asns[..m]));
            var x := SegmentHops(Segment(Sequence, p[0].asns[m..])) + Meaning(p[1..]);
            && Meaning(p) == u + x
            && (m < |p[0].asns| ==> x != [] && x[0] == As(p[0].asns[m]))
            && (m == |p[0].asns| && x != [] ==> !x[0].As?)
  {
    hide SegmentHops, IsNormal, Meaning;
    var a, tail := p[0].asns, Meaning(p[1..]);
    NormalTailMeans(p);
    HopsCut(a, m);
    var u, v := SegmentHops(Segment(Sequence, a[..m])), SegmentHops(Segment(Sequence, a[m..]));
    assert p[0] == Segment(Sequence, a);
    assert u + v + tail == u + (v + tail);
    if m == |a| { assert v + tail == tail; }
  }

  lemma PartAfter(u: seq<Hop>, x: seq<Hop>, y: seq<Hop>)
    requires x == [] || y == [] || x[0] != y[0]
    ensures CommonPrefix(u + x, u + y) == u
  {
    CommonConcat(u, x, y);
    assert u + [] == u;
  }

  lemma SequenceCommon(p: Path, q: Path)
    requires IsNormal(p) && IsNormal(q) && p != [] && q != []
    requires p[0].kind == q[0].kind == Sequence && p[0].asns != q[0].asns
    ensures var m := Match(p[0].asns, q[0].asns);
            CommonPrefix(Meaning(p), Meaning(q)) == SegmentHops(Segment(Sequence, p[0].asns[..m]))
  {
    hide SegmentHops, Meaning, IsNormal, Match, CommonPrefix;
    MatchStops(p[0].asns, q[0].asns);
    var m := Match(p[0].asns, q[0].asns);
    var x := SegmentHops(Segment(Sequence, p[0].asns[m..])) + Meaning(p[1..]);
    var y := SegmentHops(Segment(Sequence, q[0].asns[m..])) + Meaning(q[1..]);
    SequenceCut(p, m);
    SequenceCut(q, m);
    PartAfter(SegmentHops(Segment(Sequence, p[0].asns[..m])), x, y);
  }

  lemma {:induction false} LeadingOrderExactly(p: Path, q: Path)
    requires IsNormal(p) && IsNormal(q) && NoEmptySegments(p)
    ensures OrderedPart(Meaning(Leading(p, q).common)) == OrderedPart(CommonPrefix(Meaning(p), Meaning(q)))
    decreases |p|
  {
    if p == [] || q == [] || p[0].kind != q[0].kind {
      NormalDiffer(p, q);
    } else if p[0].asns == q[0].asns {
      LeadingSame(p, q);
    } else {
      LeadingCut(p, q);
    }
  }

  /** The same first segment. */
  lemma {:induction false} LeadingSame(p: Path, q: Path)
    requires IsNormal(p) && IsNormal(q) && NoEmptySegments(p)
    requires p != [] && q != [] && p[0] == q[0]
    ensures OrderedPart(Meaning(Leading(p, q).common)) == OrderedPart(CommonPrefix(Meaning(p), Meaning(q)))
    decreases |p|, 0
  {
    var a, b, c := SegmentHops(p[0]), Meaning(p[1..]), Meaning(q[1..]);
    var common := Leading(p[1..], q[1..]).common;
    assert forall i :: 0 <= i < |p[1..]| ==> p[1..][i] == p[i + 1];
    assert p[0].asns != [];
    NormalTailMeans(p);
    NormalTailMeans(q);
    LeadingNext(p, q);
    FirstCommon(p, common);
    hide Meaning, SegmentHops, IsNormal, Leading;
    LeadingOrderExactly(p[1..], q[1..]);
    CommonConcat(a, b, c);
    OrderedConcat(a, Meaning(common));
    OrderedConcat(a, CommonPrefix(b, c));
  }

  /** First segments of one kind that differ. */
  lemma LeadingCut(p: Path, q: Path)
    requires IsNormal(p) && IsNormal(q) && p != [] && q != [] && p[0].kind == q[0].kind && p[0].asns != q[0].asns
    ensures OrderedPart(Meaning(Leading(p, q).common)) == OrderedPart(CommonPrefix(Meaning(p), Meaning(q)))
  {
    hide SegmentHops, Meaning, IsNormal, Leading, CommonPrefix;
    CommonCut(p, q);
    var g := Segment(p[0].kind, p[0].asns[..Match(p[0].asns, q[0].asns)]);
    PartOrder(g);
    if g.kind == Sequence {
      SequenceCommon(p, q);
    } else {
      NormalDiffer(p, q);
    }
  }

  /** For normalised paths the aggregate keeps in order exactly what both paths
      have in common from the start on, up to the last single AS of it. */
  lemma AggregateOrderExactly(p: Path, q: Path)
    requires IsNormal(p) && IsNormal(q) && NoEmptySegments(p)
    ensures OrderedPart(Meaning(Aggregate(p, q))) == OrderedPart(CommonPrefix(Meaning(p), Meaning(q)))
  {
    AggregateKeepsOrder(p, q);
    LeadingOrderExactly(p, q);
  }
}

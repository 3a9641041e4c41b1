/** Aggregating AS paths (bgpd/bgp_aspath.c, aspath_aggregate; section 9.2.2.2
    of RFC 4271): the common leading part is kept, the rest becomes sets. */
module AsPathAggregate {
  import opened AsPath

  /** The first position where two lists differ. */
  function Match(a: seq<Asn>, b: seq<Asn>): (m: nat)
    ensures m <= |a| && m <= |b| && a[..m] == b[..m]
    ensures m < |a| && m < |b| ==> a[m] != b[m]
  {
    if a == [] || b == [] || a[0] != b[0] then 0
    else
      var m := Match(a[1..], b[1..]);
      assert a[..m + 1] == [a[0]] + a[1..][..m] && b[..m + 1] == [b[0]] + b[1..][..m];
      m + 1
  }

  /** Where the comparison of two paths stops: the common part, what is left of
      each path, and how much of their first segments is already in it. */
  datatype Lead = Lead(common: Path, left1: Path, left2: Path, from: nat)

  function Leading(p: Path, q: Path): (l: Lead)
    ensures l.left1 != [] ==> l.from <= |l.left1[0].asns|
    ensures l.left2 != [] ==> l.from <= |l.left2[0].asns|
    decreases |p|
  {
    if p == [] || q == [] || p[0].kind != q[0].kind then Lead([], p, q, 0)
    else
      var m := Match(p[0].asns, q[0].asns);
      var seg := if m > 0 then [Segment(p[0].kind, p[0].asns[..m])] else [];
      if m != |p[0].asns| || |p[0].asns| != |q[0].asns| then Lead(seg, p, q, m)
      else
        var l := Leading(p[1..], q[1..]);
        l.(common := seg + l.common)
  }

  /** aspath_add_asns_rightmost with one ASN */
  function AddRightmost(p: Path, x: Asn, kind: Kind): (r: Path) {
    var n := |p| - 1;
    if p != [] && p[n].kind == kind && |p[n].asns| + 1 <= SEGMENT_MAX
    then p[n := Segment(kind, p[n].asns + [x])]
    else p + [Segment(kind, [x])]
  }

  function SetFor(k: Kind): Kind { if IsConfed(k) then ConfedSet else Set }

  function AddAll(p: Path, asns: seq<Asn>, kind: Kind): (r: Path)
    decreases |asns|
  {
    if asns == [] then p else AddAll(AddRightmost(p, asns[0], kind), asns[1..], kind)
  }

  function AddRest(p: Path, segs: Path, from: nat): (r: Path)
    requires segs != [] ==> from <= |segs[0].asns|
    decreases |segs|
  {
    if segs == [] then p
    else AddRest(AddAll(p, segs[0].asns[from..], SetFor(segs[0].kind)), segs[1..], 0)
  }

  /** aspath_aggregate */
  function Aggregate(p: Path, q: Path): (r: Path) {
    var l := Leading(p, q);
    Normalised(AddRest(AddRest(l.common, l.left1, l.from), l.left2, l.from))
  }

  // ---- No ASN is lost, none invented ----

  /** The ASNs in confederation segments, or those in the other ones. */
  ghost function AsnsOf(p: Path, confed: bool): set<Asn> {
    if p == [] then {} else (if IsConfed(p[0].kind) == confed then AsSet(p[0].asns) else {}) + AsnsOf(p[1..], confed)
  }

  lemma {:induction false} AsnsOfConcat(p: Path, q: Path, c: bool)
    ensures AsnsOf(p + q, c) == AsnsOf(p, c) + AsnsOf(q, c)
  {
    if p == [] {
      assert p + q == q;
    } else {
      assert (p + q)[1..] == p[1..] + q;
      AsnsOfConcat(p[1..], q, c);
    }
  }

  lemma AsnsOfOne(g: Segment, c: bool)
    ensures AsnsOf([g], c) == if IsConfed(g.kind) == c then AsSet(g.asns) else {}
  {
    assert [g][1..] == [] && AsnsOf([], c) == {};
  }

  lemma AsSetConcat(a: seq<Asn>, b: seq<Asn>)
    ensures AsSet(a + b) == AsSet(a) + AsSet(b)
  {
  }

  lemma AddRightmostAsns(p: Path, x: Asn, kind: Kind, c: bool)
    ensures AsnsOf(AddRightmost(p, x, kind), c) == AsnsOf(p, c) + if IsConfed(kind) == c then {x} else {}
  {
    var n := |p| - 1;
    AsnsOfOne(Segment(kind, [x]), c);
    AsnsOfConcat(p, [Segment(kind, [x])], c);
    assert AsSet([x]) == {x};
    if p != [] && p[n].kind == kind && |p[n].asns| + 1 <= SEGMENT_MAX {
      var g := Segment(kind, p[n].asns + [x]);
      AsSetConcat(p[n].asns, [x]);
      assert p == p[..n] + [p[n]] && p[n := g] == p[..n] + [g];
      AsnsOfConcat(p[..n], [p[n]], c);
      AsnsOfConcat(p[..n], [g], c);
      AsnsOfOne(p[n], c);
      AsnsOfOne(g, c);
    }
  }

  lemma {:induction false} AddAllAsns(p: Path, asns: seq<Asn>, kind: Kind, c: bool)
    ensures AsnsOf(AddAll(p, asns, kind), c) == AsnsOf(p, c) + if IsConfed(kind) == c then AsSet(asns) else {}
    decreases |asns|
  {
    if asns != [] {
      AddRightmostAsns(p, asns[0], kind, c);
      AddAllAsns(AddRightmost(p, asns[0], kind), asns[1..], kind, c);
      assert asns == [asns[0]] + asns[1..];
      AsSetConcat([asns[0]], asns[1..]);
      assert AsSet([asns[0]]) == {asns[0]};
    }
  }

  /** What is left of a path when its first segment is partly dealt with. */
  function Rest(segs: Path, from: nat): (r: Path)
    requires segs != [] ==> from <= |segs[0].asns|
  {
    if segs == [] then [] else [Segment(segs[0].kind, segs[0].asns[from..])] + segs[1..]
  }

  lemma {:induction false} AddRestAsns(p: Path, segs: Path, from: nat, c: bool)
    requires segs != [] ==> from <= |segs[0].asns|
    ensures AsnsOf(AddRest(p, segs, from), c) == AsnsOf(p, c) + AsnsOf(Rest(segs, from), c)
    decreases |segs|
  {
    if segs != [] {
      var g := segs[0];
      AddAllAsns(p, g.asns[from..], SetFor(g.kind), c);
      AddRestAsns(AddAll(p, g.asns[from..], SetFor(g.kind)), segs[1..], 0, c);
      assert Rest(segs[1..], 0) == segs[1..] by {
        if |segs| > 1 { assert segs[1..] == [segs[1]] + segs[1..][1..] && segs[1].asns[0..] == segs[1].asns; }
      }
      assert Rest(segs, from)[1..] == segs[1..];
    }
  }

  /** The common part and what is left of a path hold its ASNs. */
  ghost predicate LeadingHolds(p: Path, q: Path, c: bool) {
    var l := Leading(p, q);
    && AsnsOf(p, c) == AsnsOf(l.common, c) + AsnsOf(Rest(l.left1, l.from), c)
    && AsnsOf(q, c) == AsnsOf(l.common, c) + AsnsOf(Rest(l.left2, l.from), c)
  }

  lemma LeadingPart(p: Path, q: Path, c: bool)
    requires p != [] && q != [] && p[0].kind == q[0].kind && p[0].asns != q[0].asns
    ensures LeadingHolds(p, q, c)
  {
    var m := Match(p[0].asns, q[0].asns);
    var seg := if m > 0 then [Segment(p[0].kind, p[0].asns[..m])] else [];
    assert Leading(p, q) == Lead(seg, p, q, m);
    hide AsnsOf, AsSet, Match, Rest, Leading;
    CutAsns(p, m, c);
    CutAsns(q, m, c);
  }

  /** The ASNs of a path whose first segment is common. */
  lemma FirstPart(p: Path, seg: Path, common: Path, c: bool)
    requires p != [] && seg == if p[0].asns != [] then [Segment(p[0].kind, p[0].asns)] else []
    ensures AsnsOf(p, c) == AsnsOf(seg, c) + AsnsOf(p[1..], c)
    ensures AsnsOf(seg + common, c) == AsnsOf(seg, c) + AsnsOf(common, c)
  {
    CutAsns(p, |p[0].asns|, c);
    assert p[0].asns[..|p[0].asns|] == p[0].asns && p[0].asns[|p[0].asns|..] == [] && AsSet([]) == {};
    AsnsOfConcat(seg, common, c);
  }

  lemma LeadingNext(p: Path, q: Path)
    requires p != [] && q != [] && p[0].kind == q[0].kind && p[0].asns == q[0].asns
    ensures var seg := if p[0].asns != [] then [Segment(p[0].kind, p[0].asns)] else [];
            Leading(p, q) == Leading(p[1..], q[1..]).(common := seg + Leading(p[1..], q[1..]).common)
  {
    SelfMatch(p[0].asns);
    assert p[0].asns[..|p[0].asns|] == p[0].asns;
  }

  lemma LeadingWhole(p: Path, q: Path, c: bool)
    requires p != [] && q != [] && p[0].kind == q[0].kind && p[0].asns == q[0].asns && LeadingHolds(p[1..], q[1..], c)
    ensures LeadingHolds(p, q, c)
  {
    hide AsnsOf, Rest, Leading, Match;
    var seg := if p[0].asns != [] then [Segment(p[0].kind, p[0].asns)] else [];
    LeadingNext(p, q);
    FirstPart(p, seg, Leading(p[1..], q[1..]).common, c);
    FirstPart(q, seg, Leading(p[1..], q[1..]).common, c);
  }

  lemma {:induction false} LeadingAsns(p: Path, q: Path, c: bool)
    ensures LeadingHolds(p, q, c)
    decreases |p|
  {
    if p == [] || q == [] || p[0].kind != q[0].kind {
      RestFromStart(p);
      RestFromStart(q);
    } else {
      hide LeadingHolds;
      LeadingAsns(p[1..], q[1..], c);
      if p[0].asns == q[0].asns { LeadingWhole(p, q, c); } else { LeadingPart(p, q, c); }
    }
  }

  lemma RestFromStart(p: Path)
    ensures Rest(p, 0) == p
  {
    if p != [] { assert p == [p[0]] + p[1..] && p[0].asns[0..] == p[0].asns; }
  }

  lemma CutAsns(p: Path, m: nat, c: bool)
    requires p != [] && m <= |p[0].asns|
    ensures var seg := if m > 0 then [Segment(p[0].kind, p[0].asns[..m])] else [];
            AsnsOf(p, c) == AsnsOf(seg, c) + AsnsOf(Rest(p, m), c)
    ensures AsnsOf(Rest(p, m), c) == (if IsConfed(p[0].kind) == c then AsSet(p[0].asns[m..]) else {}) + AsnsOf(p[1..], c)
  {
    var a := p[0].asns;
    assert a == a[..m] + a[m..];
    AsSetConcat(a[..m], a[m..]);
    assert Rest(p, m)[1..] == p[1..];
    AsnsOfOne(Segment(p[0].kind, a[..m]), c);
    assert m == 0 ==> AsSet(a[..m]) == {};
  }

  lemma {:induction false} NormalisedAsnsOf(p: Path, c: bool)
    ensures AsnsOf(Normalised(p), c) == AsnsOf(p, c)
    decreases |p|
  {
    if p == [] {
    } else if |p| > 1 && Packable(p[0], p[1]) {
      var j := [Segment(Sequence, p[0].asns + p[1].asns)] + p[2..];
      NormalisedAsnsOf(j, c);
      AsSetConcat(p[0].asns, p[1].asns);
      assert j[1..] == p[2..] && p[1..][1..] == p[2..];
    } else {
      NormalisedAsnsOf(p[1..], c);
      CleanAsSet(p[0]);
      assert Normalised(p)[1..] == Normalised(p[1..]);
    }
  }

  lemma CleanAsSet(g: Segment)
    ensures AsSet(Clean(g).asns) == AsSet(g.asns)
  {
    CleanMeans(g);
    if SetKind(g.kind) { assert SegmentHops(Clean(g))[0] == SegmentHops(g)[0]; }
  }

  /** Aggregation keeps exactly the ASNs of both paths, those in confederation
      segments apart from the others. */
  lemma AggregateAsns(p: Path, q: Path, c: bool)
    ensures AsnsOf(Aggregate(p, q), c) == AsnsOf(p, c) + AsnsOf(q, c)
  {
    var l := Leading(p, q);
    LeadingAsns(p, q, c);
    AddRestAsns(l.common, l.left1, l.from, c);
    AddRestAsns(AddRest(l.common, l.left1, l.from), l.left2, l.from, c);
    NormalisedAsnsOf(AddRest(AddRest(l.common, l.left1, l.from), l.left2, l.from), c);
  }

  lemma {:induction false} AsnsSplit(p: Path)
    ensures Asns(p) == AsnsOf(p, true) + AsnsOf(p, false)
  {
    if p != [] { AsnsSplit(p[1..]); }
  }

  /** Loop detection sees the same ASNs before and after. */
  lemma AggregateUnion(p: Path, q: Path)
    ensures Asns(Aggregate(p, q)) == Asns(p) + Asns(q)
  {
    AggregateAsns(p, q, true);
    AggregateAsns(p, q, false);
    AsnsSplit(p);
    AsnsSplit(q);
    AsnsSplit(Aggregate(p, q));
  }

  lemma {:induction false} SelfMatch(a: seq<Asn>)
    ensures Match(a, a) == |a|
  {
  }

  lemma {:induction false} SelfLeading(p: Path)
    requires NoEmptySegments(p)
    ensures Leading(p, p) == Lead(p, [], [], 0)
  {
    if p != [] {
      SelfMatch(p[0].asns);
      assert p[0].asns[..|p[0].asns|] == p[0].asns;
      assert forall i :: 0 <= i < |p[1..]| ==> p[1..][i] == p[i + 1];
      SelfLeading(p[1..]);
      assert p == [p[0]] + p[1..];
    }
  }

  /** Aggregating a normalised path with itself changes nothing. */
  lemma AggregateSelf(p: Path)
    requires IsNormal(p) && NoEmptySegments(p)
    ensures Aggregate(p, p) == p
  {
    SelfLeading(p);
    SettledIsFixed(p);
  }
}

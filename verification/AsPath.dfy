/** BGP AS paths (bgpd/bgp_aspath.c): segments, what they mean, and the
    normal form in which equal paths have equal segments. */
module AsPath {
  type Asn = x: int | 0 <= x < 0x1_0000_0000

  /** The most ASNs one segment holds on the wire. */
  const SEGMENT_MAX := 255

  datatype Kind = Set | Sequence | ConfedSequence | ConfedSet

  datatype Segment = Segment(kind: Kind, asns: seq<Asn>)

  type Path = seq<Segment>

  /** No confederation segment. */
  predicate ConfedFree(p: Path) { forall i :: 0 <= i < |p| ==> !IsConfed(p[i].kind) }

  predicate SetKind(k: Kind) { k == Set || k == ConfedSet }

  predicate IsConfed(k: Kind) { k == ConfedSequence || k == ConfedSet }

  // ---- Meaning ----

  /** One step of a path: an AS of an AS_SEQUENCE, an AS_SET, or a whole
      confederation segment. */
  datatype Hop = As(asn: Asn) | OneOf(asns: set<Asn>) | Confed(path: seq<Asn>) | ConfedOneOf(asns: set<Asn>)

  ghost function AsSet(s: seq<Asn>): set<Asn> { set x | x in s }

  ghost function SegmentHops(g: Segment): (h: seq<Hop>) {
    match g.kind
    case Sequence => seq(|g.asns|, i requires 0 <= i < |g.asns| => As(g.asns[i]))
    case Set => [OneOf(AsSet(g.asns))]
    case ConfedSequence => [Confed(g.asns)]
    case ConfedSet => [ConfedOneOf(AsSet(g.asns))]
  }

  /** The hops of a path in order: however it is cut into AS_SEQUENCE segments
      and however its sets are listed. */
  ghost function Meaning(p: Path): (h: seq<Hop>) {
    if p == [] then [] else SegmentHops(p[0]) + Meaning(p[1..])
  }

  lemma {:induction false} MeaningConcat(p: Path, q: Path)
    ensures Meaning(p + q) == Meaning(p) + Meaning(q)
  {
    if p == [] {
      assert p + q == q;
    } else {
      assert (p + q)[1..] == p[1..] + q;
      MeaningConcat(p[1..], q);
      assert SegmentHops(p[0]) + (Meaning(p[1..]) + Meaning(q)) == SegmentHops(p[0]) + Meaning(p[1..]) + Meaning(q);
    }
  }

  // ---- Counting ----

  function SegmentCount(g: Segment): nat {
    match g.kind
    case Sequence => |g.asns|
    case Set => 1
    case _ => 0
  }

  /** aspath_count_hops_internal */
  function CountHops(p: Path): nat {
    if p == [] then 0 else SegmentCount(p[0]) + CountHops(p[1..])
  }

  /** aspath_count_confeds */
  function CountConfeds(p: Path): nat {
    if p == [] then 0
    else (match p[0].kind
          case ConfedSequence => |p[0].asns|
          case ConfedSet => 1
          case _ => 0) + CountConfeds(p[1..])
  }

  /** The ASNs of a path, which is what loop detection looks at. */
  ghost function Asns(p: Path): set<Asn> {
    if p == [] then {} else AsSet(p[0].asns) + Asns(p[1..])
  }

  ghost function HopCount(h: seq<Hop>): nat {
    if h == [] then 0 else (if h[0].As? || h[0].OneOf? then 1 else 0) + HopCount(h[1..])
  }

  ghost function HopAsns(h: Hop): set<Asn> {
    match h
    case As(a) => {a}
    case OneOf(s) => s
    case Confed(s) => AsSet(s)
    case ConfedOneOf(s) => s
  }

  lemma {:induction false} HopCountConcat(a: seq<Hop>, b: seq<Hop>)
    ensures HopCount(a + b) == HopCount(a) + HopCount(b)
  {
    if a == [] {
      assert a + b == b;
    } else {
      assert (a + b)[1..] == a[1..] + b;
      HopCountConcat(a[1..], b);
    }
  }

  lemma {:induction false} AllAs(h: seq<Hop>)
    requires forall i :: 0 <= i < |h| ==> h[i].As?
    ensures HopCount(h) == |h|
  {
    if h != [] { AllAs(h[1..]); }
  }

  /** The hop count is a property of the meaning. */
  lemma {:induction false} CountMeans(p: Path)
    ensures CountHops(p) == HopCount(Meaning(p))
  {
    if p != [] {
      CountMeans(p[1..]);
      HopCountConcat(SegmentHops(p[0]), Meaning(p[1..]));
      if p[0].kind == Sequence { AllAs(SegmentHops(p[0])); }
    }
  }

  /** So is the set of ASNs. */
  lemma {:induction false} AsnsMean(p: Path, x: Asn)
    ensures x in Asns(p) <==> exists i :: 0 <= i < |Meaning(p)| && x in HopAsns(Meaning(p)[i])
  {
    if p != [] {
      AsnsMean(p[1..], x);
      SegmentAsns(p[0], x);
      var a, b := SegmentHops(p[0]), Meaning(p[1..]);
      var h := Meaning(p);
      assert h == a + b;
      if i :| 0 <= i < |h| && x in HopAsns(h[i]) {
        assert if i < |a| then h[i] == a[i] else h[i] == b[i - |a|];
      }
      if i :| 0 <= i < |a| && x in HopAsns(a[i]) { assert (a + b)[i] == a[i]; }
      if i :| 0 <= i < |b| && x in HopAsns(b[i]) { assert (a + b)[|a| + i] == b[i]; }
    }
  }

  lemma SegmentAsns(g: Segment, x: Asn)
    ensures x in g.asns <==> exists i :: 0 <= i < |SegmentHops(g)| && x in HopAsns(SegmentHops(g)[i])
  {
    var h := SegmentHops(g);
    if x in g.asns {
      if g.kind == Sequence {
        var i :| 0 <= i < |g.asns| && g.asns[i] == x;
        assert x in HopAsns(h[i]);
      } else {
        assert x in HopAsns(h[0]);
      }
    }
  }

  // ---- Sorted sets ----

  predicate Increasing(s: seq<Asn>) { forall i, j :: 0 <= i < j < |s| ==> s[i] < s[j] }

  predicate Ordered(s: seq<Asn>) { forall i, j :: 0 <= i < j < |s| ==> s[i] <= s[j] }

  lemma NonEmptySet(s: seq<Asn>)
    ensures s != [] ==> AsSet(s) != {}
  {
    if s != [] { assert s[0] in AsSet(s); }
  }

  /** A strictly increasing list is determined by its elements. */
  lemma {:induction false} IncreasingUnique(s: seq<Asn>, t: seq<Asn>)
    requires Increasing(s) && Increasing(t) && AsSet(s) == AsSet(t)
    ensures s == t
    decreases |s|
  {
    if s == [] {
      NonEmptySet(t);
    } else {
      assert s[0] in AsSet(t) && t != [];
      assert t[0] in AsSet(s);
      assert s[0] == t[0];
      assert AsSet(s[1..]) == AsSet(s) - {s[0]};
      assert AsSet(t[1..]) == AsSet(t) - {t[0]};
      IncreasingUnique(s[1..], t[1..]);
      assert s == [s[0]] + s[1..] && t == [t[0]] + t[1..];
    }
  }

  /** Insertion into an ordered list. */
  function Insert(x: Asn, s: seq<Asn>): (r: seq<Asn>)
    ensures multiset(r) == multiset(s) + multiset{x} && |r| == |s| + 1
  {
    if s == [] then [x]
    else if x <= s[0] then [x] + s
    else
      assert s == [s[0]] + s[1..];
      [s[0]] + Insert(x, s[1..])
  }

  lemma OrderedCons(x: Asn, s: seq<Asn>)
    requires Ordered(s) && forall y :: y in s ==> x <= y
    ensures Ordered([x] + s)
  {
    var r := [x] + s;
    forall i, j | 0 <= i < j < |r| ensures r[i] <= r[j] {
      assert r[j] == s[j - 1] && s[j - 1] in s;
    }
  }

  lemma {:induction false} InsertOrdered(x: Asn, s: seq<Asn>)
    requires Ordered(s)
    ensures Ordered(Insert(x, s))
  {
    if s != [] && x > s[0] {
      var t := Insert(x, s[1..]);
      InsertOrdered(x, s[1..]);
      forall y | y in t ensures s[0] <= y {
        assert y in multiset(t) && multiset(t) == multiset(s[1..]) + multiset{x};
        assert y == x || y in s[1..];
      }
      OrderedCons(s[0], t);
    } else if s != [] {
      OrderedCons(x, s);
    }
  }

  /** What qsort makes of a list of ASNs. */
  function Sort(s: seq<Asn>): (r: seq<Asn>)
    ensures Ordered(r) && multiset(r) == multiset(s) && |r| == |s|
  {
    if s == [] then []
    else
      assert s == [s[0]] + s[1..];
      InsertOrdered(s[0], Sort(s[1..]));
      Insert(s[0], Sort(s[1..]))
  }

  /** An ordered list without repetitions. */
  function Dedup(s: seq<Asn>): (r: seq<Asn>)
    ensures |r| <= |s| && (s != [] ==> r != [] && r[|r| - 1] == s[|s| - 1])
  {
    if |s| <= 1 then s
    else
      var n := |s| - 1;
      if s[n - 1] == s[n] then Dedup(s[..n]) else Dedup(s[..n]) + [s[n]]
  }

  lemma IncreasingSnoc(r: seq<Asn>, x: Asn)
    requires Increasing(r) && (r != [] ==> r[|r| - 1] < x)
    ensures Increasing(r + [x])
  {
  }

  lemma {:induction false} DedupIncreasing(s: seq<Asn>)
    requires Ordered(s)
    ensures Increasing(Dedup(s))
  {
    if |s| > 1 {
      var n := |s| - 1;
      DedupIncreasing(s[..n]);
      if s[n - 1] != s[n] {
        assert s[n - 1] < s[n];
        IncreasingSnoc(Dedup(s[..n]), s[n]);
      }
    }
  }

  lemma {:induction false} DedupElements(s: seq<Asn>, x: Asn)
    ensures x in Dedup(s) <==> x in s
  {
    if |s| > 1 {
      var n := |s| - 1;
      DedupElements(s[..n], x);
      assert s == s[..n] + [s[n]];
      assert s[n - 1] in s[..n];
    }
  }

  lemma SameElements(s: seq<Asn>, x: Asn)
    ensures x in Sort(s) <==> x in s
  {
    assert x in Sort(s) <==> x in multiset(Sort(s));
    assert x in s <==> x in multiset(s);
  }

  /** A set segment in its normal form. */
  function Clean(g: Segment): (r: Segment)
    ensures r.kind == g.kind
  {
    if SetKind(g.kind) then g.(asns := Dedup(Sort(g.asns))) else g
  }

  lemma CleanMeans(g: Segment)
    ensures SegmentHops(Clean(g)) == SegmentHops(g) && (SetKind(g.kind) ==> Increasing(Clean(g).asns))
  {
    DedupIncreasing(Sort(g.asns));
    forall x ensures x in Clean(g).asns <==> x in g.asns {
      DedupElements(Sort(g.asns), x);
      SameElements(g.asns, x);
    }
    assert AsSet(Clean(g).asns) == AsSet(g.asns);
  }

  // ---- Normalisation ----

  /** ASSEGMENT_TYPES_PACKABLE */
  predicate Packable(a: Segment, b: Segment) { a.kind == Sequence && b.kind == Sequence }

  /** assegment_normalise: sets are sorted and weeded, neighbouring AS_SEQUENCE
      segments are joined. */
  function Normalised(p: Path): (r: Path)
    decreases |p|
  {
    if p == [] then []
    else if |p| > 1 && Packable(p[0], p[1]) then Normalised([Segment(Sequence, p[0].asns + p[1].asns)] + p[2..])
    else [Clean(p[0])] + Normalised(p[1..])
  }

  /** Sets strictly increasing and no two neighbouring AS_SEQUENCE segments. */
  predicate Settled(p: Path) {
    && (forall i :: 0 <= i < |p| && SetKind(p[i].kind) ==> Increasing(p[i].asns))
    && (forall i :: 0 < i < |p| ==> !Packable(p[i - 1], p[i]))
  }

  predicate NoEmptySequence(p: Path) {
    forall i :: 0 <= i < |p| && p[i].kind == Sequence ==> p[i].asns != []
  }

  /** The normal form. */
  predicate IsNormal(p: Path) { Settled(p) && NoEmptySequence(p) }

  /** Every run of AS_SEQUENCE segments holds an ASN. */
  predicate RunsFilled(p: Path)
    decreases |p|
  {
    if p == [] then true
    else if |p| > 1 && Packable(p[0], p[1]) then RunsFilled([Segment(Sequence, p[0].asns + p[1].asns)] + p[2..])
    else (p[0].kind == Sequence ==> p[0].asns != []) && RunsFilled(p[1..])
  }

  lemma JoinMeans(a: Segment, b: Segment, rest: Path)
    requires Packable(a, b)
    ensures Meaning([Segment(Sequence, a.asns + b.asns)] + rest) == Meaning([a, b] + rest)
  {
    var j := Segment(Sequence, a.asns + b.asns);
    assert SegmentHops(j) == SegmentHops(a) + SegmentHops(b);
    assert ([j] + rest)[1..] == rest && ([a, b] + rest)[1..] == [b] + rest && ([b] + rest)[1..] == rest;
    assert SegmentHops(a) + (SegmentHops(b) + Meaning(rest)) == SegmentHops(j) + Meaning(rest);
  }

  /** Normalising does not change the meaning. */
  lemma {:induction false} NormalisedMeans(p: Path)
    ensures Meaning(Normalised(p)) == Meaning(p)
    decreases |p|
  {
    if p == [] {
    } else if |p| > 1 && Packable(p[0], p[1]) {
      JoinMeans(p[0], p[1], p[2..]);
      assert [p[0], p[1]] + p[2..] == p;
      NormalisedMeans([Segment(Sequence, p[0].asns + p[1].asns)] + p[2..]);
    } else {
      CleanMeans(p[0]);
      NormalisedMeans(p[1..]);
      var r := [Clean(p[0])] + Normalised(p[1..]);
      assert r[1..] == Normalised(p[1..]);
    }
  }

  lemma {:induction false} NormalisedHead(p: Path)
    requires p != []
    ensures Normalised(p) != [] && Normalised(p)[0].kind == p[0].kind
    decreases |p|
  {
    if |p| > 1 && Packable(p[0], p[1]) {
      NormalisedHead([Segment(Sequence, p[0].asns + p[1].asns)] + p[2..]);
    }
  }

  lemma {:induction false} NormalisedSettles(p: Path)
    ensures Settled(Normalised(p)) && (RunsFilled(p) <==> NoEmptySequence(Normalised(p)))
    decreases |p|
  {
    if p == [] {
    } else if |p| > 1 && Packable(p[0], p[1]) {
      NormalisedSettles([Segment(Sequence, p[0].asns + p[1].asns)] + p[2..]);
    } else {
      CleanMeans(p[0]);
      NormalisedSettles(p[1..]);
      if |p| > 1 { NormalisedHead(p[1..]); }
      SettledCons(Clean(p[0]), Normalised(p[1..]));
    }
  }

  lemma SettledCons(g: Segment, p: Path)
    requires Settled(p) && (SetKind(g.kind) ==> Increasing(g.asns)) && (p != [] ==> !Packable(g, p[0]))
    ensures Settled([g] + p)
    ensures NoEmptySequence([g] + p) <==> NoEmptySequence(p) && (g.kind == Sequence ==> g.asns != [])
  {
    var r := [g] + p;
    forall i | 0 < i < |r| ensures !Packable(r[i - 1], r[i]) {
      if i > 1 { assert !Packable(p[i - 1 - 1], p[i - 1]); }
    }
    assert r[1..] == p && r[0] == g;
    assert forall i :: 0 <= i < |p| ==> r[i + 1] == p[i];
  }

  lemma SettledTail(p: Path)
    requires Settled(p) && p != []
    ensures Settled(p[1..])
  {
    var r := p[1..];
    forall i | 0 < i < |r| ensures !Packable(r[i - 1], r[i]) {
      assert !Packable(p[i + 1 - 1], p[i + 1]);
    }
  }

  lemma CleanFixed(g: Segment)
    requires SetKind(g.kind) ==> Increasing(g.asns)
    ensures Clean(g) == g
  {
    if SetKind(g.kind) {
      CleanMeans(g);
      assert SegmentHops(Clean(g)) == SegmentHops(g);
      IncreasingUnique(Clean(g).asns, g.asns);
    }
  }

  /** Normalising a settled path changes nothing. */
  lemma {:induction false} SettledIsFixed(p: Path)
    requires Settled(p)
    ensures Normalised(p) == p
  {
    if p != [] {
      SettledTail(p);
      SettledIsFixed(p[1..]);
      assert |p| > 1 ==> !Packable(p[1 - 1], p[1]);
      CleanFixed(p[0]);
      hide Clean;
      assert p == [p[0]] + p[1..];
    }
  }

  /** Normalisation is idempotent and keeps the hop count and the ASNs, for
      every path. */
  lemma NormalisedKeeps(p: Path)
    ensures Normalised(Normalised(p)) == Normalised(p)
    ensures CountHops(Normalised(p)) == CountHops(p) && Asns(Normalised(p)) == Asns(p)
  {
    NormalisedSettles(p);
    SettledIsFixed(Normalised(p));
    NormalisedMeans(p);
    CountMeans(p);
    CountMeans(Normalised(p));
    forall x ensures x in Asns(Normalised(p)) <==> x in Asns(p) {
      AsnsMean(p, x);
      AsnsMean(Normalised(p), x);
    }
  }

  // ---- Canonicity ----

  /** The number of leading hops that are single ASes. */
  ghost function LeadingAs(h: seq<Hop>): nat {
    if h == [] || !h[0].As? then 0 else 1 + LeadingAs(h[1..])
  }

  lemma {:induction false} LeadingCount(s: seq<Hop>, u: seq<Hop>)
    requires (forall i :: 0 <= i < |s| ==> s[i].As?) && (u != [] ==> !u[0].As?)
    ensures LeadingAs(s + u) == |s|
  {
    if s == [] {
      assert s + u == u;
    } else {
      assert (s + u)[1..] == s[1..] + u;
      LeadingCount(s[1..], u);
    }
  }

  lemma SplitHops(a: seq<Asn>, b: seq<Asn>, u: seq<Hop>, v: seq<Hop>)
    requires SegmentHops(Segment(Sequence, a)) + u == SegmentHops(Segment(Sequence, b)) + v
    requires (u != [] ==> !u[0].As?) && (v != [] ==> !v[0].As?)
    ensures a == b && u == v
  {
    var s, t := SegmentHops(Segment(Sequence, a)), SegmentHops(Segment(Sequence, b));
    var w := s + u;
    LeadingCount(s, u);
    LeadingCount(t, v);
    assert w[..|a|] == s && w[|a|..] == u;
    assert (t + v)[..|b|] == t && (t + v)[|b|..] == v;
    forall i | 0 <= i < |a| ensures a[i] == b[i] { assert s[i] == t[i]; }
  }

  lemma FirstHop(p: Path)
    requires NoEmptySequence(p) && p != []
    ensures Meaning(p) != []
    ensures match p[0].kind
            case Sequence => Meaning(p)[0].As?
            case Set => Meaning(p)[0] == OneOf(AsSet(p[0].asns))
            case ConfedSequence => Meaning(p)[0] == Confed(p[0].asns)
            case ConfedSet => Meaning(p)[0] == ConfedOneOf(AsSet(p[0].asns))
    ensures p[0].kind != Sequence ==> Meaning(p)[1..] == Meaning(p[1..])
  {
  }

  /** Two normal paths with the same meaning are the same path. */
  lemma {:induction false} NormalUnique(p: Path, q: Path)
    requires IsNormal(p) && IsNormal(q) && Meaning(p) == Meaning(q)
    ensures p == q
    decreases |p|
  {
    if p != [] { FirstHop(p); }
    if q != [] { FirstHop(q); }
    if p != [] {
      NormalTailMeans(p);
      NormalTailMeans(q);
      assert p[0].kind == q[0].kind;
      if p[0].kind == Sequence {
        SplitHops(p[0].asns, q[0].asns, Meaning(p[1..]), Meaning(q[1..]));
      } else if SetKind(p[0].kind) {
        IncreasingUnique(p[0].asns, q[0].asns);
      }
      assert p[0] == q[0];
      NormalUnique(p[1..], q[1..]);
      assert p == [p[0]] + p[1..] && q == [q[0]] + q[1..];
    }
  }

  lemma NormalTailMeans(p: Path)
    requires IsNormal(p) && p != []
    ensures IsNormal(p[1..]) && Meaning(p) == SegmentHops(p[0]) + Meaning(p[1..])
    ensures p[0].kind == Sequence && Meaning(p[1..]) != [] ==> !Meaning(p[1..])[0].As?
  {
    SettledTail(p);
    if |p| > 1 {
      FirstHop(p[1..]);
      assert !Packable(p[1 - 1], p[1]);
    }
  }

  /** Equal normal forms and equal meanings are the same thing. */
  lemma Canonical(p: Path, q: Path)
    requires RunsFilled(p) && RunsFilled(q)
    ensures Normalised(p) == Normalised(q) <==> Meaning(p) == Meaning(q)
  {
    NormalisedMeans(p);
    NormalisedMeans(q);
    NormalisedSettles(p);
    NormalisedSettles(q);
    if Meaning(p) == Meaning(q) { NormalUnique(Normalised(p), Normalised(q)); }
  }

  predicate NoEmptySegments(p: Path) { forall i :: 0 <= i < |p| ==> p[i].asns != [] }

  lemma {:induction false} NonEmptyRuns(p: Path)
    requires NoEmptySequence(p)
    ensures RunsFilled(p)
    decreases |p|
  {
    if |p| > 1 && Packable(p[0], p[1]) {
      NonEmptyRuns([Segment(Sequence, p[0].asns + p[1].asns)] + p[2..]);
    } else if p != [] {
      NonEmptyRuns(p[1..]);
    }
  }

  function WithoutEmpty(p: Path): (q: Path)
    ensures NoEmptySequence(q)
  {
    if p == [] then []
    else if p[0].kind == Sequence && p[0].asns == [] then WithoutEmpty(p[1..])
    else [p[0]] + WithoutEmpty(p[1..])
  }

  lemma {:induction false} WithoutEmptyMeans(p: Path)
    ensures Meaning(WithoutEmpty(p)) == Meaning(p)
  {
    if p != [] {
      WithoutEmptyMeans(p[1..]);
      if p[0].kind == Sequence && p[0].asns == [] {
        assert SegmentHops(p[0]) == [];
        assert [] + Meaning(p[1..]) == Meaning(p[1..]);
      } else {
        hide SegmentHops, NoEmptySequence;
        assert WithoutEmpty(p)[1..] == WithoutEmpty(p[1..]);
      }
    }
  }

  /** A path has a canonical normal form exactly when each of its runs of
      AS_SEQUENCE segments holds an ASN. */
  lemma CanonicalExactly(p: Path)
    ensures (forall q :: RunsFilled(q) ==> (Normalised(p) == Normalised(q) <==> Meaning(p) == Meaning(q)))
            <==> RunsFilled(p)
  {
    if RunsFilled(p) {
      forall q | RunsFilled(q) ensures Normalised(p) == Normalised(q) <==> Meaning(p) == Meaning(q) {
        Canonical(p, q);
      }
    } else {
      var q := WithoutEmpty(p);
      WithoutEmptyMeans(p);
      NonEmptyRuns(q);
      NormalisedSettles(p);
      NormalisedSettles(q);
      assert Normalised(p) != Normalised(q);
    }
  }

  /** An empty AS_SEQUENCE is not removed: two paths without a hop differ. */
  lemma EmptySequenceStays()
    ensures Meaning([Segment(Sequence, [])]) == Meaning([])
    ensures Normalised([Segment(Sequence, [])]) != Normalised([])
  {
    assert SegmentHops(Segment(Sequence, [])) == [];
  }
}

/** Merging AS_PATH and AS4_PATH from a 2-byte neighbour (bgpd/bgp_aspath.c,
    aspath_reconcile_as4; section 4.2.3 of RFC 6793). */
module AsPathReconcile {
  import opened AsPath
  import opened AsPathEdit
  import opened AsPathWire
  import opened AsPathRoundTrip

  /** What is copied of a segment while `hops` are still wanted. */
  function Copied(g: Segment, hops: int): (c: Segment)
    requires hops > 0
    ensures c.kind == g.kind
  {
    if g.kind == Sequence && hops < |g.asns| then g.(asns := g.asns[..hops]) else g
  }

  /** The hops still wanted after a segment: a confederation sequence is never
      cut, the count is raised instead. */
  function Wanted(g: Segment, hops: int): int {
    match g.kind
    case Set => hops - 1
    case ConfedSet => hops - 1
    case Sequence => hops - |g.asns|
    case ConfedSequence => if hops < |g.asns| then 0 else hops - |g.asns|
  }

  function TakeHops(p: Path, hops: int): (q: Path) {
    if p == [] || hops <= 0 then [] else [Copied(p[0], hops)] + TakeHops(p[1..], Wanted(p[0], hops))
  }

  /** The number of leading hops that AS_PATH has and AS4_PATH has not. */
  function Extra(a: Path, b: Path): nat {
    var h := CountHops(a) + CountConfeds(a) - CountHops(b);
    if h < 0 then CountHops(a) else h
  }

  /** aspath_reconcile_as4 */
  function Reconcile(a: Path, b: Path): (r: Path) {
    if Extra(a, b) == 0 then b else Normalised(TakeHops(a, Extra(a, b)) + b)
  }

  /** aspath_reconcile_as4 as a loop over AS_PATH. */
  method AspathReconcileAs4(a: Path, b: Path) returns (r: Path)
    ensures r == Reconcile(a, b)
  {
    var hops := CountHops(a) + CountConfeds(a) - CountHops(b);
    if hops < 0 {
      hops := CountHops(a);
    }
    if hops == 0 {
      return b;
    }
    var newpath: Path := [];
    var i := 0;
    while i < |a| && hops > 0
      invariant 0 <= i <= |a| && TakeHops(a, Extra(a, b)) == newpath + TakeHops(a[i..], hops)
    {
      var seg := a[i];
      var cpasns: nat;
      ghost var was := hops;
      match seg.kind {
        case Set => hops, cpasns := hops - 1, |seg.asns|;
        case ConfedSet => hops, cpasns := hops - 1, |seg.asns|;
        case ConfedSequence =>
          if hops < |seg.asns| { hops := |seg.asns|; }
          hops, cpasns := hops - |seg.asns|, |seg.asns|;
        case Sequence => hops, cpasns := hops - |seg.asns|, if |seg.asns| < hops then |seg.asns| else hops;
      }
      var newseg := Segment(seg.kind, seg.asns[..cpasns]);
      assert seg.asns[..|seg.asns|] == seg.asns;
      assert newseg == Copied(seg, was) && hops == Wanted(seg, was);
      assert a[i..][0] == seg && a[i..][1..] == a[i + 1..];
      Regroup(newpath, newseg, TakeHops(a[i + 1..], hops));
      newpath := newpath + [newseg];
      i := i + 1;
    }
    assert newpath + [] == newpath;
    r := Normalise(newpath + b);
  }

  lemma Regroup(p: Path, g: Segment, q: Path)
    ensures p + ([g] + q) == p + [g] + q
  {
  }

  // ---- Taking hops is taking a prefix of the meaning ----

  lemma {:induction false} ConfedFreeCounts(p: Path)
    requires ConfedFree(p)
    ensures |Meaning(p)| == CountHops(p) && CountConfeds(p) == 0
  {
    if p != [] { ConfedFreeCounts(p[1..]); }
  }

  lemma {:induction false} TakeMeans(p: Path, h: nat)
    requires ConfedFree(p) && h <= |Meaning(p)|
    ensures Meaning(TakeHops(p, h)) == Meaning(p)[..h]
    decreases |p|
  {
    if p != [] && h > 0 {
      var g, rest := p[0], p[1..];
      var n := |SegmentHops(g)|;
      assert TakeHops(p, h)[1..] == TakeHops(rest, Wanted(g, h));
      if n <= h {
        TakeMeans(rest, h - n);
        assert Meaning(p)[..h] == SegmentHops(g) + Meaning(rest)[..h - n];
      } else {
        assert g.kind == Sequence && TakeHops(rest, h - n) == [];
        OneMeans(Copied(g, h));
        assert Meaning(p)[..h] == SegmentHops(g)[..h];
        assert SegmentHops(Copied(g, h)) == SegmentHops(g)[..h];
      }
    }
  }

  lemma {:induction false} TakeNonEmpty(p: Path, hops: int)
    requires NoEmptySequence(p)
    ensures NoEmptySequence(TakeHops(p, hops))
    decreases |p|
  {
    if p != [] && hops > 0 {
      assert NoEmptySequence(p[1..]);
      TakeNonEmpty(p[1..], Wanted(p[0], hops));
    }
  }

  lemma HopCountPrefix(h: seq<Hop>, n: nat)
    requires n <= |h| && forall i :: 0 <= i < |h| ==> h[i].As? || h[i].OneOf?
    ensures HopCount(h) == |h| && HopCount(h[..n]) == n
    decreases |h|
  {
    if h != [] {
      HopCountPrefix(h[1..], if n == 0 then 0 else n - 1);
      if n > 0 { assert h[..n][1..] == h[1..][..n - 1]; }
    }
  }

  lemma {:induction false} ConfedFreeHops(p: Path, i: nat)
    requires ConfedFree(p) && i < |Meaning(p)|
    ensures Meaning(p)[i].As? || Meaning(p)[i].OneOf?
  {
    if p != [] {
      var n := |SegmentHops(p[0])|;
      if i >= n { ConfedFreeHops(p[1..], i - n); }
    }
  }

  /** Reconciling gives a path with exactly AS_PATH's hop count. */
  lemma ReconcileCount(a: Path, b: Path)
    requires ConfedFree(a) && CountHops(b) <= CountHops(a)
    ensures CountHops(Reconcile(a, b)) == CountHops(a)
  {
    ConfedFreeCounts(a);
    var h := Extra(a, b);
    if h > 0 {
      var t := TakeHops(a, h);
      TakeMeans(a, h);
      NormalisedKeeps(t + b);
      CountMeans(t + b);
      CountMeans(b);
      MeaningConcat(t, b);
      HopCountConcat(Meaning(t), Meaning(b));
      forall i | 0 <= i < |Meaning(a)| ensures Meaning(a)[i].As? || Meaning(a)[i].OneOf? { ConfedFreeHops(a, i); }
      HopCountPrefix(Meaning(a), h);
    }
  }

  // ---- The hop count with confederation segments ----

  /** The hops behind the last confederation segment. */
  function TailHops(p: Path): (n: nat) {
    if p == [] then 0
    else if !ConfedFree(p[1..]) then TailHops(p[1..])
    else CountHops(p[1..]) + if IsConfed(p[0].kind) then 0 else SegmentCount(p[0])
  }

  lemma {:induction false} TailBounds(p: Path)
    requires NoEmptySegments(p)
    ensures TailHops(p) <= CountHops(p) && (ConfedFree(p) ==> TailHops(p) == CountHops(p))
    ensures ConfedFree(p) <==> CountConfeds(p) == 0
  {
    if p != [] {
      assert forall i :: 0 <= i < |p[1..]| ==> p[1..][i] == p[i + 1];
      TailBounds(p[1..]);
      assert p[0].asns != [];
      assert ConfedFree(p) <==> !IsConfed(p[0].kind) && ConfedFree(p[1..]) by {
        assert forall i :: 0 < i < |p| ==> p[i] == p[1..][i - 1];
      }
    }
  }

  /** Leaving out the last r of all hops leaves out r counted ones exactly when
      they stand behind the last confederation segment. */
  lemma {:induction false} TakeCounts(p: Path, h: nat)
    requires NoEmptySegments(p) && h <= CountHops(p) + CountConfeds(p)
    ensures var r := CountHops(p) + CountConfeds(p) - h;
            CountHops(TakeHops(p, h)) == CountHops(p) - r <==> r <= TailHops(p)
    decreases |p|
  {
    TailBounds(p);
    if p != [] && h > 0 {
      var g, rest := p[0], p[1..];
      assert forall i :: 0 <= i < |rest| ==> rest[i] == p[i + 1];
      assert g.asns != [];
      TailBounds(rest);
      var t := TakeHops(rest, Wanted(g, h));
      assert TakeHops(p, h) == [Copied(g, h)] + t && ([Copied(g, h)] + t)[1..] == t;
      var w := CountHops(p) + CountConfeds(p) - CountHops(rest) - CountConfeds(rest);
      if w <= h {
        assert Copied(g, h) == g && Wanted(g, h) == h - w;
        TakeCounts(rest, h - w);
      } else {
        assert t == [];
      }
    }
  }

  /** For all paths: reconciling keeps AS_PATH's hop count exactly when AS4_PATH
      has no more hops than stand behind AS_PATH's last confederation segment. */
  lemma ReconcileCountExactly(a: Path, b: Path)
    requires NoEmptySegments(a)
    ensures CountHops(Reconcile(a, b)) == CountHops(a) <==> CountHops(b) <= TailHops(a)
  {
    var h := Extra(a, b);
    var t := TakeHops(a, h);
    TailBounds(a);
    ReconcileSplits(a, b);
    CountMeans(Reconcile(a, b));
    CountMeans(t);
    CountMeans(b);
    HopCountConcat(Meaning(t), Meaning(b));
    if CountHops(b) <= CountHops(a) + CountConfeds(a) { TakeCounts(a, h); }
  }

  // ---- The real path is recovered ----

  predicate Small(p: Path) {
    forall i, j :: 0 <= i < |p| && 0 <= j < |p[i].asns| ==> p[i].asns[j] <= 65535
  }

  lemma {:induction false} SmallAsns(a: seq<Asn>)
    requires forall j :: 0 <= j < |a| ==> a[j] <= 65535
    ensures AllOnWire(a, false) == a
  {
    if a != [] {
      SmallAsns(a[1..]);
      assert a == [a[0]] + a[1..];
    }
  }

  lemma {:induction false} SmallOnWire(p: Path)
    requires Small(p)
    ensures PathOnWire(p, false) == p
  {
    if p != [] {
      SmallAsns(p[0].asns);
      assert forall i :: 0 <= i < |p[1..]| ==> p[1..][i] == p[i + 1];
      SmallOnWire(p[1..]);
      assert p == [p[0]] + p[1..];
    }
  }

  /** Going over the wire keeps kinds and lengths. */
  lemma {:induction false} OnWireShape(p: Path, wide: bool, i: nat)
    requires i < |p|
    ensures PathOnWire(p, wide)[i].kind == p[i].kind && |PathOnWire(p, wide)[i].asns| == |p[i].asns|
  {
    if i > 0 { OnWireShape(p[1..], wide, i - 1); }
  }

  lemma {:induction false} OnWireCount(p: Path, wide: bool)
    ensures CountHops(PathOnWire(p, wide)) == CountHops(p)
  {
    if p != [] {
      OnWireCount(p[1..], wide);
      assert PathOnWire(p, wide)[1..] == PathOnWire(p[1..], wide);
    }
  }

  lemma {:induction false} NormalisedConfedFree(p: Path)
    requires ConfedFree(p)
    ensures ConfedFree(Normalised(p))
    decreases |p|
  {
    if p == [] {
    } else if |p| > 1 && Packable(p[0], p[1]) {
      NormalisedConfedFree([Segment(Sequence, p[0].asns + p[1].asns)] + p[2..]);
    } else {
      NormalisedConfedFree(p[1..]);
    }
  }

  /** What the 2-byte neighbour sends for the path q followed by p. */
  function OldSpeakerPath(q: Path, p: Path): (a: Path) { Normalised(PathOnWire(q + p, false)) }

  lemma OldSpeakerMeans(q: Path, p: Path)
    requires IsNormal(q) && IsNormal(p) && ConfedFree(q) && ConfedFree(p) && Small(q)
    ensures var a := OldSpeakerPath(q, p);
            && IsNormal(a) && ConfedFree(a) && CountHops(a) == CountHops(q) + CountHops(p)
            && |Meaning(a)| == CountHops(a) && Meaning(a)[..CountHops(q)] == Meaning(q)
  {
    var w := PathOnWire(q + p, false);
    SmallOnWire(q);
    PathOnWireConcat(q, p, false);
    forall i | 0 <= i < |q + p| ensures w[i].kind == (q + p)[i].kind && |w[i].asns| == |(q + p)[i].asns| {
      OnWireShape(q + p, false, i);
    }
    assert NoEmptySequence(w) && ConfedFree(w);
    hide PathOnWire, Settled;
    NonEmptyRuns(w);
    NormalisedSettles(w);
    NormalisedMeans(w);
    NormalisedConfedFree(w);
    ConfedFreeCounts(Normalised(w));
    ConfedFreeCounts(q);
    ConfedFreeCounts(w);
    OldCounts(q, p);
    MeaningConcat(q, PathOnWire(p, false));
  }

  lemma OldCounts(q: Path, p: Path)
    ensures CountHops(PathOnWire(q + p, false)) == CountHops(q) + CountHops(p)
  {
    OnWireCount(q + p, false);
    CountMeans(q + p);
    CountMeans(q);
    CountMeans(p);
    MeaningConcat(q, p);
    HopCountConcat(Meaning(q), Meaning(p));
  }

  /** The AS_TRANS-mapped path reconciled with AS4_PATH p is the real path. */
  lemma ReconcileRecovers(q: Path, p: Path)
    requires IsNormal(q) && IsNormal(p) && ConfedFree(q) && ConfedFree(p) && Small(q)
    ensures Reconcile(OldSpeakerPath(q, p), p) == Normalised(q + p)
  {
    var a := OldSpeakerPath(q, p);
    OldSpeakerMeans(q, p);
    ConfedFreeCounts(a);
    ConfedFreeCounts(q);
    var h := CountHops(q);
    assert Extra(a, p) == h;
    hide OldSpeakerPath, ConfedFree;
    if h == 0 {
      NormalUnique(q, []);
      assert q + p == p;
      SettledIsFixed(p);
    } else {
      var t := TakeHops(a, h);
      assert ConfedFree(a);
      TakeMeans(a, h);
      TakeNonEmpty(a, h);
      MeaningConcat(t, p);
      MeaningConcat(q, p);
      assert NoEmptySequence(t + p) && NoEmptySequence(q + p);
      NonEmptyRuns(t + p);
      NonEmptyRuns(q + p);
      Canonical(t + p, q + p);
    }
  }

  // ---- Nothing is lost for loop detection ----

  lemma {:induction false} AsnsConcat(p: Path, q: Path)
    ensures Asns(p + q) == Asns(p) + Asns(q)
  {
    if p == [] {
      assert p + q == q;
    } else {
      assert (p + q)[1..] == p[1..] + q;
      AsnsConcat(p[1..], q);
    }
  }

  lemma {:induction false} TakeAll(p: Path, h: nat)
    requires ConfedFree(p) && h >= CountHops(p)
    ensures Asns(TakeHops(p, h)) == Asns(p)
    decreases |p|
  {
    if p != [] {
      if h > 0 {
        TakeAll(p[1..], h - SegmentCount(p[0]));
        assert TakeHops(p, h)[1..] == TakeHops(p[1..], h - SegmentCount(p[0]));
      } else {
        TakeAll(p[1..], 0);
        assert p[0].asns == [] && TakeHops(p[1..], 0) == [];
      }
    }
  }

  /** AS4_PATH's ASNs are always kept; when it claims more hops than a
      confederation-free AS_PATH has, AS_PATH's are kept as well. */
  lemma ReconcileAsns(a: Path, b: Path)
    ensures Asns(b) <= Asns(Reconcile(a, b))
    ensures ConfedFree(a) && CountHops(b) > CountHops(a) ==> Asns(Reconcile(a, b)) == Asns(a) + Asns(b)
  {
    ReconcileSplits(a, b);
    if ConfedFree(a) && CountHops(b) > CountHops(a) {
      ConfedFreeCounts(a);
      TakeAll(a, Extra(a, b));
    }
  }

  /** The result holds the leading hops of AS_PATH that are wanted, then AS4_PATH. */
  lemma ReconcileSplits(a: Path, b: Path)
    ensures Meaning(Reconcile(a, b)) == Meaning(TakeHops(a, Extra(a, b))) + Meaning(b)
    ensures Asns(Reconcile(a, b)) == Asns(TakeHops(a, Extra(a, b))) + Asns(b)
  {
    var t := TakeHops(a, Extra(a, b));
    NormalisedKeeps(t + b);
    NormalisedMeans(t + b);
    AsnsConcat(t, b);
    MeaningConcat(t, b);
    if Extra(a, b) == 0 {
      assert t == [] && Asns([]) == {} && Meaning([]) == [] && [] + Meaning(b) == Meaning(b);
    }
  }

  // ---- When AS4_PATH claims more hops than AS_PATH has ----

  /** The case in which the hop count starts over. */
  predicate ClaimsMore(a: Path, b: Path) { CountHops(b) > CountHops(a) + CountConfeds(a) }

  /** Taking a whole path takes its hops, and more if it has confederation
      segments, because these use up hops that were not counted. */
  lemma {:induction false} TakeNeeds(p: Path, h: nat)
    requires NoEmptySegments(p) && TakeHops(p, h) == p
    ensures h >= CountHops(p) + if ConfedFree(p) then 0 else 1
    decreases |p|
  {
    if p != [] {
      var rest := p[1..];
      assert TakeHops(p, h)[1..] == TakeHops(rest, Wanted(p[0], h)) && TakeHops(p, h)[0] == Copied(p[0], h);
      assert forall i :: 0 <= i < |rest| ==> rest[i] == p[i + 1];
      assert p[0].asns != [];
      assert ConfedFree(p) <==> !IsConfed(p[0].kind) && ConfedFree(rest) by {
        assert forall i :: 0 < i < |p| ==> p[i] == rest[i - 1];
      }
      TakeNeeds(rest, Wanted(p[0], h));
    }
  }

  lemma {:induction false} TakeWhole(p: Path, h: nat)
    requires NoEmptySegments(p) && ConfedFree(p) && h >= CountHops(p)
    ensures TakeHops(p, h) == p
    decreases |p|
  {
    if p != [] {
      assert forall i :: 0 <= i < |p[1..]| ==> p[1..][i] == p[i + 1];
      assert p[0].asns != [];
      TakeWhole(p[1..], h - SegmentCount(p[0]));
      assert p == [p[0]] + p[1..];
    }
  }

  /** A path is taken whole for its own hop count exactly when it has no
      confederation segment. */
  lemma TakenWholeExactly(p: Path)
    requires NoEmptySegments(p)
    ensures TakeHops(p, CountHops(p)) == p <==> ConfedFree(p)
  {
    if ConfedFree(p) { TakeWhole(p, CountHops(p)); }
    if TakeHops(p, CountHops(p)) == p { TakeNeeds(p, CountHops(p)); }
  }

  /** What is taken is a prefix, and of what is left out every hop and every ASN
      is missing. */
  lemma {:induction false} TakePrefix(p: Path, h: int)
    requires NoEmptySegments(p)
    ensures Joined(TakeHops(p, h)) <= Joined(p)
    ensures |Meaning(TakeHops(p, h))| <= |Meaning(p)|
    ensures TakeHops(p, h) != p ==> |Joined(TakeHops(p, h))| < |Joined(p)| && |Meaning(TakeHops(p, h))| < |Meaning(p)|
    decreases |p|
  {
    if p != [] {
      var g, rest := p[0], p[1..];
      assert forall i :: 0 <= i < |rest| ==> rest[i] == p[i + 1];
      assert g.asns != [] && p == [g] + rest;
      if h > 0 {
        var t := TakeHops(rest, Wanted(g, h));
        assert TakeHops(p, h) == [Copied(g, h)] + t && ([Copied(g, h)] + t)[1..] == t;
        TakePrefix(rest, Wanted(g, h));
        if Copied(g, h) != g { assert t == []; }
      }
    }
  }

  /** When AS4_PATH claims more hops, all of AS_PATH is put in front of it exactly
      when AS_PATH has no confederation segment. */
  lemma WholeKeptExactly(a: Path, b: Path)
    requires NoEmptySegments(a) && ClaimsMore(a, b)
    ensures Meaning(Reconcile(a, b)) == Meaning(a) + Meaning(b) <==> ConfedFree(a)
  {
    var t := TakeHops(a, CountHops(a));
    ReconcileSplits(a, b);
    TakenWholeExactly(a);
    TakePrefix(a, CountHops(a));
    assert Extra(a, b) == CountHops(a);
    if t != a { assert |Meaning(t) + Meaning(b)| < |Meaning(a) + Meaning(b)|; }
  }

  predicate Distinct(s: seq<Asn>) { forall i, j :: 0 <= i < j < |s| ==> s[i] != s[j] }

  lemma {:induction false} JoinedAsns(p: Path)
    ensures Asns(p) == AsSet(Joined(p))
  {
    if p != [] { JoinedAsns(p[1..]); }
  }

  /** An AS4_PATH of n hops through one AS. */
  function Straight(n: nat, y: Asn): Path { [Segment(Sequence, seq(n, _ => y))] }

  lemma StraightIs(n: nat, y: Asn)
    ensures CountHops(Straight(n, y)) == n && Asns(Straight(n, y)) <= {y}
  {
    assert Straight(n, y)[1..] == [];
  }

  /** With a confederation segment the last ASN of such an AS_PATH can be lost. */
  lemma LosesLast(a: Path) returns (b: Path, x: Asn)
    requires NoEmptySegments(a) && Distinct(Joined(a)) && !ConfedFree(a)
    ensures ClaimsMore(a, b) && x in Asns(a) && x !in Asns(Reconcile(a, b))
  {
    var t, all, n := TakeHops(a, CountHops(a)), Joined(a), CountHops(a) + CountConfeds(a) + 1;
    TakenWholeExactly(a);
    TakePrefix(a, CountHops(a));
    hide TakeHops, Joined, ConfedFree, Asns, Reconcile, Straight;
    x := all[|all| - 1];
    var y: Asn := if x == 0 then 1 else 0;
    b := Straight(n, y);
    StraightIs(n, y);
    LastMissing(Joined(t), all);
    JoinedAsns(a);
    JoinedAsns(t);
    ReconcileSplits(a, b);
  }

  /** For an AS_PATH that names no AS twice: no AS4_PATH that claims more hops
      makes it lose an ASN exactly when it has no confederation segment. */
  lemma AsnsKeptExactly(a: Path)
    requires NoEmptySegments(a) && Distinct(Joined(a))
    ensures (forall b :: ClaimsMore(a, b) ==> Asns(a) <= Asns(Reconcile(a, b))) <==> ConfedFree(a)
  {
    if ConfedFree(a) {
      ConfedFreeCounts(a);
      hide Reconcile, Asns;
      forall b | ClaimsMore(a, b) ensures Asns(a) <= Asns(Reconcile(a, b)) { ReconcileAsns(a, b); }
    } else {
      hide Reconcile, Asns;
      var b, x := LosesLast(a);
    }
  }

  lemma LastMissing(s: seq<Asn>, all: seq<Asn>)
    requires Distinct(all) && s <= all && |s| < |all|
    ensures all[|all| - 1] in all && all[|all| - 1] !in s
  {
    forall i | 0 <= i < |s| ensures s[i] != all[|all| - 1] { assert s[i] == all[i]; }
  }

  /** A confederation segment uses up the hops: AS 4 is lost, although AS_PATH is
      short and AS4_PATH long. */
  lemma LostBehindConfed()
    ensures var a := [Segment(ConfedSequence, [1, 2, 3]), Segment(Sequence, [4])];
            var b := Straight(5, 6);
            ClaimsMore(a, b) && 4 in Asns(a) && 4 !in Asns(Reconcile(a, b))
  {
    var a, b := [Segment(ConfedSequence, [1, 2, 3]), Segment(Sequence, [4])], Straight(5, 6);
    assert a[1..] == [Segment(Sequence, [4])] && a[1..][1..] == [];
    assert CountHops(a[1..]) == 1 && CountHops(a) == 1 && CountConfeds(a[1..]) == 0 && CountConfeds(a) == 3;
    StraightIs(5, 6);
    var t := TakeHops(a, 1);
    assert TakeHops(a[1..], 0) == [] && t == [a[0]] && t[1..] == [];
    assert Asns([]) == {} && Asns(t) == AsSet([1, 2, 3]);
    assert 4 in AsSet([4]) && 4 in Asns(a[1..]);
    ReconcileSplits(a, b);
  }

  /** Only AS_SEQUENCEs are ever cut. */
  lemma {:induction false} OthersWhole(p: Path, hops: int, i: nat)
    requires i < |TakeHops(p, hops)|
    ensures i < |p| && TakeHops(p, hops)[i].kind == p[i].kind
    ensures p[i].kind != Sequence ==> TakeHops(p, hops)[i] == p[i]
    decreases |p|
  {
    if i > 0 {
      OthersWhole(p[1..], Wanted(p[0], hops), i - 1);
    }
  }
}

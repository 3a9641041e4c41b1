/** Which AS paths survive the wire. */
module AsPathRoundTrip {
  import opened Options
  import opened Bytes
  import opened AsPath
  import opened AsPathWire

  // ---- Cutting an AS_SEQUENCE does not change the meaning ----

  lemma {:induction false} OnWireConcat(a: seq<Asn>, b: seq<Asn>, wide: bool)
    ensures AllOnWire(a + b, wide) == AllOnWire(a, wide) + AllOnWire(b, wide)
  {
    if a == [] {
      assert a + b == b;
    } else {
      assert (a + b)[1..] == a[1..] + b;
      OnWireConcat(a[1..], b, wide);
    }
  }

  lemma {:induction false} PathOnWireConcat(p: Path, q: Path, wide: bool)
    ensures PathOnWire(p + q, wide) == PathOnWire(p, wide) + PathOnWire(q, wide)
  {
    if p == [] {
      assert p + q == q;
    } else {
      assert (p + q)[1..] == p[1..] + q;
      PathOnWireConcat(p[1..], q, wide);
    }
  }

  lemma OneMeans(g: Segment)
    ensures Meaning([g]) == SegmentHops(g)
  {
    assert [g][1..] == [] && Meaning([]) == [];
    assert SegmentHops(g) + [] == SegmentHops(g);
  }

  lemma HopsConcat(a: seq<Asn>, b: seq<Asn>)
    ensures SegmentHops(Segment(Sequence, a + b)) == SegmentHops(Segment(Sequence, a)) + SegmentHops(Segment(Sequence, b))
  {
  }

  lemma {:induction false} SplitMeans(g: Segment, wide: bool)
    requires g.kind == Sequence || |g.asns| <= SEGMENT_MAX
    ensures Meaning(PathOnWire(Split(g), wide)) == SegmentHops(Segment(g.kind, AllOnWire(g.asns, wide)))
    decreases |g.asns|
  {
    if |g.asns| > SEGMENT_MAX {
      var a, b := g.asns[..SEGMENT_MAX], g.asns[SEGMENT_MAX..];
      var first, rest := Segment(Sequence, a), Segment(Sequence, b);
      SplitMeans(rest, wide);
      assert a + b == g.asns && Split(g) == [first] + Split(rest);
      hide Split, SegmentHops;
      var u, v := PathOnWire([first], wide), PathOnWire(Split(rest), wide);
      assert [first][1..] == [];
      assert u == [Segment(Sequence, AllOnWire(a, wide))];
      PathOnWireConcat([first], Split(rest), wide);
      MeaningConcat(u, v);
      OneMeans(u[0]);
      OnWireConcat(a, b, wide);
      HopsConcat(AllOnWire(a, wide), AllOnWire(b, wide));
    } else {
      assert [g][1..] == [];
      OneMeans(Segment(g.kind, AllOnWire(g.asns, wide)));
    }
  }

  lemma {:induction false} SplitAllMeans(p: Path, wide: bool)
    requires ShortOthers(p)
    ensures Meaning(PathOnWire(SplitAll(p), wide)) == Meaning(PathOnWire(p, wide))
  {
    if p != [] {
      SplitMeans(p[0], wide);
      SplitAllMeans(p[1..], wide);
      PathOnWireConcat(Split(p[0]), SplitAll(p[1..]), wide);
      MeaningConcat(PathOnWire(Split(p[0]), wide), PathOnWire(SplitAll(p[1..]), wide));
      assert PathOnWire(p, wide)[1..] == PathOnWire(p[1..], wide);
    }
  }

  lemma {:induction false} OnWireNonEmpty(p: Path, wide: bool)
    requires NoEmptySegments(p)
    ensures NoEmptySegments(PathOnWire(p, wide)) && RunsFilled(PathOnWire(p, wide))
  {
    if p != [] {
      assert forall i :: 0 <= i < |p[1..]| ==> p[1..][i] == p[i + 1];
      OnWireNonEmpty(p[1..], wide);
      NonEmptyConcat([PathOnWire(p, wide)[0]], PathOnWire(p[1..], wide));
    }
    NonEmptyRuns(PathOnWire(p, wide));
  }

  // ---- Packing ----

  /** The header of a segment and those packed under it counts all of them
      exactly when at most one was packed. */
  lemma HeaderCountsExactly(seg: Segment, packed: Path)
    requires NoEmptySegments(packed)
    ensures HeaderCount(seg, packed) == |seg.asns + Joined(packed)| <==> |packed| <= 1
  {
    var n := |packed|;
    if n == 1 {
      assert packed[1..] == [] && Joined(packed) == packed[0].asns + [];
    } else if n > 1 {
      JoinedLonger(packed);
    }
  }

  lemma {:induction false} JoinedLonger(packed: Path)
    requires packed != [] && NoEmptySegments(packed)
    ensures |Joined(packed)| >= |packed[|packed| - 1].asns| + |packed| - 1
  {
    if |packed| > 1 {
      var rest := packed[1..];
      forall i | 0 <= i < |rest| ensures rest[i].asns != [] { assert rest[i] == packed[i + 1]; }
      JoinedLonger(rest);
    }
  }

  /** The path whose segments have the headers that aspath_put writes. */
  function Packed(p: Path): (q: Path)
    decreases |p|
  {
    if p == [] then []
    else
      var k := PackedCount(p[0], p[1..]);
      [Segment(p[0].kind, p[0].asns + Joined(p[1..][..k]))] + Packed(p[1..][k..])
  }

  /** Every header that aspath_put writes counts what follows it. */
  predicate HeadersRight(p: Path)
    decreases |p|
  {
    p != [] ==>
      var k := PackedCount(p[0], p[1..]);
      HeaderCount(p[0], p[1..][..k]) == |p[0].asns + Joined(p[1..][..k])| && HeadersRight(p[1..][k..])
  }

  /** No header takes more than one further segment. */
  predicate PacksOne(p: Path)
    decreases |p|
  {
    p != [] ==> var k := PackedCount(p[0], p[1..]); k <= 1 && PacksOne(p[1..][k..])
  }

  lemma SubpathNonEmpty(p: Path, q: Path, r: Path)
    requires p == q + r && NoEmptySegments(p)
    ensures NoEmptySegments(q) && NoEmptySegments(r)
  {
    NonEmptyConcat(q, r);
  }

  /** aspath_put counts right exactly on the paths where no header takes more
      than one further segment. */
  lemma {:induction false} HeadersRightExactly(p: Path)
    requires NoEmptySegments(p)
    ensures HeadersRight(p) <==> PacksOne(p)
    decreases |p|
  {
    if p != [] {
      var k := PackedCount(p[0], p[1..]);
      SubpathNonEmpty(p, [p[0]], p[1..]);
      SubpathNonEmpty(p[1..], p[1..][..k], p[1..][k..]);
      HeaderCountsExactly(p[0], p[1..][..k]);
      HeadersRightExactly(p[1..][k..]);
    }
  }

  /** One packed segment fits, and stands in the wire form of the joined one. */
  lemma PackedPair(seg: Segment, packed: Path, wide: bool)
    requires |packed| == 1 && Fitting(seg, packed[0])
    ensures var g := Segment(seg.kind, seg.asns + Joined(packed));
            && |g.asns| <= SEGMENT_MAX && Split(g) == [g]
            && PackedBytes(seg, packed, wide) == SegmentBytes(g, wide) == Wire([g], wide)
  {
    assert packed[1..] == [] && Joined(packed) == packed[0].asns + [];
    var g := Segment(seg.kind, seg.asns + Joined(packed));
    assert [g][1..] == [];
    assert SegmentBytes(g, wide) + [] == SegmentBytes(g, wide);
  }

  lemma FirstWire(p: Path, wide: bool)
    requires p != [] && PackedCount(p[0], p[1..]) <= 1
    ensures var k := PackedCount(p[0], p[1..]);
            var parts := Split(p[0]);
            var n := |parts| - 1;
            var g := Segment(p[0].kind, p[0].asns + Joined(p[1..][..k]));
            && (forall i :: 0 <= i < k ==> |parts[n].asns| + |p[1..][..k][i].asns| <= SEGMENT_MAX)
            && Wire(parts[..n], wide) + PackedBytes(parts[n], p[1..][..k], wide) == Wire(Split(g), wide)
  {
    var k := PackedCount(p[0], p[1..]);
    var parts := Split(p[0]);
    if k == 0 {
      assert p[1..][..0] == [] && p[0].asns + [] == p[0].asns;
      PutFirst(parts, wide);
    } else {
      assert parts == [p[0]] && parts[..0] == [];
      PackedPair(p[0], p[1..][..1], wide);
    }
  }

  /** aspath_put writes the packed path. */
  lemma {:induction false} PutPacks(p: Path, wide: bool)
    requires PacksOne(p)
    ensures PutAll(p, wide) == Wire(SplitAll(Packed(p)), wide)
    decreases |p|
  {
    if p != [] {
      var k := PackedCount(p[0], p[1..]);
      var g := Segment(p[0].kind, p[0].asns + Joined(p[1..][..k]));
      FirstWire(p, wide);
      PutPacks(p[1..][k..], wide);
      assert Packed(p) == [g] + Packed(p[1..][k..]);
      assert ([g] + Packed(p[1..][k..]))[1..] == Packed(p[1..][k..]);
      hide Wire, Split, PackedBytes, Packed;
      WireConcat(Split(g), SplitAll(Packed(p[1..][k..])), wide);
    }
  }

  /** What aspath_put makes of the first segment, and what is left. */
  lemma PackedFirst(p: Path)
    requires p != [] && PackedCount(p[0], p[1..]) <= 1
    ensures var k := PackedCount(p[0], p[1..]);
            var g := Segment(p[0].kind, p[0].asns + Joined(p[1..][..k]));
            && p == p[..k + 1] + p[k + 1..] && p[1..][k..] == p[k + 1..] && Packed(p) == [g] + Packed(p[k + 1..])
            && (k == 0 ==> g == p[0]) && (k == 1 ==> g.kind == p[0].kind == p[1].kind == Sequence && g.asns == p[0].asns + p[1].asns)
  {
    var k := PackedCount(p[0], p[1..]);
    assert Packed(p) == [Segment(p[0].kind, p[0].asns + Joined(p[1..][..k]))] + Packed(p[1..][k..]);
    assert k == 1 ==> Fitting(p[0], p[1..][0]);
    hide Packed, PackedCount;
    Cut(p, k);
    if k == 0 {
      assert p[0].asns + [] == p[0].asns;
    } else {
      var b := p[1];
      assert p[1..][..1] == [b] && [b][1..] == [] && Joined([b]) == b.asns + [];
    }
  }

  lemma Cut(p: Path, k: nat)
    requires k < |p|
    ensures p == p[..k + 1] + p[k + 1..] && p[1..][k..] == p[k + 1..] && p[1..][..0] == []
  {
  }

  /** Packing joins AS_SEQUENCEs only: no segment becomes empty or too long to
      stay whole. */
  lemma {:induction false} PackedShape(p: Path)
    requires PacksOne(p) && NoEmptySegments(p) && ShortOthers(p)
    ensures NoEmptySegments(Packed(p)) && ShortOthers(Packed(p))
    decreases |p|
  {
    if p != [] {
      var k := PackedCount(p[0], p[1..]);
      var g, rest := Segment(p[0].kind, p[0].asns + Joined(p[1..][..k])), p[k + 1..];
      PackedFirst(p);
      SubpathNonEmpty(p, p[..k + 1], rest);
      PackedShape(rest);
      assert p[0].asns != [];
      hide Packed, PackedCount;
      NonEmptyConcat([g], Packed(rest));
      OneNonEmpty(g);
    }
  }

  /** The meaning on the wire is the same. */
  lemma {:induction false} PackedMeans(p: Path, wide: bool)
    requires PacksOne(p)
    ensures Meaning(PathOnWire(Packed(p), wide)) == Meaning(PathOnWire(p, wide))
    decreases |p|
  {
    if p != [] {
      var k := PackedCount(p[0], p[1..]);
      var g, now, rest := Segment(p[0].kind, p[0].asns + Joined(p[1..][..k])), p[..k + 1], p[k + 1..];
      PackedFirst(p);
      PackedMeans(rest, wide);
      JoinedMeans(g, now, wide);
      hide Packed, Meaning, PathOnWire, PackedCount;
      PathOnWireConcat(now, rest, wide);
      PathOnWireConcat([g], Packed(rest), wide);
      MeaningConcat(PathOnWire(now, wide), PathOnWire(rest, wide));
      MeaningConcat(PathOnWire([g], wide), PathOnWire(Packed(rest), wide));
    }
  }

  /** A segment, or two AS_SEQUENCEs and the one that joins them. */
  lemma JoinedMeans(g: Segment, p: Path, wide: bool)
    requires || p == [g]
             || (|p| == 2 && g.kind == p[0].kind == p[1].kind == Sequence && g.asns == p[0].asns + p[1].asns)
    ensures Meaning(PathOnWire([g], wide)) == Meaning(PathOnWire(p, wide))
  {
    if p != [g] {
      var a, b := p[0], p[1];
      assert p == [a] + [b];
      OneOnWire(a, wide);
      OneOnWire(b, wide);
      OneOnWire(g, wide);
      hide Meaning, PathOnWire, SegmentHops;
      PathOnWireConcat([a], [b], wide);
      MeaningConcat(PathOnWire([a], wide), PathOnWire([b], wide));
      OnWireConcat(a.asns, b.asns, wide);
      HopsConcat(AllOnWire(a.asns, wide), AllOnWire(b.asns, wide));
    }
  }

  lemma OneOnWire(g: Segment, wide: bool)
    ensures Meaning(PathOnWire([g], wide)) == SegmentHops(Segment(g.kind, AllOnWire(g.asns, wide)))
  {
    assert [g][1..] == [];
    OneMeans(Segment(g.kind, AllOnWire(g.asns, wide)));
  }

  /** Overlength AS_SEQUENCEs are cut, neighbouring ones may be packed in pairs,
      and all are joined again; large ASNs come back as AS_TRANS from the 2-byte
      form. */
  lemma WireRoundTrip(p: Path, wide: bool)
    requires NoEmptySegments(p) && ShortOthers(p) && PacksOne(p)
    ensures Parse(Put(p, wide), wide) == Some(Normalised(PathOnWire(p, wide)))
  {
    var q := Packed(p);
    PutPacks(p, wide);
    PackedShape(p);
    PackedMeans(p, wide);
    ParsePacked(p, q, wide);
    SplitAllMeans(q, wide);
    SplitAllNonEmpty(q);
    OnWireNonEmpty(p, wide);
    OnWireNonEmpty(SplitAll(q), wide);
    hide PutAll, Put, Parse, SplitAll, PathOnWire, Meaning, Normalised;
    Canonical(PathOnWire(SplitAll(q), wide), PathOnWire(p, wide));
  }

  lemma ParsePacked(p: Path, q: Path, wide: bool)
    requires NoEmptySegments(p) && NoEmptySegments(q) && PutAll(p, wide) == Wire(SplitAll(q), wide)
    ensures Parse(Put(p, wide), wide) == Some(Normalised(PathOnWire(SplitAll(q), wide)))
  {
    ParseWire(SplitAll(q), wide);
    WireEven(SplitAll(q), wide);
    SplitAllNonEmpty(q);
    hide PutAll, SplitAll, Wire, PathOnWire, Normalised, ParseSegments;
    if p == [] { assert PutAll(p, wide) == Put(p, wide) == []; }
  }

  /** A path without neighbouring AS_SEQUENCEs packs nothing. */
  lemma {:induction false} NoNeighboursPacks(p: Path)
    requires NoNeighbours(p)
    ensures PacksOne(p)
    decreases |p|
  {
    if p != [] {
      assert |p| > 1 ==> !Packable(p[1 - 1], p[1]);
      forall i | 0 < i < |p[1..]| ensures !Packable(p[1..][i - 1], p[1..][i]) {
        assert !Packable(p[i + 1 - 1], p[i + 1]);
      }
      assert PackedCount(p[0], p[1..]) == 0 && p[1..][0..] == p[1..];
      NoNeighboursPacks(p[1..]);
    }
  }

  // ---- Exactly which normalised paths come back ----

  lemma {:induction false} WideIsExact(p: Path)
    ensures PathOnWire(p, true) == p
  {
    if p != [] {
      WideIsExact(p[1..]);
      WideAsns(p[0].asns);
      assert p == [p[0]] + p[1..];
    }
  }

  lemma {:induction false} WideAsns(a: seq<Asn>)
    ensures AllOnWire(a, true) == a
  {
    if a != [] {
      WideAsns(a[1..]);
      assert a == [a[0]] + a[1..];
    }
  }

  /** The number of segments that are not AS_SEQUENCEs. */
  function Others(p: Path): nat {
    if p == [] then 0 else (if p[0].kind == Sequence then 0 else 1) + Others(p[1..])
  }

  lemma {:induction false} OthersConcat(p: Path, q: Path)
    ensures Others(p + q) == Others(p) + Others(q)
  {
    if p == [] {
      assert p + q == q;
    } else {
      assert (p + q)[1..] == p[1..] + q;
      OthersConcat(p[1..], q);
    }
  }

  lemma {:induction false} NormalisedOthers(p: Path)
    ensures Others(Normalised(p)) == Others(p)
    decreases |p|
  {
    if p == [] {
    } else if |p| > 1 && Packable(p[0], p[1]) {
      var q := [Segment(Sequence, p[0].asns + p[1].asns)] + p[2..];
      NormalisedOthers(q);
      assert q[1..] == p[2..] && p[1..][1..] == p[2..];
    } else {
      NormalisedOthers(p[1..]);
      assert Normalised(p)[1..] == Normalised(p[1..]);
    }
  }

  lemma {:induction false} SplitOthers(g: Segment)
    ensures Others(Split(g)) >= if g.kind == Sequence then 0 else 1
    ensures g.kind != Sequence && |g.asns| > SEGMENT_MAX ==> Others(Split(g)) > 1
    decreases |g.asns|
  {
    if |g.asns| > SEGMENT_MAX {
      SplitOthers(Segment(g.kind, g.asns[SEGMENT_MAX..]));
      assert Split(g)[1..] == Split(Segment(g.kind, g.asns[SEGMENT_MAX..]));
    }
  }

  lemma {:induction false} SplitAllOthers(p: Path)
    ensures Others(SplitAll(p)) >= Others(p) && (!ShortOthers(p) ==> Others(SplitAll(p)) > Others(p))
  {
    if p != [] {
      SplitOthers(p[0]);
      SplitAllOthers(p[1..]);
      OthersConcat(Split(p[0]), SplitAll(p[1..]));
      assert forall i :: 0 < i < |p| ==> p[i] == p[1..][i - 1];
    }
  }

  /** A normalised path comes back from the 4-byte wire form exactly when no
      segment is empty and none but AS_SEQUENCEs holds more than 255 ASNs. */
  lemma RoundTripExactly(p: Path)
    requires IsNormal(p)
    ensures Parse(Put(p, true), true) == Some(p) <==> NoEmptySegments(p) && ShortOthers(p)
  {
    WideIsExact(p);
    WideIsExact(SplitAll(p));
    SettledIsFixed(p);
    assert NoNeighbours(p);
    if p != [] && p[0].asns == [] {
      assert Parse([], true) == Some([]);
    } else if NoEmptySegments(p) && ShortOthers(p) {
      NoNeighboursPacks(p);
      WireRoundTrip(p, true);
    } else {
      ParsePut(p, true);
      NormalisedOthers(SplitAll(p));
      SplitAllOthers(p);
    }
  }

  // ---- A header that counts wrong ----

  function ThreeSequences(): Path { [Segment(Sequence, [7, 1]), Segment(Sequence, [2]), Segment(Sequence, [3])] }

  function ThreeBytes(): seq<Byte> { [2, 3, 0, 0, 0, 7, 0, 0, 0, 1, 0, 0, 0, 2, 0, 0, 0, 3] }

  lemma ThreeJoined()
    ensures [7, 1] + Joined(ThreeSequences()[1..]) == [7, 1, 2, 3]
  {
    var rest := ThreeSequences()[1..];
    assert rest[1..][1..] == [] && Joined([]) == [];
    assert Joined(rest[1..]) == [3] && Joined(rest) == [2, 3];
  }

  lemma LastTwo()
    ensures Data([2, 3], true) == [0, 0, 0, 2, 0, 0, 0, 3]
  {
    hide Data;
    assert [2, 3][1..] == [3] && [3][1..] == [];
    FirstByte(3, [3], []);
    FirstByte(2, [2, 3], [0, 0, 0, 3]);
  }

  lemma ThreeData()
    ensures Data([7, 1] + Joined(ThreeSequences()[1..]), true) == ThreeBytes()[2..]
  {
    ThreeJoined();
    LastTwo();
    hide Joined, Data, ThreeSequences;
    assert [7, 1, 2, 3][1..] == [1, 2, 3] && [1, 2, 3][1..] == [2, 3];
    FirstByte(1, [1, 2, 3], [0, 0, 0, 2, 0, 0, 0, 3]);
    FirstByte(7, [7, 1, 2, 3], [0, 0, 0, 1] + [0, 0, 0, 2, 0, 0, 0, 3]);
  }

  /** A small ASN takes three zero bytes and one that holds it. */
  lemma FirstByte(x: Byte, asns: seq<Asn>, rest: seq<Byte>)
    requires asns != [] && asns[0] == x && (if asns[1..] == [] then rest == [] else Data(asns[1..], true) == rest)
    ensures Data(asns, true) == [0, 0, 0, x] + rest
  {
  }

  lemma ThreePacked()
    ensures var p := ThreeSequences(); PackedCount(p[0], p[1..]) == 2
  {
    var p := ThreeSequences();
    assert p[1..][1..][1..] == [];
    assert PackedCount(p[0], p[1..][1..]) == 1;
  }

  lemma ThreePut()
    ensures Put(ThreeSequences(), true) == ThreeBytes()
  {
    var p := ThreeSequences();
    ThreePacked();
    ThreeHeader();
    hide Data, Joined, PackedCount, PackedBytes, ThreeBytes;
    assert Split(p[0]) == [p[0]] && [p[0]][..0] == [] && Wire([], true) == [];
    assert p[1..][..2] == p[1..] && p[1..][2..] == [] && PutAll([], true) == [];
    assert [] + ThreeBytes() + [] == ThreeBytes();
  }

  lemma ThreeHeader()
    ensures PackedBytes(ThreeSequences()[0], ThreeSequences()[1..], true) == ThreeBytes()
  {
    ThreeData();
    hide Data, Joined;
  }

  /** Three neighbouring AS_SEQUENCEs with four ASNs: the patched header counts
      three and the peer rejects the attribute. */
  lemma PackingLosesCount()
    ensures Parse(Put(ThreeSequences(), true), true) == None
  {
    hide Put, ReadAsns;
    ThreePut();
    var b := ThreeBytes();
    assert ParseSegments([0, 0, 0, 3], true) == None;
    assert |b| == 18 && b[0] == 2 && b[1] == 3 && b[14..] == [0, 0, 0, 3];
    hide ThreeBytes, ThreeSequences;
    assert ParseSegments(b, true) == None;
  }
}

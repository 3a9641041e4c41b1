/** AS paths on the wire (bgpd/bgp_aspath.c, assegments_parse and aspath_put):
    2-byte or 4-byte ASNs, at most 255 of them under one segment header. */
module AsPathWire {
  import opened Options
  import opened Bytes
  import opened AsPath

  const AS_TRANS: Asn := 23456

  function Code(k: Kind): Byte {
    match k
    case Set => 1
    case Sequence => 2
    case ConfedSequence => 3
    case ConfedSet => 4
  }

  function KindOf(b: Byte): Option<Kind> {
    if b == 1 then Some(Set) else if b == 2 then Some(Sequence)
    else if b == 3 then Some(ConfedSequence) else if b == 4 then Some(ConfedSet) else None
  }

  function Width(wide: bool): nat { if wide then 4 else 2 }

  /** What an ASN becomes: a 2-byte field holds AS_TRANS for a large one. */
  function OnWire(x: Asn, wide: bool): Asn { if wide || x <= 65535 then x else AS_TRANS }

  function PutAsn(x: Asn, wide: bool): (b: seq<Byte>)
    ensures |b| == Width(wide)
  {
    var y := OnWire(x, wide);
    if wide then Short(y / 0x1_0000) + Short(y % 0x1_0000) else Short(y)
  }

  function GetAsn(b: seq<Byte>, wide: bool): Asn
    requires |b| >= Width(wide)
  {
    if wide then Word(b[0], b[1]) * 0x1_0000 + Word(b[2], b[3]) else Word(b[0], b[1])
  }

  lemma GetPut(x: Asn, wide: bool, rest: seq<Byte>)
    ensures GetAsn(PutAsn(x, wide) + rest, wide) == OnWire(x, wide)
  {
    var y := OnWire(x, wide);
    var b := PutAsn(x, wide) + rest;
    if wide {
      WordOfShort(y / 0x1_0000);
      WordOfShort(y % 0x1_0000);
      assert b[..2] == Short(y / 0x1_0000) && b[2..4] == Short(y % 0x1_0000);
    } else {
      WordOfShort(y);
      assert b[..2] == Short(y);
    }
  }

  /** assegment_data_put */
  function Data(asns: seq<Asn>, wide: bool): (b: seq<Byte>)
    ensures |b| == |asns| * Width(wide)
  {
    if asns == [] then [] else PutAsn(asns[0], wide) + Data(asns[1..], wide)
  }

  function ReadAsns(b: seq<Byte>, n: nat, wide: bool): (asns: seq<Asn>)
    requires |b| >= n * Width(wide)
    ensures |asns| == n
  {
    if n == 0 then [] else [GetAsn(b, wide)] + ReadAsns(b[Width(wide)..], n - 1, wide)
  }

  function AllOnWire(asns: seq<Asn>, wide: bool): (r: seq<Asn>)
    ensures |r| == |asns|
  {
    if asns == [] then [] else [OnWire(asns[0], wide)] + AllOnWire(asns[1..], wide)
  }

  lemma Peel(a: seq<Byte>, b: seq<Byte>, c: seq<Byte>)
    ensures a + b + c == a + (b + c) && (a + b + c)[|a|..] == b + c
  {
  }

  lemma {:induction false} ReadData(asns: seq<Asn>, wide: bool, rest: seq<Byte>)
    ensures ReadAsns(Data(asns, wide) + rest, |asns|, wide) == AllOnWire(asns, wide)
  {
    if asns != [] {
      hide GetAsn, PutAsn, OnWire;
      var b := Data(asns, wide) + rest;
      var more := Data(asns[1..], wide) + rest;
      Peel(PutAsn(asns[0], wide), Data(asns[1..], wide), rest);
      GetPut(asns[0], wide, more);
      ReadData(asns[1..], wide, rest);
    }
  }

  // ---- Parsing ----

  /** The loop of assegments_parse over the bytes that are left. */
  function ParseSegments(b: seq<Byte>, wide: bool): Option<Path>
    decreases |b|
  {
    if b == [] then Some([])
    else if |b| <= 2 then None
    else
      var n := b[1];
      var size := 2 + n * Width(wide);
      if size > |b| || n == 0 || KindOf(b[0]).None? then None
      else
        match ParseSegments(b[size..], wide)
        case None => None
        case Some(p) => Some([Segment(KindOf(b[0]).value, ReadAsns(b[2..], n, wide))] + p)
  }

  /** assegments_parse on an attribute of the given bytes. */
  function Parse(b: seq<Byte>, wide: bool): Option<Path> {
    if |b| % 2 != 0 then None
    else
      match ParseSegments(b, wide)
      case None => None
      case Some(p) => Some(Normalised(p))
  }

  // ---- Printing ----

  /** An overlength segment is cut after every 255 ASNs. */
  function Split(g: Segment): (p: Path)
    ensures p != [] && Fits(p)
    decreases |g.asns|
  {
    if |g.asns| > SEGMENT_MAX
    then [Segment(g.kind, g.asns[..SEGMENT_MAX])] + Split(Segment(g.kind, g.asns[SEGMENT_MAX..]))
    else [g]
  }

  predicate Fits(p: Path) { forall i :: 0 <= i < |p| ==> |p[i].asns| <= SEGMENT_MAX }

  function SplitAll(p: Path): (q: Path)
    ensures Fits(q)
  {
    if p == [] then [] else Split(p[0]) + SplitAll(p[1..])
  }

  function SegmentBytes(g: Segment, wide: bool): (b: seq<Byte>)
    requires |g.asns| <= SEGMENT_MAX
  {
    [Code(g.kind), |g.asns|] + Data(g.asns, wide)
  }

  /** Segments that fit, one after the other. */
  function Wire(p: Path, wide: bool): (b: seq<Byte>)
    requires Fits(p)
  {
    if p == [] then [] else SegmentBytes(p[0], wide) + Wire(p[1..], wide)
  }

  lemma {:induction false} WireConcat(p: Path, q: Path, wide: bool)
    requires Fits(p) && Fits(q)
    ensures Fits(p + q) && Wire(p + q, wide) == Wire(p, wide) + Wire(q, wide)
  {
    if p == [] {
      assert p + q == q;
    } else {
      assert (p + q)[1..] == p[1..] + q;
      WireConcat(p[1..], q, wide);
      assert SegmentBytes(p[0], wide) + (Wire(p[1..], wide) + Wire(q, wide)) ==
             SegmentBytes(p[0], wide) + Wire(p[1..], wide) + Wire(q, wide);
    }
  }

  function PathOnWire(p: Path, wide: bool): (q: Path)
    ensures |q| == |p|
  {
    if p == [] then [] else [Segment(p[0].kind, AllOnWire(p[0].asns, wide))] + PathOnWire(p[1..], wide)
  }

  lemma ParseOne(g: Segment, wide: bool, rest: seq<Byte>)
    requires |g.asns| <= SEGMENT_MAX
    ensures var b := SegmentBytes(g, wide) + rest;
            ParseSegments(b, wide) ==
            if g.asns == [] then None
            else match ParseSegments(rest, wide)
                 case None => None
                 case Some(p) => Some([Segment(g.kind, AllOnWire(g.asns, wide))] + p)
  {
    var n := |g.asns|;
    var b := SegmentBytes(g, wide) + rest;
    var data := Data(g.asns, wide);
    assert b[0] == Code(g.kind) && b[1] == n && KindOf(b[0]) == Some(g.kind);
    assert b[2..] == data + rest && b[2 + |data|..] == rest;
    hide ReadAsns, Data;
    ReadData(g.asns, wide, rest);
  }

  /** Parsing what was written gives the segments back, or fails on an empty one. */
  lemma {:induction false} ParseWire(p: Path, wide: bool)
    requires Fits(p)
    ensures ParseSegments(Wire(p, wide), wide) == if NoEmptySegments(p) then Some(PathOnWire(p, wide)) else None
  {
    if p != [] {
      ParseWire(p[1..], wide);
      NonEmptyConcat([p[0]], p[1..]);
      assert p == [p[0]] + p[1..];
      hide ParseSegments, SegmentBytes, AllOnWire, NoEmptySegments;
      OneNonEmpty(p[0]);
      ParseOne(p[0], wide, Wire(p[1..], wide));
    }
  }

  lemma OneNonEmpty(g: Segment)
    ensures NoEmptySegments([g]) <==> g.asns != []
  {
    assert [g][0] == g;
  }

  lemma SegmentEven(g: Segment, wide: bool)
    requires |g.asns| <= SEGMENT_MAX
    ensures |SegmentBytes(g, wide)| % 2 == 0
  {
    var n := |g.asns|;
    assert |SegmentBytes(g, wide)| == 2 * (1 + n * if wide then 2 else 1);
  }

  lemma {:induction false} WireEven(p: Path, wide: bool)
    requires Fits(p)
    ensures |Wire(p, wide)| % 2 == 0
  {
    if p != [] {
      WireEven(p[1..], wide);
      SegmentEven(p[0], wide);
      hide SegmentBytes;
    }
  }

  // ---- aspath_put ----

  /** ASSEGMENTS_PACKABLE */
  predicate Fitting(a: Segment, b: Segment) { Packable(a, b) && |a.asns| + |b.asns| <= SEGMENT_MAX }

  /** How many of the following segments are written under seg's header. */
  function PackedCount(seg: Segment, rest: Path): (k: nat)
    ensures k <= |rest| && forall i :: 0 <= i < k ==> Fitting(seg, rest[i])
  {
    if rest != [] && Fitting(seg, rest[0]) then 1 + PackedCount(seg, rest[1..]) else 0
  }

  function Joined(p: Path): seq<Asn> {
    if p == [] then [] else p[0].asns + Joined(p[1..])
  }

  /** The patched header counts the ASNs of the last segment that was packed, not
      of all of them. */
  function HeaderCount(seg: Segment, packed: Path): (n: nat) {
    |seg.asns| + if packed == [] then 0 else |packed[|packed| - 1].asns|
  }

  /** The last header of a segment, with the segments packed under it. */
  function PackedBytes(seg: Segment, packed: Path, wide: bool): (b: seq<Byte>)
    requires |seg.asns| <= SEGMENT_MAX && forall i :: 0 <= i < |packed| ==> |seg.asns| + |packed[i].asns| <= SEGMENT_MAX
  {
    [Code(seg.kind), HeaderCount(seg, packed)] + Data(seg.asns + Joined(packed), wide)
  }

  lemma LastPart(g: Segment)
    ensures var q := Split(g); q[|q| - 1].kind == g.kind && |q[|q| - 1].asns| <= |g.asns|
    decreases |g.asns|
  {
    if |g.asns| > SEGMENT_MAX { LastPart(Segment(g.kind, g.asns[SEGMENT_MAX..])); }
  }

  /** The loop of aspath_put. */
  function PutAll(p: Path, wide: bool): (b: seq<Byte>)
    decreases |p|
  {
    if p == [] then []
    else
      var parts := Split(p[0]);
      var n := |parts| - 1;
      var k := PackedCount(p[0], p[1..]);
      LastPart(p[0]);
      Wire(parts[..n], wide) + PackedBytes(parts[n], p[1..][..k], wide) + PutAll(p[1..][k..], wide)
  }

  /** aspath_put into a stream with enough room. */
  function Put(p: Path, wide: bool): (b: seq<Byte>) {
    if p == [] || p[0].asns == [] then [] else PutAll(p, wide)
  }

  predicate NoNeighbours(p: Path) { forall i :: 0 < i < |p| ==> !Packable(p[i - 1], p[i]) }

  /** Without neighbouring AS_SEQUENCE segments nothing is packed. */
  lemma {:induction false} PutAllWire(p: Path, wide: bool)
    requires NoNeighbours(p)
    ensures PutAll(p, wide) == Wire(SplitAll(p), wide)
    decreases |p|
  {
    if p != [] {
      var parts := Split(p[0]);
      var n := |parts| - 1;
      assert |p| > 1 ==> !Packable(p[1 - 1], p[1]);
      assert PackedCount(p[0], p[1..]) == 0;
      forall i | 0 < i < |p[1..]| ensures !Packable(p[1..][i - 1], p[1..][i]) {
        assert !Packable(p[i + 1 - 1], p[i + 1]);
      }
      assert p[1..][..0] == [] && p[1..][0..] == p[1..];
      PutAllWire(p[1..], wide);
      PutFirst(parts, wide);
      WireConcat(parts, SplitAll(p[1..]), wide);
    }
  }

  lemma PutFirst(parts: Path, wide: bool)
    requires parts != [] && Fits(parts)
    ensures var n := |parts| - 1;
            Wire(parts[..n], wide) + PackedBytes(parts[n], [], wide) == Wire(parts, wide)
  {
    var n := |parts| - 1;
    assert parts == parts[..n] + [parts[n]];
    WireConcat(parts[..n], [parts[n]], wide);
    assert parts[n].asns + [] == parts[n].asns;
    assert [parts[n]][1..] == [];
    assert SegmentBytes(parts[n], wide) + [] == SegmentBytes(parts[n], wide);
  }

  // ---- Round trip ----

  /** Segments that are not AS_SEQUENCEs are short enough not to be cut. */
  predicate ShortOthers(p: Path) {
    forall i :: 0 <= i < |p| && p[i].kind != Sequence ==> |p[i].asns| <= SEGMENT_MAX
  }

  lemma {:induction false} SplitNonEmpty(g: Segment)
    ensures NoEmptySegments(Split(g)) <==> g.asns != []
    decreases |g.asns|
  {
    if |g.asns| > SEGMENT_MAX {
      var rest := Split(Segment(g.kind, g.asns[SEGMENT_MAX..]));
      SplitNonEmpty(Segment(g.kind, g.asns[SEGMENT_MAX..]));
      NonEmptyConcat([Split(g)[0]], rest);
      OneNonEmpty(Split(g)[0]);
    } else {
      OneNonEmpty(g);
    }
  }

  lemma {:induction false} SplitAllNonEmpty(p: Path)
    ensures NoEmptySegments(SplitAll(p)) <==> NoEmptySegments(p)
  {
    if p != [] {
      SplitNonEmpty(p[0]);
      SplitAllNonEmpty(p[1..]);
      NonEmptyConcat(Split(p[0]), SplitAll(p[1..]));
      NonEmptyConcat([p[0]], p[1..]);
      OneNonEmpty(p[0]);
      assert p == [p[0]] + p[1..];
    }
  }

  lemma NonEmptyConcat(p: Path, q: Path)
    ensures NoEmptySegments(p + q) <==> NoEmptySegments(p) && NoEmptySegments(q)
  {
    if NoEmptySegments(p + q) {
      forall i | 0 <= i < |p| ensures p[i].asns != [] { assert (p + q)[i] == p[i]; }
      forall i | 0 <= i < |q| ensures q[i].asns != [] { assert (p + q)[|p| + i] == q[i]; }
    }
  }

  /** What comes back from the wire, for any path that is not packed. */
  lemma ParsePut(p: Path, wide: bool)
    requires NoNeighbours(p) && (p != [] ==> p[0].asns != [])
    ensures Parse(Put(p, wide), wide) ==
            if NoEmptySegments(p) then Some(Normalised(PathOnWire(SplitAll(p), wide))) else None
  {
    PutAllWire(p, wide);
    ParseWire(SplitAll(p), wide);
    WireEven(SplitAll(p), wide);
    SplitAllNonEmpty(p);
  }
}

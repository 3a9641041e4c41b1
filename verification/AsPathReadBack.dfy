/** What is read of a path whose packed header counts too few ASNs, and so exactly
    when the path exported from a confederation is read as it was meant. */
module AsPathReadBack {
  import opened Options
  import opened Bytes
  import opened AsPath
  import opened AsPathWire
  import opened AsPathRoundTrip
  import opened AsPathExport

  /** The first segment that is read, and what is read behind it. */
  lemma ReadFirst(b: seq<Byte>, wide: bool)
    requires b != [] && ParseSegments(b, wide).Some?
    ensures |b| > 2 && 2 + b[1] * Width(wide) <= |b|
    ensures var p, rest := ParseSegments(b, wide).value, b[2 + b[1] * Width(wide)..];
            p != [] && |p[0].asns| == b[1] > 0 && ParseSegments(rest, wide) == Some(p[1..])
  {
    hide ReadAsns;
  }

  lemma SizeGrows(segments: nat, asns: nat, more: nat, w: nat)
    ensures 2 * (1 + segments) + (more + asns) * w == 2 + more * w + (2 * segments + asns * w)
  {
    assert (more + asns) * w == more * w + asns * w;
  }

  /** Whatever is read, its bytes are two per segment and one field per ASN. */
  lemma {:induction false} ReadSize(b: seq<Byte>, wide: bool)
    ensures var r := ParseSegments(b, wide);
            r.Some? ==> NoEmptySegments(r.value) && 2 * |r.value| + |Joined(r.value)| * Width(wide) == |b|
    decreases |b|
  {
    if b != [] && ParseSegments(b, wide).Some? {
      hide ParseSegments, NoEmptySegments, Width;
      ReadFirst(b, wide);
      var p, size := ParseSegments(b, wide).value, 2 + b[1] * Width(wide);
      var g, rest := p[0], p[1..];
      ReadSize(b[size..], wide);
      SizeGrows(|rest|, |Joined(rest)|, |g.asns|, Width(wide));
      assert p == [g] + rest;
      NonEmptyConcat([g], rest);
      OneNonEmpty(g);
    }
  }

  /** A segment counts for no more hops than it has ASNs. */
  lemma {:induction false} HopsOfAsns(p: Path)
    requires NoEmptySegments(p)
    ensures CountHops(p) <= |Joined(p)|
    ensures AllSequences(p) ==> CountHops(p) == |Joined(p)|
  {
    if p != [] {
      assert forall i :: 0 <= i < |p[1..]| ==> p[1..][i] == p[i + 1];
      HopsOfAsns(p[1..]);
      assert p[0].asns != [];
    }
  }

  predicate AllSequences(p: Path) { forall i :: 0 <= i < |p| ==> p[i].kind == Sequence }

  /** AS_SEQUENCEs that fit together are all packed under the first one. */
  lemma {:induction false} AllPacked(seg: Segment, rest: Path)
    requires seg.kind == Sequence && AllSequences(rest) && |seg.asns| + |Joined(rest)| <= SEGMENT_MAX
    ensures PackedCount(seg, rest) == |rest|
  {
    if rest != [] { AllPacked(seg, rest[1..]); }
  }

  /** Then one header is written, and its count is what HeaderCount says. */
  lemma OneHeader(q: Path, wide: bool)
    requires q != [] && AllSequences(q) && NoEmptySegments(q) && |Joined(q)| <= SEGMENT_MAX
    ensures HeaderCount(q[0], q[1..]) <= SEGMENT_MAX
    ensures Put(q, wide) == [2, HeaderCount(q[0], q[1..])] + Data(Joined(q), wide)
    ensures HeadersRight(q) <==> HeaderCount(q[0], q[1..]) == |Joined(q)|
  {
    var rest := q[1..];
    assert q[0].asns != [] && AllSequences(rest);
    AllPacked(q[0], rest);
    assert rest[..|rest|] == rest && rest[|rest|..] == [];
    assert Split(q[0]) == [q[0]] && [q[0]][..0] == [];
    assert HeadersRight([]) && PutAll([], wide) == [] && Wire([], wide) == [];
    LastFits(q[0], rest);
    hide Data, Joined;
    assert [] + PackedBytes(q[0], rest, wide) + [] == PackedBytes(q[0], rest, wide);
  }

  lemma LastFits(seg: Segment, rest: Path)
    requires |seg.asns| + |Joined(rest)| <= SEGMENT_MAX
    ensures |seg.asns| <= SEGMENT_MAX && forall i :: 0 <= i < |rest| ==> |seg.asns| + |rest[i].asns| <= SEGMENT_MAX
  {
    forall i | 0 <= i < |rest| ensures |rest[i].asns| <= |Joined(rest)| { PartOfJoined(rest, i); }
  }

  lemma {:induction false} PartOfJoined(p: Path, i: nat)
    requires i < |p|
    ensures |p[i].asns| <= |Joined(p)|
  {
    if i > 0 { PartOfJoined(p[1..], i - 1); }
  }

  /** Bytes left after the first segment make another one. */
  lemma ReadsTwo(b: seq<Byte>, wide: bool)
    requires |b| >= 2 && |b| > 2 + b[1] * Width(wide)
    ensures var r := ParseSegments(b, wide); r.Some? ==> |r.value| >= 2
  {
    hide ReadAsns;
    var size := 2 + b[1] * Width(wide);
    assert b[size..] != [];
    assert ParseSegments(b[size..], wide) != Some([]);
  }

  lemma Below(a: nat, b: nat, w: nat)
    requires w > 0
    ensures a < b <==> a * w < b * w
  {
    if a < b { assert (b - a) * w > 0; } else { assert (a - b) * w >= 0; }
  }

  /** A header that counts too few leaves bytes for another one, so that fewer
      ASNs are read than were written. */
  lemma Undercounts(b: seq<Byte>, n: Byte, asns: seq<Asn>, wide: bool)
    requires b == [2, n] + Data(asns, wide) && n < |asns|
    ensures var r := ParseSegments(b, wide); r.Some? ==> |Joined(r.value)| < |asns|
  {
    hide ParseSegments, Joined, Data, NoEmptySegments;
    var w := Width(wide);
    assert b[1] == n && |b| == 2 + |asns| * w;
    Below(n, |asns|, w);
    ReadsTwo(b, wide);
    ReadSize(b, wide);
    var r := ParseSegments(b, wide);
    if r.Some? { Below(|Joined(r.value)|, |asns|, w); }
  }

  lemma {:induction false} OnWireJoined(p: Path, wide: bool)
    ensures |Joined(PathOnWire(p, wide))| == |Joined(p)| && (AllSequences(p) ==> AllSequences(PathOnWire(p, wide)))
  {
    if p != [] {
      OnWireJoined(p[1..], wide);
      assert PathOnWire(p, wide)[1..] == PathOnWire(p[1..], wide);
    }
  }

  /** What is read of one header that counts wrong is not what was written. */
  lemma WrongIsRead(q: Path, wide: bool)
    requires AllSequences(q) && NoEmptySegments(q) && |Joined(q)| <= SEGMENT_MAX && !HeadersRight(q)
    ensures Parse(Put(q, wide), wide) != Some(Normalised(PathOnWire(q, wide)))
  {
    OneHeader(q, wide);
    var n := HeaderCount(q[0], q[1..]);
    assert n < |Joined(q)| by { CountedAtMost(q); }
    var r := ParseSegments(Put(q, wide), wide);
    Undercounts(Put(q, wide), n, Joined(q), wide);
    ReadSize(Put(q, wide), wide);
    OnWireJoined(q, wide);
    OnWireNonEmpty(q, wide);
    HopsOfAsns(PathOnWire(q, wide));
    NormalisedKeeps(PathOnWire(q, wide));
    if r.Some? {
      HopsOfAsns(r.value);
      NormalisedKeeps(r.value);
      hide Put, PathOnWire, Normalised, ParseSegments, HeadersRight, Joined;
    }
  }

  lemma CountedAtMost(q: Path)
    requires q != []
    ensures HeaderCount(q[0], q[1..]) <= |Joined(q)|
  {
    var rest := q[1..];
    if rest != [] { PartOfJoined(rest, |rest| - 1); }
  }

  lemma {:induction false} ExportedSequences(p: Path, own: seq<Asn>)
    requires NoEmptySegments(p) && AllSequences(DeleteConfed(p))
    ensures AllSequences(Exported(p, own)) && |Joined(Exported(p, own))| == |own| + |Joined(DeleteConfed(p))|
    decreases |own|
  {
    if own != [] {
      var q := Exported(p, own[1..]);
      ExportedSequences(p, own[1..]);
      ExportedMeans(p, own[1..]);
      AddSeqJoined(q, own[0]);
    }
  }

  lemma AddSeqJoined(q: Path, x: Asn)
    requires AllSequences(q) && NoEmptySegments(q)
    ensures AllSequences(AddSeq(q, x)) && |Joined(AddSeq(q, x))| == 1 + |Joined(q)|
  {
    assert AddSeq(q, x)[1..] == if q == [] then [] else q[1..];
  }

  /** Where one header covers the exported path, AS_SEQUENCEs only and at most 255
      ASNs: the peer reads it, in either width, exactly when no three of them stood
      with only confederation segments in between. */
  lemma ExportedReadExactly(p: Path, own: seq<Asn>, wide: bool)
    requires NoEmptySegments(p) && AllSequences(DeleteConfed(p)) && |own| + |Joined(DeleteConfed(p))| <= SEGMENT_MAX
    ensures Parse(Put(Exported(p, own), wide), wide) == Some(Normalised(PathOnWire(Exported(p, own), wide)))
            <==> ShortRuns(p, 0)
  {
    var q := Exported(p, own);
    ShortExportedExactly(p, own);
    ExportedSequences(p, own);
    ExportedMeans(p, own);
    HeadersRightExactly(q);
    hide Exported, Meaning, Parse, Put, PathOnWire, Normalised, Joined;
    if HeadersRight(q) { WireRoundTrip(q, wide); } else { WrongIsRead(q, wide); }
  }
}

/** The loops of assegments_parse and aspath_put over a stream of bytes. */
module AsPathStream {
  import opened Options
  import opened Bytes
  import opened AsPath
  import opened AsPathEdit
  import opened AsPathWire

  function After(done: Path, left: Option<Path>): Option<Path> {
    match left
    case None => None
    case Some(p) => Some(done + p)
  }

  lemma AfterNothing(left: Option<Path>)
    ensures After([], left) == left
  {
    if left.Some? { assert [] + left.value == left.value; }
  }

  lemma AfterMore(done: Path, g: Segment, left: Option<Path>)
    ensures After(done + [g], left) == After(done, After([g], left))
  {
    if left.Some? { assert done + [g] + left.value == done + ([g] + left.value); }
  }

  /** assegments_parse: `length` bytes of the readable bytes s. */
  method AssegmentsParse(s: seq<Byte>, length: nat, wide: bool) returns (r: Option<Path>)
    ensures r == if length == 0 then Some([]) else if |s| < length then None else Parse(s[..length], wide)
  {
    if length == 0 {
      return Some([]);
    }
    if |s| < length || |s| < 2 || length % 2 != 0 {
      return None;
    }
    var rest := s[..length];
    var segs: Path := [];
    AfterNothing(ParseSegments(rest, wide));
    while rest != []
      invariant ParseSegments(s[..length], wide) == After(segs, ParseSegments(rest, wide))
      decreases |rest|
    {
      if |rest| <= 2 {
        return None;
      }
      var n := rest[1];
      var size := 2 + n * Width(wide);
      if size > |rest| || n == 0 || KindOf(rest[0]).None? {
        return None;
      }
      hide ReadAsns;
      var g := Segment(KindOf(rest[0]).value, ReadAsns(rest[2..], n, wide));
      AfterMore(segs, g, ParseSegments(rest[size..], wide));
      segs := segs + [g];
      rest := rest[size..];
    }
    assert segs + [] == segs;
    var normal := Normalise(segs);
    return Some(normal);
  }

  // ---- aspath_put ----

  /** Writes the overlength part of a segment; `last` is what is left. */
  method PutFull(seg: Segment, wide: bool) returns (out: seq<Byte>, bytes: nat, last: Segment)
    ensures var q := Split(seg); out == Wire(q[..|q| - 1], wide) && last == q[|q| - 1]
    ensures bytes == |out|
  {
    out, bytes, last := [], 0, seg;
    ghost var done: Path := [];
    while |last.asns| > SEGMENT_MAX
      invariant Fits(done) && Split(seg) == done + Split(last) && out == Wire(done, wide) && bytes == |out|
      decreases |last.asns|
    {
      hide Wire, Data;
      var g, more := Segment(last.kind, last.asns[..SEGMENT_MAX]), Segment(last.kind, last.asns[SEGMENT_MAX..]);
      OneMoreSegment(done, g, wide);
      AfterMore(done, g, Some(Split(more)));
      out := out + SegmentBytes(g, wide);
      bytes := bytes + 2 + SEGMENT_MAX * Width(wide);
      last := more;
      done := done + [g];
    }
    assert Split(seg)[..|done|] == done;
  }

  lemma OneMoreSegment(done: Path, g: Segment, wide: bool)
    requires Fits(done) && |g.asns| <= SEGMENT_MAX
    ensures Fits(done + [g]) && Wire(done + [g], wide) == Wire(done, wide) + SegmentBytes(g, wide)
  {
    WireConcat(done, [g], wide);
    assert [g][1..] == [];
    assert SegmentBytes(g, wide) + [] == SegmentBytes(g, wide);
  }

  lemma {:induction false} DataConcat(a: seq<Asn>, b: seq<Asn>, wide: bool)
    ensures Data(a + b, wide) == Data(a, wide) + Data(b, wide)
  {
    if a == [] {
      assert a + b == b;
    } else {
      assert (a + b)[1..] == a[1..] + b;
      DataConcat(a[1..], b, wide);
      assert PutAsn(a[0], wide) + (Data(a[1..], wide) + Data(b, wide)) ==
             PutAsn(a[0], wide) + Data(a[1..], wide) + Data(b, wide);
    }
  }

  lemma {:induction false} JoinedSnoc(p: Path, g: Segment)
    ensures Joined(p + [g]) == Joined(p) + g.asns
  {
    if p == [] {
      assert p + [g] == [g] && [g][1..] == [];
    } else {
      assert (p + [g])[1..] == p[1..] + [g];
      JoinedSnoc(p[1..], g);
    }
  }

  lemma {:induction false} PackedPrefix(seg: Segment, rest: Path, k: nat)
    requires k <= |rest| && (forall i :: 0 <= i < k ==> Fitting(seg, rest[i])) && (k < |rest| ==> !Fitting(seg, rest[k]))
    ensures PackedCount(seg, rest) == k
  {
    if k > 0 {
      assert forall i :: 0 <= i < k - 1 ==> rest[1..][i] == rest[i + 1];
      PackedPrefix(seg, rest[1..], k - 1);
    }
  }

  /** One more segment under a header: its data follows, the count is patched. */
  lemma PackOne(last: Segment, packed: Path, g: Segment, wide: bool)
    requires |last.asns| <= SEGMENT_MAX && |last.asns| + |g.asns| <= SEGMENT_MAX
    requires forall i :: 0 <= i < |packed| ==> |last.asns| + |packed[i].asns| <= SEGMENT_MAX
    ensures (PackedBytes(last, packed, wide) + Data(g.asns, wide))[1 := |last.asns| + |g.asns|] ==
            PackedBytes(last, packed + [g], wide)
  {
    hide Data, Joined;
    JoinedSnoc(packed, g);
    var data := last.asns + Joined(packed);
    DataConcat(data, g.asns, wide);
    JoinAsns(last.asns, Joined(packed), g.asns);
    var count := |last.asns| + if packed == [] then 0 else |packed[|packed| - 1].asns|;
    Patch(Code(last.kind), count, Data(data, wide), Data(g.asns, wide), |last.asns| + |g.asns|);
  }

  lemma JoinAsns(a: seq<Asn>, b: seq<Asn>, c: seq<Asn>)
    ensures a + (b + c) == a + b + c
  {
  }

  lemma Patch(kind: Byte, count: Byte, a: seq<Byte>, b: seq<Byte>, x: Byte)
    ensures ([kind, count] + a + b)[1 := x] == [kind, x] + (a + b)
  {
  }

  lemma NothingPacked(last: Segment, wide: bool)
    requires |last.asns| <= SEGMENT_MAX
    ensures PackedBytes(last, [], wide) == SegmentBytes(last, wide) && Joined([]) == []
  {
    assert last.asns + [] == last.asns;
  }

  lemma PackedSize(last: Segment, packed: Path, wide: bool)
    requires |last.asns| <= SEGMENT_MAX
    requires forall i :: 0 <= i < |packed| ==> |last.asns| + |packed[i].asns| <= SEGMENT_MAX
    ensures |PackedBytes(last, packed, wide)| == 2 + (|last.asns| + |Joined(packed)|) * Width(wide)
  {
  }

  /** The last header of a segment and what is packed under it. */
  method PutPacked(seg: Segment, last: Segment, rest: Path, wide: bool)
    returns (out: seq<Byte>, bytes: nat, left: Path)
    requires last.kind == seg.kind && |last.asns| <= |seg.asns| && |last.asns| <= SEGMENT_MAX
    ensures var k := PackedCount(seg, rest);
            out == PackedBytes(last, rest[..k], wide) && left == rest[k..]
    ensures bytes == |out|
  {
    hide Data, Joined, PackedBytes, PackedCount, SegmentBytes;
    out := SegmentBytes(last, wide);
    var packed, k := 0, 0;
    NothingPacked(last, wide);
    assert rest[..0] == [];
    while k < |rest| && Fitting(seg, rest[k])
      invariant k <= |rest| && forall i :: 0 <= i < k ==> Fitting(seg, rest[i])
      invariant out == PackedBytes(last, rest[..k], wide) && packed == |Joined(rest[..k])|
    {
      PackOne(last, rest[..k], rest[k], wide);
      JoinedSnoc(rest[..k], rest[k]);
      assert rest[..k] + [rest[k]] == rest[..k + 1];
      HeaderThere(last, rest[..k], wide);
      out := out + Data(rest[k].asns, wide);
      out := out[1 := |last.asns| + |rest[k].asns|];
      packed := packed + |rest[k].asns|;
      k := k + 1;
    }
    PackedPrefix(seg, rest, k);
    PackedSize(last, rest[..k], wide);
    bytes := 2 + (|last.asns| + packed) * Width(wide);
    left := rest[k..];
  }

  lemma HeaderThere(last: Segment, packed: Path, wide: bool)
    requires |last.asns| <= SEGMENT_MAX
    requires forall i :: 0 <= i < |packed| ==> |last.asns| + |packed[i].asns| <= SEGMENT_MAX
    ensures |PackedBytes(last, packed, wide)| >= 2
  {
  }

  lemma Associate(a: seq<Byte>, b: seq<Byte>, c: seq<Byte>)
    ensures a + (b + c) == a + b + c
  {
  }

  /** One turn of aspath_put. */
  method PutSegment(p: Path, wide: bool) returns (out: seq<Byte>, bytes: nat, left: Path)
    requires p != []
    ensures PutAll(p, wide) == out + PutAll(left, wide) && bytes == |out| && |left| < |p|
  {
    PutFirstSegment(p, wide);
    LastPart(p[0]);
    hide Wire, PackedBytes, Split, PackedCount, PutAll;
    var head, n, last := PutFull(p[0], wide);
    var tail, m;
    tail, m, left := PutPacked(p[0], last, p[1..], wide);
    out, bytes := head + tail, n + m;
  }

  lemma PutFirstSegment(p: Path, wide: bool)
    requires p != []
    ensures var q, k := Split(p[0]), PackedCount(p[0], p[1..]);
            && |q[|q| - 1].asns| <= |p[0].asns|
            && PutAll(p, wide) == Wire(q[..|q| - 1], wide) + PackedBytes(q[|q| - 1], p[1..][..k], wide) + PutAll(p[1..][k..], wide)
  {
    LastPart(p[0]);
  }

  /** aspath_put: the bytes written and their number. */
  method AspathPut(p: Path, wide: bool) returns (out: seq<Byte>, bytes: nat)
    ensures out == Put(p, wide) && bytes == |out|
  {
    if p == [] || p[0].asns == [] {
      return [], 0;
    }
    out, bytes := [], 0;
    var segs := p;
    assert [] + PutAll(p, wide) == PutAll(p, wide);
    while segs != []
      invariant PutAll(p, wide) == out + PutAll(segs, wide) && bytes == |out|
      decreases |segs|
    {
      hide PutAll, Put;
      var more, n, left := PutSegment(segs, wide);
      Associate(out, more, PutAll(left, wide));
      out, bytes := out + more, bytes + n;
      segs := left;
    }
    assert PutAll([], wide) == [] && out + [] == out;
  }
}

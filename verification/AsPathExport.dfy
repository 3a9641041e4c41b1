/** Sending an AS path out of a confederation (bgpd/bgp_attr.c and
    aspath_delete_confed_seq, aspath_add_seq of bgpd/bgp_aspath.c): confederation
    segments are removed and the own ASNs put in front, without normalising. */
module AsPathExport {
  import opened Options
  import opened AsPath
  import opened AsPathWire
  import opened AsPathRoundTrip

  function DeleteConfed(p: Path): (q: Path)
    ensures ConfedFree(q)
  {
    if p == [] then [] else if IsConfed(p[0].kind) then DeleteConfed(p[1..]) else [p[0]] + DeleteConfed(p[1..])
  }

  /** One turn of the walk at position i. */
  lemma DeleteTurn(q: Path, i: nat)
    requires i < |q|
    ensures IsConfed(q[i].kind) ==>
              var r := q[..i] + q[i + 1..]; r[..i] + DeleteConfed(r[i..]) == q[..i] + DeleteConfed(q[i..])
    ensures !IsConfed(q[i].kind) ==> q[..i + 1] + DeleteConfed(q[i + 1..]) == q[..i] + DeleteConfed(q[i..])
  {
    var g := q[i];
    assert q[i..][0] == g && q[i..][1..] == q[i + 1..];
    if IsConfed(g.kind) {
      var r := q[..i] + q[i + 1..];
      assert r[..i] == q[..i] && r[i..] == q[i + 1..];
    } else {
      var d := DeleteConfed(q[i + 1..]);
      assert q[..i + 1] == q[..i] + [g];
      assert q[..i] + ([g] + d) == q[..i] + [g] + d;
    }
  }

  /** aspath_delete_confed_seq: one walk that unlinks segments. */
  method DeleteConfedSeq(p: Path) returns (q: Path)
    ensures q == DeleteConfed(p)
  {
    q := p;
    var i := 0;
    assert p[0..] == p && p[..0] == [];
    hide DeleteConfed;
    while i < |q|
      invariant 0 <= i <= |q| && DeleteConfed(p) == q[..i] + DeleteConfed(q[i..])
      decreases |q| - i
    {
      DeleteTurn(q, i);
      if IsConfed(q[i].kind) {
        q := q[..i] + q[i + 1..];
      } else {
        i := i + 1;
      }
    }
    DeleteDone(q);
  }

  lemma DeleteDone(q: Path)
    ensures q[..|q|] + DeleteConfed(q[|q|..]) == q
  {
  }

  /** aspath_add_seq */
  function AddSeq(p: Path, x: Asn): (q: Path) {
    if p != [] && p[0].kind == Sequence then [Segment(Sequence, [x] + p[0].asns)] + p[1..]
    else if p != [] && p[0].asns == [] then [Segment(Sequence, [x])] + p[1..]
    else [Segment(Sequence, [x])] + p
  }

  /** What an eBGP peer is sent: the own ASNs, the last one added first, in front
      of the received path without its confederation segments. */
  function Exported(p: Path, own: seq<Asn>): (q: Path)
    decreases |own|
  {
    if own == [] then DeleteConfed(p) else AddSeq(Exported(p, own[1..]), own[0])
  }

  // ---- What is sent means what was received ----

  ghost function WithoutConfed(h: seq<Hop>): seq<Hop> {
    if h == [] then []
    else if h[0].Confed? || h[0].ConfedOneOf? then WithoutConfed(h[1..])
    else [h[0]] + WithoutConfed(h[1..])
  }

  lemma {:induction false} WithoutConfedConcat(a: seq<Hop>, b: seq<Hop>)
    ensures WithoutConfed(a + b) == WithoutConfed(a) + WithoutConfed(b)
  {
    if a == [] {
      assert a + b == b;
    } else {
      assert (a + b)[1..] == a[1..] + b;
      WithoutConfedConcat(a[1..], b);
    }
  }

  lemma {:induction false} AllPublic(h: seq<Hop>)
    requires forall i :: 0 <= i < |h| ==> h[i].As? || h[i].OneOf?
    ensures WithoutConfed(h) == h
  {
    if h != [] {
      AllPublic(h[1..]);
      assert h == [h[0]] + h[1..];
    }
  }

  lemma SegmentPublic(g: Segment)
    ensures WithoutConfed(SegmentHops(g)) == if IsConfed(g.kind) then [] else SegmentHops(g)
  {
    if !IsConfed(g.kind) {
      AllPublic(SegmentHops(g));
    } else {
      assert SegmentHops(g)[1..] == [];
    }
  }

  lemma {:induction false} DeleteMeans(p: Path)
    ensures Meaning(DeleteConfed(p)) == WithoutConfed(Meaning(p))
  {
    if p != [] {
      DeleteMeans(p[1..]);
      WithoutConfedConcat(SegmentHops(p[0]), Meaning(p[1..]));
      SegmentPublic(p[0]);
      if !IsConfed(p[0].kind) { assert DeleteConfed(p)[1..] == DeleteConfed(p[1..]); }
    }
  }

  lemma AddSeqMeans(p: Path, x: Asn)
    requires NoEmptySegments(p)
    ensures Meaning(AddSeq(p, x)) == [As(x)] + Meaning(p) && NoEmptySegments(AddSeq(p, x))
  {
    var one := Segment(Sequence, [x]);
    assert SegmentHops(one) == [As(x)];
    if p != [] && p[0].kind == Sequence {
      var first := Segment(Sequence, [x] + p[0].asns);
      HopsConcat([x], p[0].asns);
      hide SegmentHops;
      assert ([first] + p[1..])[1..] == p[1..];
      assert Meaning([first] + p[1..]) == SegmentHops(first) + Meaning(p[1..]);
      Reassociate(x, SegmentHops(p[0]), Meaning(p[1..]));
    } else {
      hide SegmentHops;
      assert AddSeq(p, x) == [one] + p;
      assert ([one] + p)[1..] == p;
      assert Meaning([one] + p) == SegmentHops(one) + Meaning(p);
    }
  }

  lemma Reassociate(x: Asn, a: seq<Hop>, b: seq<Hop>)
    ensures [As(x)] + a + b == [As(x)] + (a + b)
  {
  }

  lemma {:induction false} DeleteNonEmpty(p: Path)
    requires NoEmptySegments(p)
    ensures NoEmptySegments(DeleteConfed(p))
  {
    if p != [] {
      assert forall i :: 0 <= i < |p[1..]| ==> p[1..][i] == p[i + 1];
      DeleteNonEmpty(p[1..]);
    }
  }

  /** The exported path has the own ASNs and then the hops of the received one,
      in order, except for confederation segments. */
  lemma {:induction false} ExportedMeans(p: Path, own: seq<Asn>)
    requires NoEmptySegments(p)
    ensures NoEmptySegments(Exported(p, own))
    ensures Meaning(Exported(p, own)) == SegmentHops(Segment(Sequence, own)) + WithoutConfed(Meaning(p))
    decreases |own|
  {
    if own == [] {
      DeleteNonEmpty(p);
      DeleteMeans(p);
      assert SegmentHops(Segment(Sequence, [])) + WithoutConfed(Meaning(p)) == WithoutConfed(Meaning(p));
    } else {
      var x, rest := own[0], own[1..];
      assert own == [x] + rest;
      assert SegmentHops(Segment(Sequence, [x])) == [As(x)];
      hide Meaning, WithoutConfed, SegmentHops, AddSeq, NoEmptySegments;
      ExportedMeans(p, rest);
      AddSeqMeans(Exported(p, rest), x);
      HopsConcat([x], rest);
      Reassociate(x, SegmentHops(Segment(Sequence, rest)), WithoutConfed(Meaning(p)));
    }
  }

  // ---- Exactly which received paths are sent with right headers ----

  /** The header that the next AS_SEQUENCE may be packed under: none yet, with the
      own ASNs waiting; one of a segment of len ASNs with `packed` packed ones; or
      none, after an AS_SET. */
  datatype Header = Start(own: nat) | Open(len: nat, packed: nat) | Closed

  /** A walk over the received path: confederation segments do not separate
      AS_SEQUENCEs, and no header may take two further ones. */
  predicate CountsRight(p: Path, h: Header) {
    if p == [] then true
    else
      var g, rest := p[0], p[1..];
      if IsConfed(g.kind) then CountsRight(rest, h)
      else if g.kind == Set then CountsRight(rest, Closed)
      else
        match h
        case Start(own) => CountsRight(rest, Open(|g.asns| + own, 0))
        case Closed => CountsRight(rest, Open(|g.asns|, 0))
        case Open(len, packed) =>
          if len + |g.asns| <= SEGMENT_MAX then packed == 0 && CountsRight(rest, Open(len, 1))
          else CountsRight(rest, Open(|g.asns|, 0))
  }

  lemma {:induction false} DeleteCounts(p: Path, h: Header)
    ensures CountsRight(DeleteConfed(p), h) <==> CountsRight(p, h)
  {
    if p != [] {
      var g, rest := p[0], p[1..];
      if IsConfed(g.kind) {
        DeleteCounts(rest, h);
      } else {
        assert DeleteConfed(p)[0] == g && DeleteConfed(p)[1..] == DeleteConfed(rest);
        DeleteCounts(rest, Closed);
        DeleteCounts(rest, Open(|g.asns|, 0));
        if h.Start? { DeleteCounts(rest, Open(|g.asns| + h.own, 0)); }
        if h.Open? { DeleteCounts(rest, Open(h.len, 1)); }
      }
    }
  }

  lemma ConfedFreeTail(p: Path)
    requires ConfedFree(p) && p != []
    ensures ConfedFree(p[1..])
  {
  }

  /** A header of segment seg that has taken j segments already. */
  lemma {:induction false} OpenPacks(seg: Segment, rest: Path, j: nat)
    requires seg.kind == Sequence && ConfedFree(rest) && j <= 1
    ensures var k := PackedCount(seg, rest);
            CountsRight(rest, Open(|seg.asns|, j)) <==> j + k <= 1 && PacksOne(rest[k..])
    decreases |rest|, 1
  {
    hide PacksOne;
    NextPacks(seg, rest, j);
    if rest != [] && Fitting(seg, rest[0]) {
      ConfedFreeTail(rest);
      hide CountsRight, PackedCount;
      if j == 0 { OpenPacks(seg, rest[1..], 1); }
    } else {
      hide CountsRight, PackedCount;
      ClosedPacks(rest);
    }
  }

  /** The next segment is packed, or a header is closed. */
  lemma NextPacks(seg: Segment, rest: Path, j: nat)
    requires seg.kind == Sequence && ConfedFree(rest) && j <= 1
    ensures if rest != [] && Fitting(seg, rest[0])
            then && PackedCount(seg, rest) == 1 + PackedCount(seg, rest[1..])
                 && rest[PackedCount(seg, rest)..] == rest[1..][PackedCount(seg, rest[1..])..]
                 && (CountsRight(rest, Open(|seg.asns|, j)) <==> j == 0 && CountsRight(rest[1..], Open(|seg.asns|, 1)))
            else && PackedCount(seg, rest) == 0 && rest[0..] == rest
                 && (CountsRight(rest, Open(|seg.asns|, j)) <==> CountsRight(rest, Closed))
  {
  }

  lemma {:induction false} ClosedPacks(p: Path)
    requires ConfedFree(p)
    ensures CountsRight(p, Closed) <==> PacksOne(p)
    decreases |p|, 0
  {
    if p != [] {
      ConfedFreeTail(p);
      if p[0].kind == Sequence {
        OpenPacks(p[0], p[1..], 0);
      } else {
        assert PackedCount(p[0], p[1..]) == 0 && p[1..][0..] == p[1..];
        ClosedPacks(p[1..]);
      }
    }
  }

  lemma {:induction false} StartIsClosed(p: Path)
    ensures CountsRight(p, Start(0)) <==> CountsRight(p, Closed)
  {
    if p != [] && IsConfed(p[0].kind) { StartIsClosed(p[1..]); }
  }

  lemma AddSeqCounts(p: Path, x: Asn, n: nat)
    requires ConfedFree(p) && NoEmptySegments(p)
    ensures ConfedFree(AddSeq(p, x)) && (CountsRight(AddSeq(p, x), Start(n)) <==> CountsRight(p, Start(n + 1)))
  {
    var one := Segment(Sequence, [x]);
    var q := AddSeq(p, x);
    if p != [] && p[0].kind == Sequence {
      assert q[1..] == p[1..] && |q[0].asns| + n == |p[0].asns| + (n + 1);
    } else {
      assert q == [one] + p && q[1..] == p;
    }
  }

  lemma {:induction false} ExportedCounts(p: Path, own: seq<Asn>, n: nat)
    requires NoEmptySegments(p)
    ensures ConfedFree(Exported(p, own))
    ensures CountsRight(Exported(p, own), Start(n)) <==> CountsRight(p, Start(n + |own|))
    decreases |own|
  {
    if own == [] {
      DeleteCounts(p, Start(n));
    } else {
      ExportedCounts(p, own[1..], n + 1);
      ExportedMeans(p, own[1..]);
      AddSeqCounts(Exported(p, own[1..]), own[0], n);
    }
  }

  /** Every header of the exported path counts right exactly when, in the received
      path, no AS_SEQUENCE is followed by two that fit with it, confederation
      segments between them not counting. */
  lemma ExportedHeadersExactly(p: Path, own: seq<Asn>)
    requires NoEmptySegments(p)
    ensures HeadersRight(Exported(p, own)) <==> CountsRight(p, Start(|own|))
  {
    ExportedMeans(p, own);
    ExportedCounts(p, own, 0);
    StartIsClosed(Exported(p, own));
    ClosedPacks(Exported(p, own));
    HeadersRightExactly(Exported(p, own));
  }

  lemma AddSeqShort(p: Path, x: Asn)
    requires ShortOthers(p)
    ensures ShortOthers(AddSeq(p, x))
  {
  }

  lemma {:induction false} ExportedShort(p: Path, own: seq<Asn>)
    requires ShortOthers(p)
    ensures ShortOthers(Exported(p, own))
    decreases |own|
  {
    if own == [] {
      DeleteShort(p);
    } else {
      ExportedShort(p, own[1..]);
      AddSeqShort(Exported(p, own[1..]), own[0]);
    }
  }

  lemma {:induction false} DeleteShort(p: Path)
    requires ShortOthers(p)
    ensures ShortOthers(DeleteConfed(p))
  {
    if p != [] {
      assert forall i :: 0 <= i < |p[1..]| ==> p[1..][i] == p[i + 1];
      DeleteShort(p[1..]);
    }
  }

  /** Then the peer reads the exported path, in either width. */
  lemma ExportedRoundTrip(p: Path, own: seq<Asn>, wide: bool)
    requires NoEmptySegments(p) && ShortOthers(p) && CountsRight(p, Start(|own|))
    ensures Parse(Put(Exported(p, own), wide), wide) == Some(Normalised(PathOnWire(Exported(p, own), wide)))
  {
    ExportedMeans(p, own);
    ExportedHeadersExactly(p, own);
    HeadersRightExactly(Exported(p, own));
    ExportedShort(p, own);
    hide Exported, Meaning;
    WireRoundTrip(Exported(p, own), wide);
  }

  // ---- Short paths ----

  /** No more than two AS_SEQUENCEs with only confederation segments in between. */
  predicate ShortRuns(p: Path, run: nat) {
    if p == [] then true
    else if IsConfed(p[0].kind) then ShortRuns(p[1..], run)
    else if p[0].kind == Set then ShortRuns(p[1..], 0)
    else run < 2 && ShortRuns(p[1..], run + 1)
  }

  function RunOf(h: Header): nat { if h.Open? then h.packed + 1 else 0 }

  function Held(h: Header): nat {
    match h case Start(own) => own case Open(len, _) => len case Closed => 0
  }

  lemma {:induction false} RunsCount(p: Path, h: Header)
    requires Held(h) + |Joined(DeleteConfed(p))| <= SEGMENT_MAX && (h.Open? ==> h.packed <= 1)
    ensures CountsRight(p, h) <==> ShortRuns(p, RunOf(h))
  {
    if p != [] {
      var g, rest := p[0], p[1..];
      if !IsConfed(g.kind) { assert DeleteConfed(p)[0] == g && DeleteConfed(p)[1..] == DeleteConfed(rest); }
      if IsConfed(g.kind) {
        RunsCount(rest, h);
      } else if g.kind == Set {
        RunsCount(rest, Closed);
      } else if h.Open? {
        if h.packed == 0 { RunsCount(rest, Open(h.len, 1)); }
      } else {
        RunsCount(rest, Open(Held(h) + |g.asns|, 0));
      }
    }
  }

  /** A path of at most 255 ASNs, confederations not counted, is exported with
      right headers exactly when it has no three AS_SEQUENCEs separated by
      confederation segments only. */
  lemma ShortExportedExactly(p: Path, own: seq<Asn>)
    requires NoEmptySegments(p) && |own| + |Joined(DeleteConfed(p))| <= SEGMENT_MAX
    ensures HeadersRight(Exported(p, own)) <==> ShortRuns(p, 0)
  {
    ExportedHeadersExactly(p, own);
    RunsCount(p, Start(|own|));
  }

  // ---- A received path whose export is rejected ----

  /** A path that a peer of the same confederation may send: it starts with a
      confederation segment. */
  function Received(): Path {
    [Segment(ConfedSequence, [9]), Segment(Sequence, [1]), Segment(ConfedSequence, [8]), Segment(Sequence, [2]),
     Segment(ConfedSequence, [6]), Segment(Sequence, [3])]
  }

  lemma Tails()
    ensures var p := Received();
            && p[1..] == [p[1]] + p[2..] && p[1..][1..] == p[2..] && p[2..][1..] == p[3..] && p[3..][1..] == p[4..]
            && p[4..][1..] == p[5..] && p[5..][1..] == [] && p[5..] == [p[5]]
            && p[2..][0] == p[2] && p[3..][0] == p[3] && p[4..][0] == p[4]
  {
  }

  lemma ReceivedExports()
    ensures Exported(Received(), [7]) == ThreeSequences()
  {
    var p := Received();
    Tails();
    assert DeleteConfed(p[5..]) == [p[5]] + DeleteConfed([]);
    assert DeleteConfed(p[3..]) == [p[3]] + DeleteConfed(p[4..]);
    assert DeleteConfed(p) == [p[1]] + DeleteConfed(p[2..]);
    assert DeleteConfed(p) == [p[1], p[3], p[5]];
    assert [7][1..] == [] && Exported(p, []) == DeleteConfed(p);
    assert [7] + [1] == [7, 1];
  }

  lemma ReceivedNormal()
    ensures IsNormal(Received()) && NoEmptySegments(Received())
  {
  }

  lemma ReceivedRuns()
    ensures !ShortRuns(Received(), 0)
  {
    var p := Received();
    Tails();
    assert !ShortRuns(p[5..], 2);
    assert !ShortRuns(p[3..], 1);
  }

  /** The normalised path is sent to an eBGP peer in a form that the peer rejects. */
  lemma ExportRejected()
    ensures IsNormal(Received()) && NoEmptySegments(Received()) && IsConfed(Received()[0].kind)
    ensures !ShortRuns(Received(), 0) && Parse(Put(Exported(Received(), [7]), true), true) == None
  {
    hide Parse, Put, Exported, IsNormal, NoEmptySegments, ShortRuns;
    ReceivedNormal();
    ReceivedRuns();
    ReceivedExports();
    PackingLosesCount();
  }
}

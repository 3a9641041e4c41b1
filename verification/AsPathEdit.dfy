/** assegment_normalise as it edits the segment list in place. */
module AsPathEdit {
  import opened AsPath

  method CopyInto(a: array<Asn>, s: seq<Asn>)
    requires |s| == a.Length
    modifies a
    ensures a[..] == s
  {
    forall i | 0 <= i < a.Length {
      a[i] := s[i];
    }
  }

  /** qsort on the ASNs of a segment. */
  method QSort(a: array<Asn>)
    modifies a
    ensures a[..] == Sort(old(a[..]))
  {
    hide Ordered, Sort;
    CopyInto(a, Sort(a[..]));
  }

  lemma DedupStep(s: seq<Asn>, i: nat)
    requires 1 <= i < |s|
    ensures var r := Dedup(s[..i]);
            r != [] && Dedup(s[..i + 1]) == if r[|r| - 1] == s[i] then r else r + [s[i]]
  {
    assert s[..i + 1][..i] == s[..i];
  }

  /** The loop that weeds out duplicates: the kept ASNs move to the front. */
  method WeedDupes(a: array<Asn>) returns (length: nat)
    modifies a
    ensures length <= a.Length && a[..length] == Dedup(old(a[..]))
  {
    if a.Length == 0 {
      return 0;
    }
    ghost var was := a[..];
    var tail, i := 0, 1;
    assert was[..1] == a[..1];
    while i < a.Length
      invariant tail < i <= a.Length
      invariant a[..tail + 1] == Dedup(was[..i])
      invariant forall k :: i <= k < a.Length ==> a[k] == was[k]
    {
      hide Dedup;
      DedupStep(was, i);
      assert a[tail] == a[..tail + 1][tail];
      if a[tail] != a[i] {
        tail := tail + 1;
        if tail < i {
          a[tail] := a[i];
        }
      }
      i := i + 1;
    }
    assert was[..i] == was;
    return tail + 1;
  }

  method CleanSegment(g: Segment) returns (r: Segment)
    ensures r == Clean(g)
  {
    if !SetKind(g.kind) {
      return g;
    }
    var a := new Asn[|g.asns|](i requires 0 <= i < |g.asns| => g.asns[i]);
    assert a[..] == g.asns;
    QSort(a);
    var n := WeedDupes(a);
    return Segment(g.kind, a[..n]);
  }

  lemma CleanFirst(g: Segment, rest: Path)
    ensures Normalised([Clean(g)] + rest) == Normalised([g] + rest)
  {
    if SetKind(g.kind) {
      CleanMeans(g);
      CleanFixed(Clean(g));
      assert ([Clean(g)] + rest)[1..] == rest && ([g] + rest)[1..] == rest;
    }
  }

  /** Reads ahead from a pinned segment and appends what can be joined to it. */
  method JoinFollowing(pinned: Segment, rest: Path) returns (g: Segment, left: Path)
    requires Clean(pinned) == pinned
    ensures Normalised([pinned] + rest) == [g] + Normalised(left) && |left| <= |rest|
  {
    g, left := pinned, rest;
    while left != [] && Packable(g, left[0])
      invariant |left| <= |rest| && Clean(g) == g && Normalised([pinned] + rest) == Normalised([g] + left)
      decreases |left|
    {
      ghost var t := [g] + left;
      assert t[0] == g && t[1] == left[0] && t[2..] == left[1..];
      g := Segment(Sequence, g.asns + left[0].asns);
      left := left[1..];
    }
    ghost var t := [g] + left;
    assert t[0] == g && t[1..] == left && (left != [] ==> t[1] == left[0]);
  }

  /** assegment_normalise */
  method Normalise(p: Path) returns (segs: Path)
    ensures segs == Normalised(p)
  {
    segs := [];
    var rest := p;
    while rest != []
      invariant Normalised(p) == segs + Normalised(rest)
      decreases |rest|
    {
      var pin := CleanSegment(rest[0]);
      CleanFirst(rest[0], rest[1..]);
      assert rest == [rest[0]] + rest[1..];
      CleanTwice(rest[0]);
      hide Normalised, Clean;
      var left;
      pin, left := JoinFollowing(pin, rest[1..]);
      assert segs + ([pin] + Normalised(left)) == segs + [pin] + Normalised(left);
      segs := segs + [pin];
      rest := left;
    }
  }

  lemma CleanTwice(g: Segment)
    ensures Clean(Clean(g)) == Clean(g)
  {
    CleanMeans(g);
    CleanFixed(Clean(g));
  }
}

/** aspath_aggregate as a loop, and the reference-counted table of paths behind
    an aggregate route. */
module AsPathAggregator {
  import opened AsPath
  import opened AsPathEdit
  import opened AsPathAggregate

  /** The comparison loop over two segments. */
  method FindMatch(a: seq<Asn>, b: seq<Asn>) returns (m: nat)
    ensures m == Match(a, b)
  {
    m := 0;
    while m < |a| && m < |b| && a[m] == b[m]
      invariant m <= |a| && m <= |b| && forall i :: 0 <= i < m ==> a[i] == b[i]
    {
      m := m + 1;
    }
    MatchUnique(a, b, m);
  }

  lemma {:induction false} MatchUnique(a: seq<Asn>, b: seq<Asn>, m: nat)
    requires m <= |a| && m <= |b| && (forall i :: 0 <= i < m ==> a[i] == b[i])
    requires m < |a| && m < |b| ==> a[m] != b[m]
    ensures Match(a, b) == m
  {
    if m > 0 {
      assert forall i :: 0 <= i < m - 1 ==> a[1..][i] == b[1..][i];
      MatchUnique(a[1..], b[1..], m - 1);
    }
  }

  function Prefixed(common: Path, l: Lead): Lead { l.(common := common + l.common) }

  lemma PrefixedMore(common: Path, seg: Path, l: Lead)
    ensures Prefixed(common, l.(common := seg + l.common)) == Prefixed(common + seg, l)
  {
    assert common + (seg + l.common) == common + seg + l.common;
  }

  /** The first loop of aspath_aggregate. */
  method FindLeading(p: Path, q: Path) returns (common: Path, left1: Path, left2: Path, match_: nat)
    ensures Lead(common, left1, left2, match_) == Leading(p, q)
  {
    common, left1, left2, match_ := [], p, q, 0;
    assert [] + Leading(p, q).common == Leading(p, q).common;
    while left1 != [] && left2 != []
      invariant match_ == 0 && Leading(p, q) == Prefixed(common, Leading(left1, left2))
      decreases |left1|
    {
      if left1[0].kind != left2[0].kind {
        break;
      }
      var m := FindMatch(left1[0].asns, left2[0].asns);
      hide Match;
      var seg: Path := if m > 0 then [Segment(left1[0].kind, left1[0].asns[..m])] else [];
      if m != |left1[0].asns| || |left1[0].asns| != |left2[0].asns| {
        common, match_ := common + seg, m;
        return;
      }
      PrefixedMore(common, seg, Leading(left1[1..], left2[1..]));
      common := common + seg;
      left1, left2 := left1[1..], left2[1..];
    }
    assert common + [] == common;
  }

  /** The inner loop that turns one segment into set members. */
  method AddSegment(p: Path, g: Segment, from: nat) returns (r: Path)
    requires from <= |g.asns|
    ensures r == AddAll(p, g.asns[from..], SetFor(g.kind))
  {
    r := p;
    var i := from;
    while i < |g.asns|
      invariant i <= |g.asns| && AddAll(p, g.asns[from..], SetFor(g.kind)) == AddAll(r, g.asns[i..], SetFor(g.kind))
    {
      assert g.asns[i..][0] == g.asns[i] && g.asns[i..][1..] == g.asns[i + 1..];
      r := AddRightmost(r, g.asns[i], SetFor(g.kind));
      i := i + 1;
    }
    assert g.asns[i..] == [];
  }

  method AddLeft(p: Path, segs: Path, start: nat) returns (r: Path)
    requires segs != [] ==> start <= |segs[0].asns|
    ensures r == AddRest(p, segs, start)
  {
    r := p;
    var left := segs;
    var from: nat := start;
    while left != []
      invariant (left != [] ==> from <= |left[0].asns|) && AddRest(p, segs, start) == AddRest(r, left, from)
      decreases |left|
    {
      hide AddAll;
      r := AddSegment(r, left[0], from);
      left, from := left[1..], 0;
    }
  }

  /** aspath_aggregate */
  method AspathAggregate(p: Path, q: Path) returns (r: Path)
    ensures r == Aggregate(p, q)
  {
    var common, left1, left2, from := FindLeading(p, q);
    r := AddLeft(common, left1, from);
    r := AddLeft(r, left2, from);
    r := Normalise(r);
  }

  // ---- The table behind an aggregate route ----

  /** The ASNs of all paths in a table. */
  ghost function Union(paths: set<Path>): set<Asn> {
    set p, x | p in paths && x in Asns(p) :: x
  }

  /** A path's reference count. */
  function Refs(t: map<Path, nat>, p: Path): nat { if p in t then t[p] else 0 }

  class BgpAggregate {
    /** aspath_hash with refcnt */
    var paths: map<Path, nat>
    var aspath: Path
    var hasAspath: bool

    ghost predicate Counted()
      reads this
    {
      forall p :: p in paths ==> paths[p] > 0
    }

    /** The aggregate's path is up to date. */
    ghost predicate Current()
      reads this
    {
      (hasAspath <==> paths != map[]) && (hasAspath ==> Asns(aspath) == Union(paths.Keys))
    }

    constructor ()
      ensures Counted() && Current() && paths == map[]
    {
      paths, aspath, hasAspath := map[], [], false;
    }

    /** bgp_compute_aggregate_aspath_hash */
    method AddToHash(p: Path)
      requires Counted()
      modifies this`paths
      ensures Counted() && Refs(paths, p) == Refs(old(paths), p) + 1
      ensures forall q :: q != p ==> Refs(paths, q) == Refs(old(paths), q)
    {
      paths := paths[p := (if p in paths then paths[p] else 0) + 1];
    }

    /** bgp_compute_aggregate_aspath_val: the table is visited in any order. */
    method Recompute()
      modifies this`aspath, this`hasAspath
      ensures Current()
    {
      hasAspath, aspath := false, [];
      var todo := paths.Keys;
      ghost var seen: set<Path> := {};
      while todo != {}
        invariant seen + todo == paths.Keys && seen !! todo
        invariant hasAspath <==> seen != {}
        invariant hasAspath ==> Asns(aspath) == Union(seen)
      {
        var p :| p in todo;
        if hasAspath {
          AggregateUnion(aspath, p);
          aspath := AspathAggregate(aspath, p);
        } else {
          aspath, hasAspath := p, true;
        }
        seen, todo := seen + {p}, todo - {p};
      }
      assert seen == paths.Keys;
    }

    /** bgp_compute_aggregate_aspath */
    method Add(p: Path)
      requires Counted()
      modifies this
      ensures Counted() && Current() && Refs(paths, p) == Refs(old(paths), p) + 1
      ensures forall q :: q != p ==> Refs(paths, q) == Refs(old(paths), q)
    {
      AddToHash(p);
      Recompute();
    }

    /** bgp_remove_aspath_from_aggregate_hash */
    method RemoveFromHash(p: Path)
      requires Counted()
      modifies this`paths
      ensures Counted()
      ensures Refs(paths, p) == (if Refs(old(paths), p) > 0 then Refs(old(paths), p) - 1 else 0)
      ensures forall q :: q != p ==> Refs(paths, q) == Refs(old(paths), q)
    {
      if p in paths {
        if paths[p] == 1 {
          paths := paths - {p};
        } else {
          paths := paths[p := paths[p] - 1];
        }
      }
    }

    /** bgp_remove_aspath_from_aggregate: recomputes only when a path goes. */
    method Remove(p: Path)
      requires Counted() && Current()
      modifies this
      ensures Counted() && Current()
      ensures Refs(paths, p) == (if Refs(old(paths), p) > 0 then Refs(old(paths), p) - 1 else 0)
      ensures forall q :: q != p ==> Refs(paths, q) == Refs(old(paths), q)
    {
      var gone := p in paths && paths[p] == 1;
      RemoveFromHash(p);
      if gone {
        Recompute();
      } else {
        forall q ensures q in paths <==> q in old(paths) {
          assert q in paths <==> Refs(paths, q) > 0;
          assert q in old(paths) <==> Refs(old(paths), q) > 0;
        }
        assert paths.Keys == old(paths).Keys;
      }
    }
  }

  // ---- Whole runs ----

  datatype Change = Added(path: Path) | Removed(path: Path)

  /** The table after a run of additions and removals. */
  function After(run: seq<Change>): (t: map<Path, nat>)
    ensures forall p :: p in t ==> t[p] > 0
  {
    if run == [] then map[]
    else
      var t := After(run[..|run| - 1]);
      match run[|run| - 1]
      case Added(p) => t[p := Refs(t, p) + 1]
      case Removed(p) => if Refs(t, p) <= 1 then t - {p} else t[p := t[p] - 1]
  }

  /** How often a path counts at the end of a run. */
  function Balance(run: seq<Change>, p: Path): nat {
    if run == [] then 0
    else
      var n := Balance(run[..|run| - 1], p);
      var c := run[|run| - 1];
      if c.path != p then n else if c.Added? then n + 1 else if n > 0 then n - 1 else 0
  }

  lemma {:induction false} TableBalances(run: seq<Change>, p: Path)
    ensures Refs(After(run), p) == Balance(run, p) && (p in After(run) <==> Balance(run, p) > 0)
  {
    if run != [] { TableBalances(run[..|run| - 1], p); }
  }

  /** hash_iterate with bgp_aggr_aspath_prepare over the paths in some order. */
  function Folded(order: seq<Path>): (r: Path)
    requires order != []
  {
    if |order| == 1 then order[0]
    else Aggregate(Folded(order[..|order| - 1]), order[|order| - 1])
  }

  lemma {:induction false} FoldedAsns(order: seq<Path>)
    requires order != []
    ensures Asns(Folded(order)) == Union(set p | p in order)
  {
    hide Aggregate, Asns, Union;
    var n := |order| - 1;
    var last := order[n];
    if n == 0 {
      assert (set p | p in order) == {last};
      UnionOne(last);
    } else {
      var pre := order[..n];
      FoldedAsns(pre);
      AggregateUnion(Folded(pre), last);
      SetSnoc(order);
      UnionAdd((set p | p in pre), last);
    }
  }

  lemma SetSnoc(order: seq<Path>)
    requires order != []
    ensures var n := |order| - 1; (set p | p in order) == (set p | p in order[..n]) + {order[n]}
  {
    assert order == order[..|order| - 1] + [order[|order| - 1]];
  }

  lemma UnionOne(p: Path)
    ensures Union({p}) == Asns(p)
  {
  }

  lemma UnionAdd(s: set<Path>, p: Path)
    ensures Union(s + {p}) == Union(s) + Asns(p)
  {
  }

  /** After any run of additions and removals, recomputing the aggregate in any
      order of the table gives the ASNs of the paths that still count. */
  lemma AggregateOfRun(run: seq<Change>, order: seq<Path>, x: Asn)
    requires order != [] && (set p | p in order) == After(run).Keys
    ensures x in Asns(Folded(order)) <==> exists p :: Balance(run, p) > 0 && x in Asns(p)
  {
    FoldedAsns(order);
    hide Folded, After, Balance;
    if x in Asns(Folded(order)) {
      var p :| p in After(run).Keys && x in Asns(p);
      TableBalances(run, p);
    }
    if p :| Balance(run, p) > 0 && x in Asns(p) {
      TableBalances(run, p);
      assert p in After(run).Keys;
    }
  }
}

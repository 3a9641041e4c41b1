/** The array of exported routes (babeld/xroute.c): found by linear search,
    removed by moving the last entry into the gap. */
module Exports {
  import opened BabelTypes

  datatype Export = Export(key: Key, x: Xroute)

  predicate UniqueKeys(xs: seq<Export>) {
    forall i, j :: 0 <= i < j < |xs| ==> xs[i].key != xs[j].key
  }

  function FindExport(xs: seq<Export>, k: Key): (i: nat)
    ensures i <= |xs|
    ensures i < |xs| ==> xs[i].key == k
    ensures forall j :: 0 <= j < i ==> xs[j].key != k
  {
    if xs == [] || xs[0].key == k then 0 else 1 + FindExport(xs[1..], k)
  }

  function ExportsOf(xs: seq<Export>): (m: map<Key, Xroute>)
    ensures forall k :: k in m <==> FindExport(xs, k) < |xs|
    ensures forall k :: k in m ==> m[k] == xs[FindExport(xs, k)].x
  {
    assert forall k :: FindExport(xs, k) < |xs| ==> xs[FindExport(xs, k)] in xs;
    map k | k in (set e | e in xs :: e.key) ::
      assert exists e :: e in xs && e.key == k;
      xs[FindExport(xs, k)].x
  }

  /** flush_xroute on entry i */
  function SwapRemoved(xs: seq<Export>, i: nat): (r: seq<Export>)
    requires i < |xs|
  {
    xs[i := xs[|xs| - 1]][..|xs| - 1]
  }

  lemma Unique(xs: seq<Export>, i: nat)
    requires UniqueKeys(xs) && i < |xs|
    ensures FindExport(xs, xs[i].key) == i
  {
  }

  lemma FindAppended(xs: seq<Export>, e: Export, k: Key)
    ensures FindExport(xs + [e], k) ==
            if FindExport(xs, k) < |xs| then FindExport(xs, k) else if e.key == k then |xs| else |xs| + 1
  {
    if xs != [] { assert (xs + [e])[1..] == xs[1..] + [e]; }
  }

  lemma LookupAppended(xs: seq<Export>, e: Export, q: Key)
    requires FindExport(xs, e.key) == |xs|
    ensures var m, m' := ExportsOf(xs), ExportsOf(xs + [e]);
            && (q in m' <==> q == e.key || q in m)
            && (q in m' ==> m'[q] == if q == e.key then e.x else m[q])
  {
    FindAppended(xs, e, q);
  }

  lemma AppendExport(xs: seq<Export>, k: Key, x: Xroute)
    requires UniqueKeys(xs) && FindExport(xs, k) == |xs|
    ensures UniqueKeys(xs + [Export(k, x)])
    ensures ExportsOf(xs + [Export(k, x)]) == ExportsOf(xs)[k := x]
  {
    var m, m' := ExportsOf(xs), ExportsOf(xs + [Export(k, x)]);
    hide ExportsOf, FindExport;
    forall q ensures (q in m' <==> q == k || q in m) && (q in m' ==> m'[q] == if q == k then x else m[q]) {
      LookupAppended(xs, Export(k, x), q);
    }
  }

  lemma FindByKeys(xs: seq<Export>, ys: seq<Export>, k: Key)
    requires |xs| == |ys| && forall j :: 0 <= j < |xs| ==> xs[j].key == ys[j].key
    ensures FindExport(xs, k) == FindExport(ys, k)
  {
  }

  lemma SetExport(xs: seq<Export>, i: nat, x: Xroute)
    requires UniqueKeys(xs) && i < |xs|
    ensures UniqueKeys(xs[i := Export(xs[i].key, x)])
    ensures ExportsOf(xs[i := Export(xs[i].key, x)]) == ExportsOf(xs)[xs[i].key := x]
  {
    var ys := xs[i := Export(xs[i].key, x)];
    var m, m' := ExportsOf(xs), ExportsOf(ys);
    forall q ensures (q in m' <==> q in m[xs[i].key := x]) && (q in m' ==> m'[q] == m[xs[i].key := x][q]) {
      FindByKeys(xs, ys, q);
      Unique(xs, i);
    }
  }

  /** Swap-removal keeps keys unique and removes exactly one key. */
  lemma SwapRemoves(xs: seq<Export>, i: nat)
    requires UniqueKeys(xs) && i < |xs|
    ensures UniqueKeys(SwapRemoved(xs, i))
    ensures ExportsOf(SwapRemoved(xs, i)) == ExportsOf(xs) - {xs[i].key}
  {
    var ys := SwapRemoved(xs, i);
    var n := |xs| - 1;
    var k := xs[i].key;
    Unique(xs, i);
    forall q ensures q in ExportsOf(ys) <==> q in ExportsOf(xs) - {k}
             ensures q in ExportsOf(ys) ==> ExportsOf(ys)[q] == ExportsOf(xs)[q]
    {
      var a, b := FindExport(xs, q), FindExport(ys, q);
      if a < |xs| && q != k {
        var b' := if a == n then i else a;
        assert ys[b'] == xs[a];
        Unique(ys, b');
      }
      if b < |ys| {
        var a' := if b == i then n else b;
        assert xs[a'] == ys[b];
        Unique(xs, a');
      }
    }
  }
}

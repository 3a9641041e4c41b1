/** Bulk flushing of the route table: each flush may reinstall and reorder the
    routes of the slot being walked, and may shift the array under the walk. */
module BabeldFlush {
  import opened BabelTypes
  import opened BabelNode
  import opened SortedSlots
  import opened BabelFlush
  import opened Babeld

  /** Flushing the route at position j of slot i. */
  method FlushAt(d: Daemon, env: Env, i: nat, j: nat)
    requires d.Valid() && i < |d.slots| && j < |d.slots[i]|
    modifies d`slots, d`srcs
    ensures d.Valid()
    ensures d.State() == FlushRoute(old(d.State()), env, SlotKey(old(d.slots[i])), old(d.slots[i][j].rid))
    ensures Walked(old(d.slots), d.slots, i)
  {
    hide NodeOkHolding, TableOf;
    var k, rid := SlotKey(d.slots[i]), d.slots[i][j].rid;
    ghost var n, was := d.State(), d.slots;
    StoreAt(was, i, []);
    Position(n, k, was[i], j);
    FlushRemoves(n, env, k, rid);
    d.FlushRoute(env, k, rid);
    StoreAt(was, i, SlotOf(d.State(), k));
  }

  /** The walk's view of one flush: earlier slots stay, the slot at i loses one
      route or disappears. */
  ghost predicate Walked(was: seq<seq<Route>>, slots: seq<seq<Route>>, i: nat)
    requires i < |was|
  {
    && |slots| == |was| - (if |was[i]| == 1 then 1 else 0)
    && (forall x :: 0 <= x < i ==> slots[x] == was[x])
    && (|was[i]| > 1 ==> |slots[i]| == |was[i]| - 1)
  }

  lemma Position(n: Node, k: Key, s: seq<Route>, j: nat)
    requires NodeOk(n) && k in n.table && n.table[k] == s && j < |s|
    ensures IndexOf(s, s[j].rid) == j && SlotOf(n, k) == s
  {
    assert SlotOk(k, s);
    IndexUnique(k, s, j);
  }

  predicate NoMatch(s: seq<Route>, p: RouteId -> bool) {
    forall j :: 0 <= j < |s| ==> !p(s[j].rid)
  }

  method FirstMatch(s: seq<Route>, p: RouteId -> bool) returns (j: nat)
    ensures j <= |s| && (j < |s| ==> p(s[j].rid)) && (j == |s| ==> NoMatch(s, p))
  {
    j := 0;
    while j < |s| && !p(s[j].rid)
      invariant j <= |s| && forall i :: 0 <= i < j ==> !p(s[i].rid)
    {
      j := j + 1;
    }
  }

  /** The loop shared by flush_neighbour_routes and flush_interface_routes: it
      ends, and removes exactly the matching routes. */
  method FlushMatching(d: Daemon, env: Env, p: RouteId -> bool)
    requires d.Valid()
    modifies d`slots, d`srcs
    ensures d.Valid()
    ensures forall q :: Flushed(old(d.State()), d.State(), q, p)
  {
    ghost var n := d.State();
    var i := 0;
    while i < |d.slots|
      invariant d.Valid() && i <= |d.slots|
      invariant forall x :: 0 <= x < i ==> NoMatch(d.slots[x], p)
      invariant forall q :: Survivors(n, d.State(), q, p)
      decreases |d.slots| - i, if i < |d.slots| then |d.slots[i]| else 0
    {
      hide NodeOkHolding, TableOf, Survivors;
      var j := FirstMatch(d.slots[i], p);
      if j < |d.slots[i]| {
        FlushStep(d, env, i, j, p, n);
      } else {
        i := i + 1;
      }
    }
    hide NodeOkHolding, TableOf;
    forall q ensures Flushed(n, d.State(), q, p) {
      TableContents(d.slots, q);
      SurvivorsExact(n, d.State(), q, p);
    }
  }

  method FlushStep(d: Daemon, env: Env, i: nat, j: nat, p: RouteId -> bool, ghost n: Node)
    requires d.Valid() && i < |d.slots| && j < |d.slots[i]| && p(d.slots[i][j].rid)
    requires forall q :: Survivors(n, d.State(), q, p)
    modifies d`slots, d`srcs
    ensures d.Valid() && Walked(old(d.slots), d.slots, i)
    ensures forall q :: Survivors(n, d.State(), q, p)
  {
    hide NodeOkHolding, TableOf, Survivors, FlushRoute;
    ghost var n1, k, s := d.State(), SlotKey(d.slots[i]), d.slots[i];
    StoreAt(d.slots, i, []);
    Position(n1, k, s, j);
    FlushAt(d, env, i, j);
    forall q ensures Survivors(n, d.State(), q, p) {
      SurvivorsStep(n, n1, d.State(), env, k, s[j].rid, p, q);
    }
  }

  function ViaNeighbour(neigh: Neigh): RouteId -> bool {
    (rid: RouteId) => rid.neigh == neigh
  }

  /** flush_neighbour_routes */
  method FlushNeighbourRoutes(d: Daemon, env: Env, neigh: Neigh)
    requires d.Valid()
    modifies d`slots, d`srcs
    ensures d.Valid()
    ensures forall q :: Flushed(old(d.State()), d.State(), q, ViaNeighbour(neigh))
  {
    FlushMatching(d, env, ViaNeighbour(neigh));
  }

  predicate V4Mapped(address: nat) { address / 0x1_0000_0000 == 0xffff }

  function ViaInterface(ifp: nat, v4only: bool): RouteId -> bool {
    (rid: RouteId) => rid.neigh.ifp == ifp && (!v4only || V4Mapped(rid.nexthop))
  }

  /** flush_interface_routes */
  method FlushInterfaceRoutes(d: Daemon, env: Env, ifp: nat, v4only: bool)
    requires d.Valid()
    modifies d`slots, d`srcs
    ensures d.Valid()
    ensures forall q :: Flushed(old(d.State()), d.State(), q, ViaInterface(ifp, v4only))
  {
    FlushMatching(d, env, ViaInterface(ifp, v4only));
  }

  /** flush_all_routes empties the table and releases every source. */
  method FlushAllRoutes(d: Daemon, env: Env)
    requires d.Valid()
    modifies d`slots, d`srcs
    ensures d.Valid() && d.slots == [] && d.srcs.Keys == old(d.srcs.Keys)
    ensures forall sk :: sk in d.srcs ==> d.srcs[sk].routeCount == 0
  {
    var i := |d.slots| - 1;
    while i >= 0
      invariant d.Valid() && |d.slots| == i + 1 && d.srcs.Keys == old(d.srcs.Keys)
      decreases i
    {
      while i < |d.slots|
        invariant d.Valid() && i <= |d.slots| <= i + 1 && d.srcs.Keys == old(d.srcs.Keys)
        decreases |d.slots| - i, if i < |d.slots| then |d.slots[i]| else 0
      {
        FlushHead(d, env, i);
      }
      i := i - 1;
    }
    AllReleased(d.State());
  }

  method UninstallHead(d: Daemon, i: nat)
    requires d.Valid() && i < |d.slots|
    modifies d`slots
    ensures d.Valid() && |d.slots| == |old(d.slots)| && |d.slots[i]| == |old(d.slots[i])|
    ensures forall x :: 0 <= x < i ==> d.slots[x] == old(d.slots[x])
  {
    var k := SlotKey(d.slots[i]);
    assert OkExcept(d.State(), k);
    hide TableOf, OkExcept, NodeOkHolding;
    StoreAt(d.slots, i, []);
    if d.slots[i][0].installed {
      d.UninstallRoute(k);
      StoreAt(old(d.slots), i, SlotOf(d.State(), k));
    }
  }

  /** Uninstalls the head of slot i, then flushes it. */
  method FlushHead(d: Daemon, env: Env, i: nat)
    requires d.Valid() && i < |d.slots|
    modifies d`slots, d`srcs
    ensures d.Valid() && Walked(old(d.slots), d.slots, i) && d.srcs.Keys == old(d.srcs.Keys)
  {
    hide NodeOkHolding, TableOf, FlushRoute;
    UninstallHead(d, i);
    FlushKeepsSources(d.State(), env, SlotKey(d.slots[i]), d.slots[i][0].rid);
    FlushAt(d, env, i, 0);
  }
}

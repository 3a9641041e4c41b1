/** retract_neighbour_routes on the sorted array of slots. */
module BabeldRetract {
  import opened Options
  import opened Seqno
  import opened BabelTypes
  import opened BabelNode
  import opened SortedSlots
  import opened BabelRetract
  import opened Babeld

  /** The body of the walk: retract_route, then route_changed. */
  method WithdrawRoute(d: Daemon, env: Env, k: Key, rid: RouteId)
    requires d.Valid()
    modifies d`slots
    ensures d.Valid() && d.State() == Withdraw(old(d.State()), env, k, rid)
  {
    hide NodeOkHolding, TableOf, Sorted, RouteChanged, SetMetric;
    var s, j := d.FindRoute(k, rid);
    if j < |s| && s[j].refmetric < INF {
      d.SetMetric(k, rid, INF, INF, 0, s[j].seqno);
      if Metric(s[j]) < INF {
        d.RouteChanged(env, k, rid, None);
      }
    }
  }

  /** The walk over one slot: after each route it goes on with the next one as the
      list is then. */
  method WalkSlot(d: Daemon, env: Env, k: Key, neigh: Neigh)
    requires d.Valid()
    modifies d`slots
    ensures d.Valid() && d.State() == Walk(old(d.State()), env, k, neigh, 0)
  {
    hide NodeOkHolding, TableOf, Sorted, LiveIds, Walk, Withdraw;
    var p: nat := 0;
    var s := d.GetSlot(k);
    while p < |s|
      invariant d.Valid() && s == SlotOf(d.State(), k)
      invariant Walk(d.State(), env, k, neigh, p) == Walk(old(d.State()), env, k, neigh, 0)
      decreases LiveIds(s, neigh), |s| - p
    {
      var r := s[p];
      if r.rid.neigh == neigh && r.refmetric < INF {
        WalkNext(d.State(), env, k, neigh, p);
        WithdrawRoute(d, env, k, r.rid);
        s, p := d.FindRoute(k, r.rid);
      } else {
        WalkOn(d.State(), env, k, neigh, p);
      }
      p := p + 1;
    }
    WalkOn(d.State(), env, k, neigh, p);
  }

  lemma WalkNext(n: Node, env: Env, k: Key, neigh: Neigh, p: nat)
    requires NodeOk(n) && p < |SlotOf(n, k)| && Live(SlotOf(n, k)[p], neigh)
    ensures var rid := SlotOf(n, k)[p].rid;
            var n1 := Withdraw(n, env, k, rid);
            && NodeOk(n1) && LiveIds(SlotOf(n1, k), neigh) < LiveIds(SlotOf(n, k), neigh)
            && Walk(n, env, k, neigh, p) == Walk(n1, env, k, neigh, IndexOf(SlotOf(n1, k), rid) + 1)
  {
    WithdrawKeeps(n, env, k, SlotOf(n, k)[p].rid);
    hide NodeOkHolding, Withdraw, LiveIds;
    WithdrawList(n, env, k, p, neigh);
  }

  /** The slots before i have been walked, the others are as before. */
  ghost predicate WalkedTo(slots: seq<seq<Route>>, was: seq<seq<Route>>, n: Node, env: Env, neigh: Neigh, i: nat)
    requires NodeOk(n)
  {
    && i <= |slots| == |was|
    && (forall x :: 0 <= x < |was| ==> SlotKey(slots[x]) == SlotKey(was[x]))
    && (forall x :: 0 <= x < i ==> slots[x] == SlotOf(Walk(n, env, SlotKey(was[x]), neigh, 0), SlotKey(was[x])))
    && (forall x :: i <= x < |was| ==> slots[x] == was[x])
  }

  /** retract_neighbour_routes: the walk over every slot. */
  method RetractNeighbourRoutes(d: Daemon, env: Env, neigh: Neigh)
    requires d.Valid()
    modifies d`slots
    ensures d.Valid() && NodeOk(old(d.State()))
    ensures forall k :: SlotOf(d.State(), k) == SlotOf(Walk(old(d.State()), env, k, neigh, 0), k)
    ensures forall k :: NoneLive(SlotOf(d.State(), k), neigh) <==> !Overlooks(old(d.State()), env, k, neigh)
  {
    hide NodeOkHolding, TableOf, Walk, Sorted;
    ghost var n, was := d.State(), d.slots;
    var i := 0;
    while i < |d.slots|
      invariant d.Valid() && WalkedTo(d.slots, was, n, env, neigh, i)
    {
      WalkAt(d, env, i, neigh, n, was);
      i := i + 1;
    }
    forall k
      ensures SlotOf(d.State(), k) == SlotOf(Walk(n, env, k, neigh, 0), k)
      ensures NoneLive(SlotOf(d.State(), k), neigh) <==> !Overlooks(n, env, k, neigh)
    {
      Collected(d.slots, was, n, env, neigh, k);
      WalkExactly(n, env, k, neigh);
    }
  }

  method WalkAt(d: Daemon, env: Env, i: nat, neigh: Neigh, ghost n: Node, ghost was: seq<seq<Route>>)
    requires d.Valid() && i < |d.slots| && NodeOk(n)
    requires Sorted(was) && n.table == TableOf(was) && n.srcs == d.srcs && n.xroutes == d.State().xroutes
    requires WalkedTo(d.slots, was, n, env, neigh, i)
    modifies d`slots
    ensures d.Valid() && WalkedTo(d.slots, was, n, env, neigh, i + 1)
  {
    hide NodeOkHolding, TableOf, Walk, Sorted;
    var k := SlotKey(d.slots[i]);
    ghost var m, slots := d.State(), d.slots;
    WalkSlot(d, env, k, neigh);
    WalkOthers(m, env, k, neigh, 0);
    StoreAt(was, i, []);
    StoreAt(slots, i, []);
    WalkAgrees(n, m, env, k, neigh, 0);
    NonEmpty(slots, i);
    KeyThere(d.State(), k);
    Replaced(slots, i, d.slots, SlotOf(d.State(), k));
  }

  lemma NonEmpty(slots: seq<seq<Route>>, i: nat)
    requires Sorted(slots) && i < |slots|
    ensures slots[i] != []
  {
  }

  lemma KeyThere(n: Node, k: Key)
    requires NodeOk(n)
    ensures SlotOf(n, k) != [] ==> SlotKey(SlotOf(n, k)) == k
  {
    if SlotOf(n, k) != [] { assert SlotOk(k, SlotOf(n, k)); }
  }

  /** The table changed at one destination, so the array did at one position. */
  lemma Replaced(slots: seq<seq<Route>>, i: nat, now: seq<seq<Route>>, t: seq<Route>)
    requires Sorted(slots) && Sorted(now) && i < |slots| && t != [] && SlotKey(t) == SlotKey(slots[i])
    requires var k := SlotKey(t);
             k in TableOf(now) && TableOf(now)[k] == t && TableOf(now) - {k} == TableOf(slots) - {k}
    ensures now == slots[i := t]
  {
    var k := SlotKey(t);
    StoreAt(slots, i, t);
    StoreRefines(slots, k, t);
    hide TableOf, Store, Sorted;
    TablesAgree(TableOf(slots), TableOf(now), k, t);
    TableDecides(now, Store(slots, k, t));
  }

  lemma TablesAgree(a: Table, b: Table, k: Key, t: seq<Route>)
    requires k in b && b[k] == t && b - {k} == a - {k}
    ensures b == a[k := t]
  {
    forall q | q != k ensures (q in a <==> q in b) && (q in a ==> a[q] == b[q]) { Elsewhere(a, b, k, q); }
  }

  /** When every slot has been walked, every destination has. */
  lemma Collected(slots: seq<seq<Route>>, was: seq<seq<Route>>, n: Node, env: Env, neigh: Neigh, k: Key)
    requires Sorted(slots) && Sorted(was) && NodeOk(n) && n.table == TableOf(was)
    requires WalkedTo(slots, was, n, env, neigh, |slots|)
    ensures (if k in TableOf(slots) then TableOf(slots)[k] else []) == SlotOf(Walk(n, env, k, neigh, 0), k)
  {
    TableContents(slots, k);
    TableContents(was, k);
    hide NodeOkHolding, TableOf, Walk;
    if Find(was, k) == |was| {
      WalkOn(n, env, k, neigh, 0);
    } else {
      assert SlotKey(slots[Find(was, k)]) == k;
    }
  }
}

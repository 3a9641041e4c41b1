/** The routing daemon's tables as babeld keeps them: a sorted array of slots,
    a source table with reference counts, and an array of exports, held in fields
    that the methods reassign. Every method does to the abstract state what
    BabelNode says. */
module Babeld {
  import opened Options
  import opened Seqno
  import opened BabelTypes
  import opened BabelNode
  import opened SortedSlots
  import opened Exports

  /** The binary search of find_route_slot agrees with the exhaustive search and
      finds the place for a missing destination. */
  method Search(slots: seq<seq<Route>>, k: Key) returns (i: int, n: nat)
    requires Sorted(slots)
    ensures i == if Find(slots, k) < |slots| then Find(slots, k) else -1
    ensures i < 0 ==> n == Place(slots, k)
  {
    if |slots| < 1 {
      return -1, 0;
    }
    var p, g := 0, |slots| - 1;
    while p <= g
      invariant 0 <= p <= g + 1 <= |slots|
      invariant forall j :: 0 <= j < p ==> Less(SlotKey(slots[j]), k)
      invariant forall j :: g < j < |slots| ==> Less(k, SlotKey(slots[j]))
      decreases g - p
    {
      var m := (p + g) / 2;
      var c := SlotKey(slots[m]);
      if c == k {
        TableContents(slots, k);
        return m, 0;
      } else if Less(k, c) {
        g := m - 1;
      } else {
        p := m + 1;
      }
    }
    Gap(slots, k, p);
    return -1, p;
  }

  /** The first loop of find_best_route. */
  method FirstAcceptable(n: Node, env: Env, s: seq<Route>, feasible: bool, exclude: Option<Neigh>)
    returns (j: nat)
    ensures j <= |s| && BestSoFar(n, env, s, feasible, exclude, j, None)
    ensures j < |s| ==> Acceptable(n, env, s[j], feasible, exclude)
    ensures BestFrom(n, env, s, feasible, exclude, 0, None) == BestFrom(n, env, s, feasible, exclude, j, None)
  {
    j := 0;
    while j < |s| && !Acceptable(n, env, s[j], feasible, exclude)
      invariant j <= |s| && BestSoFar(n, env, s, feasible, exclude, j, None)
      invariant BestFrom(n, env, s, feasible, exclude, 0, None) == BestFrom(n, env, s, feasible, exclude, j, None)
    {
      BestStep(n, env, s, feasible, exclude, j, None);
      j := j + 1;
    }
  }

  /** find_best_route's scans: the acceptable route with the least smoothed
      metric, the first one among equals. */
  method ScanBest(n: Node, env: Env, s: seq<Route>, feasible: bool, exclude: Option<Neigh>)
    returns (b: Option<Route>)
    ensures b == BestFrom(n, env, s, feasible, exclude, 0, None)
  {
    var j := FirstAcceptable(n, env, s, feasible, exclude);
    if j == |s| {
      return None;
    }
    var best := s[j];
    BestStep(n, env, s, feasible, exclude, j, None);
    j := j + 1;
    while j < |s|
      invariant j <= |s| && BestSoFar(n, env, s, feasible, exclude, j, Some(best))
      invariant BestFrom(n, env, s, feasible, exclude, 0, None) ==
                BestFrom(n, env, s, feasible, exclude, j, Some(best))
    {
      BestStep(n, env, s, feasible, exclude, j, Some(best));
      if Acceptable(n, env, s[j], feasible, exclude) && env.smoothed(s[j]) < env.smoothed(best) {
        best := s[j];
      }
      j := j + 1;
    }
    b := Some(best);
  }

  /** switch_routes and move_installed_route on one list: the old head loses
      its flag, the route at j is unlinked and becomes the installed head. */
  method MoveInstalled(s: seq<Route>, j: nat) returns (t: seq<Route>)
    requires j < |s|
    ensures t == Promote(s, j) && SlotKey(t) == s[j].src.key && t != []
  {
    t := s[0 := s[0].(installed := false)];
    t := t[j := Installed(s[j])];
    if j != 0 {
      t := [t[j]] + t[..j] + t[j + 1..];
    }
  }

  /** expire_sources walks the sources, clamps times from the future and frees
      old unused entries. */
  method CollectSources(was: map<SourceKey, Source>, now: int) returns (srcs: map<SourceKey, Source>)
    ensures srcs == Kept(was, now)
  {
    srcs := was;
    var todo := srcs.Keys;
    while todo != {}
      invariant todo <= srcs.Keys <= was.Keys
      invariant forall sk :: sk in todo ==> srcs[sk] == was[sk]
      invariant forall sk :: sk in was && sk !in todo ==> (sk in srcs <==> !Collectable(was[sk], now))
      invariant forall sk :: sk in srcs && sk !in todo ==> srcs[sk] == was[sk].(time := ClampedTime(was[sk], now))
    {
      var sk :| sk in todo;
      todo := todo - {sk};
      var src := srcs[sk];
      if src.time > now {
        src := src.(time := now);
      }
      if src.time < now - SOURCE_GC_TIME && src.routeCount == 0 {
        srcs := srcs - {sk};
      } else {
        srcs := srcs[sk := src];
      }
    }
  }

  class Daemon {
    const myid: nat
    var myseqno: U16
    var slots: seq<seq<Route>>
    var srcs: map<SourceKey, Source>
    var xroutes: seq<Export>

    function State(): Node
      reads this
    {
      Node(myid, myseqno, TableOf(slots), srcs, ExportsOf(xroutes))
    }

    ghost predicate ValidTable()
      reads this
    {
      Sorted(slots) && TableOk(TableOf(slots))
    }

    /** The concrete shape, and the invariants of BabelNode while an operation
        holds an extra source reference. */
    ghost predicate ValidHolding(held: Option<SourceKey>)
      reads this
    {
      Sorted(slots) && UniqueKeys(xroutes) && NodeOkHolding(State(), held)
    }

    ghost predicate Valid()
      reads this
    {
      ValidHolding(None)
    }

    constructor (id: nat)
      ensures Valid() && State() == Node(id, 0, map[], map[], map[])
    {
      myid := id;
      myseqno := 0;
      slots := [];
      srcs := map[];
      xroutes := [];
    }

    // ---- Lookup ----

    /** find_route_slot */
    method FindRouteSlot(k: Key) returns (i: int, n: nat)
      requires Sorted(slots)
      ensures i == if Find(slots, k) < |slots| then Find(slots, k) else -1
      ensures i < 0 ==> n == Place(slots, k)
    {
      i, n := Search(slots, k);
    }

    /** The list of a destination. */
    method GetSlot(k: Key) returns (s: seq<Route>)
      requires Sorted(slots)
      ensures s == SlotOf(State(), k)
    {
      TableContents(slots, k);
      var i, _ := FindRouteSlot(k);
      s := if i >= 0 then slots[i] else [];
    }

    /** find_route: the position of a route in its list. */
    method FindRoute(k: Key, rid: RouteId) returns (s: seq<Route>, j: nat)
      requires Sorted(slots)
      ensures s == SlotOf(State(), k) && j == IndexOf(s, rid)
    {
      s := GetSlot(k);
      j := 0;
      while j < |s| && s[j].rid != rid
        invariant j <= |s| && forall i :: 0 <= i < j ==> s[i].rid != rid
      {
        j := j + 1;
      }
    }

    /** find_installed_route: a search and a test of the head find whatever a
        walk over the whole table would find. */
    method FindInstalledRoute(k: Key) returns (r: Option<Route>)
      requires Valid()
      ensures forall i, j :: 0 <= i < |slots| && 0 <= j < |slots[i]| ==>
                (slots[i][j].installed && slots[i][j].src.key == k <==> r == Some(slots[i][j]))
      ensures r.Some? ==> exists i, j :: 0 <= i < |slots| && 0 <= j < |slots[i]| && slots[i][j] == r.value
    {
      TableContents(slots, k);
      var i, _ := FindRouteSlot(k);
      forall x | 0 <= x < |slots| ensures SlotOk(SlotKey(slots[x]), slots[x]) {
        TableContents(slots, SlotKey(slots[x]));
      }
      if i >= 0 && slots[i][0].installed {
        r := Some(slots[i][0]);
      } else {
        r := None;
      }
    }

    // ---- Changing a destination's list ----

    /** Replaces the list in place, inserts a slot shifting the rest up, or
        removes it shifting the rest down. */
    method PutSlot(k: Key, s: seq<Route>)
      requires Sorted(slots) && (s != [] ==> SlotKey(s) == k)
      modifies this`slots
      ensures slots == Store(old(slots), k, s) && Sorted(slots)
      ensures State() == WithSlot(old(State()), k, s)
    {
      StoreRefines(slots, k, s);
      var i, n := FindRouteSlot(k);
      if i >= 0 {
        if s == [] {
          slots := slots[..i] + slots[i + 1..];
        } else {
          slots := slots[i := s];
        }
      } else if s != [] {
        slots := slots[..n] + [s] + slots[n..];
      } else {
        StoreSame(slots, k);
        TableContents(slots, k);
      }
    }

    /** insert_route: a new last element of the list. */
    method InsertRoute(r: Route)
      requires Sorted(slots) && TableOk(State().table)
      modifies this`slots
      ensures Sorted(slots)
      ensures State() == WithSlot(old(State()), r.src.key, SlotOf(old(State()), r.src.key) + [r])
    {
      var s := GetSlot(r.src.key);
      PutSlot(r.src.key, s + [r]);
    }

    /** switch_routes or install_route, then move_installed_route. */
    method SwitchRoutes(k: Key, j: nat)
      requires Sorted(slots) && TableOk(State().table) && j < |SlotOf(State(), k)|
      modifies this`slots
      ensures Sorted(slots) && slots == Store(old(slots), k, Promote(SlotOf(old(State()), k), j))
      ensures State() == WithSlot(old(State()), k, Promote(SlotOf(old(State()), k), j))
    {
      var s := GetSlot(k);
      var t := MoveInstalled(s, j);
      assert s[j].src.key == k;
      PutSlot(k, t);
    }

    /** find_best_route */
    method FindBestRoute(env: Env, k: Key, feasible: bool, exclude: Option<Neigh>) returns (b: Option<Route>)
      requires Sorted(slots)
      ensures b == FindBest(State(), env, k, feasible, exclude)
    {
      var s := GetSlot(k);
      b := ScanBest(State(), env, s, feasible, exclude);
    }

    /** find_xroute */
    method FindXroute(k: Key) returns (i: nat)
      ensures i == FindExport(xroutes, k)
    {
      i := 0;
      while i < |xroutes| && xroutes[i].key != k
        invariant i <= |xroutes| && forall j :: 0 <= j < i ==> xroutes[j].key != k
      {
        i := i + 1;
      }
    }

    /** The tests of consider_route, in its order. */
    method DecideRoute(env: Env, k: Key, rid: RouteId) returns (install: bool, j: nat)
      requires ValidTable()
      ensures install == Installs(State(), env, k, rid)
      ensures install ==> j == IndexOf(SlotOf(State(), k), rid)
    {
      var s;
      s, j := FindRoute(k, rid);
      if j == |s| || s[j].installed || !RouteFeasible(State(), env, s[j]) {
        return false, j;
      }
      var x := FindXroute(k);
      if x < |xroutes| {
        return false, j;
      }
      if !s[0].installed {
        return true, j;
      }
      if Metric(s[j]) >= INF {
        return false, j;
      }
      if Metric(s[0]) >= INF {
        return true, j;
      }
      install := Metric(s[0]) >= Metric(s[j]) && env.smoothed(s[0]) > env.smoothed(s[j]);
    }

    /** consider_route */
    method ConsiderRoute(env: Env, k: Key, rid: RouteId, ghost held: Option<SourceKey>)
      requires ValidHolding(held)
      modifies this`slots
      ensures ValidHolding(held) && State() == BabelNode.ConsiderRoute(old(State()), env, k, rid)
      ensures slots == Store(old(slots), k, SlotOf(State(), k))
    {
      assert ValidTable();
      hide NodeOkHolding, TableOf, ExportsOf, Sorted, UniqueKeys, Store;
      StoreSame(slots, k);
      ConsiderKeeps(State(), env, k, rid, held);
      ghost var n' := BabelNode.ConsiderRoute(State(), env, k, rid);
      var install, j := DecideRoute(env, k, rid);
      if install {
        SwitchRoutes(k, j);
        assert State() == n' && SlotOf(n', k) == Promote(SlotOf(old(State()), k), j);
      }
    }

    /** route_changed */
    method RouteChanged(env: Env, k: Key, rid: RouteId, ghost held: Option<SourceKey>)
      requires ValidHolding(held)
      modifies this`slots
      ensures ValidHolding(held) && State() == BabelNode.RouteChanged(old(State()), env, k, rid)
    {
      hide NodeOkHolding, TableOf, ExportsOf, Sorted, UniqueKeys, Store, BabelNode.ConsiderRoute;
      var s := GetSlot(k);
      if HeadInstalled(s, rid) {
        var best := FindBestRoute(env, k, true, None);
        if best.Some? && Metric(best.value) < Metric(s[0]) {
          ConsiderRoute(env, k, best.value.rid, held);
        }
      }
      s := GetSlot(k);
      if !HeadInstalled(s, rid) {
        ConsiderRoute(env, k, rid, held);
      }
    }

    /** route_lost */
    method RouteLost(env: Env, k: Key, ghost held: Option<SourceKey>)
      requires ValidHolding(held)
      modifies this`slots
      ensures ValidHolding(held) && State() == BabelNode.RouteLost(old(State()), env, k)
      ensures slots == Store(old(slots), k, SlotOf(State(), k))
    {
      hide NodeOkHolding, TableOf, ExportsOf, Sorted, UniqueKeys, Store, BabelNode.ConsiderRoute;
      StoreSame(slots, k);
      var best := FindBestRoute(env, k, true, None);
      if best.Some? {
        ConsiderRoute(env, k, best.value.rid, held);
      }
    }

    // ---- Sources ----

    /** find_source */
    method FindSource(sk: SourceKey, seqno: U16, now: int)
      modifies this`srcs
      ensures State() == EnsureSource(old(State()), now, sk, seqno) && sk in srcs
    {
      if sk !in srcs {
        srcs := srcs[sk := Source(seqno, INF, now, 0)];
      }
    }

    /** retain_source */
    method RetainSource(sk: SourceKey)
      requires sk in srcs
      modifies this`srcs
      ensures State() == Retain(old(State()), sk)
    {
      srcs := srcs[sk := srcs[sk].(routeCount := srcs[sk].routeCount + 1)];
    }

    /** release_source asserts that the counter is positive. */
    method ReleaseSource(sk: SourceKey)
      requires sk in srcs && srcs[sk].routeCount > 0
      modifies this`srcs
      ensures State() == Release(old(State()), sk)
    {
      srcs := srcs[sk := srcs[sk].(routeCount := srcs[sk].routeCount - 1)];
    }

    /** expire_sources: no source that a route points to is freed. */
    method ExpireSources(now: int)
      requires Valid()
      modifies this`srcs
      ensures Valid() && State() == BabelNode.ExpireSources(old(State()), now)
      ensures forall k, j :: k in State().table && 0 <= j < |State().table[k]| ==> State().table[k][j].src in srcs
    {
      ExpireSourcesKeeps(State(), now);
      srcs := CollectSources(srcs, now);
    }

    // ---- Updates ----

    /** update_route up to the point where selection starts again. */
    method AcceptUpdate(env: Env, u: Update) returns (o: Outcome)
      requires ValidTable()
      modifies this`slots, this`srcs
      ensures Sorted(slots) && (State(), o) == BabelNode.AcceptUpdate(old(State()), env, u)
    {
      hide TableOf, ExportsOf, Sorted, Store;
      var k := u.src.key;
      if u.src.id == myid || env.martian(k) || env.filter(u.src, u.rid.neigh) >= INF {
        return Ignored;
      }
      var s, j := FindRoute(k, u.rid);
      FindSource(u.src, u.seqno, env.now);
      var feasible := Feasible(srcs[u.src], env.now, Distance(u.seqno, u.refmetric));
      if j < |s| {
        var r := s[j];
        o := Changed(r.src, r.installed && !feasible && r.src != u.src);
        RetainSource(u.src);
        PutRevised(k, s, j, Revised(r, env, u, feasible));
      } else if u.refmetric >= INF || (!feasible && !env.keepUnfeasible) {
        o := Ignored;
      } else {
        RetainSource(u.src);
        o := BabelNode.Inserted;
        InsertRoute(NewRoute(env, u));
      }
    }

    /** Overwrites one record of a list. */
    method PutRevised(k: Key, s: seq<Route>, j: nat, r: Route)
      requires ValidTable() && s == SlotOf(State(), k) && j < |s| && r.src.key == k
      modifies this`slots
      ensures Sorted(slots) && State() == WithSlot(old(State()), k, s[j := r])
      ensures slots == Store(old(slots), k, s[j := r])
    {
      PutSlot(k, s[j := r]);
    }

    /** update_route */
    method UpdateRoute(env: Env, u: Update)
      requires Valid()
      modifies this`slots, this`srcs
      ensures Valid() && State() == BabelNode.UpdateRoute(old(State()), env, u)
    {
      assert ValidTable();
      hide NodeOkHolding, TableOf, ExportsOf, Sorted, UniqueKeys, Store, BabelNode.AcceptUpdate;
      hide BabelNode.ConsiderRoute, BabelNode.RouteChanged, BabelNode.RouteLost;
      ghost var n := State();
      var k := u.src.key;
      var o := AcceptUpdate(env, u);
      match o
      case Ignored => AcceptIgnoredKeeps(n, env, u);
      case Inserted =>
        AcceptInsertedKeeps(n, env, u);
        ConsiderRoute(env, k, u.rid, None);
      case Changed(oldsrc, lost) =>
        AcceptChangedKeeps(n, env, u);
        RouteChanged(env, k, u.rid, Some(oldsrc));
        if lost {
          RouteLost(env, k, Some(oldsrc));
        }
        LetGo(oldsrc);
    }

    /** change_route_metric and retract_route: a record's metric and seqno. */
    method SetMetric(k: Key, rid: RouteId, refmetric: U16, cost: U16, add: U16, seqno: U16)
      requires Valid()
      modifies this`slots
      ensures Valid() && State() == BabelNode.SetMetric(old(State()), k, rid, refmetric, cost, add, seqno)
    {
      assert ValidTable();
      hide NodeOkHolding, TableOf, ExportsOf, Sorted, UniqueKeys, Store, TableOk, WithSlot;
      SetMetricKeeps(State(), k, rid, refmetric, cost, add, seqno);
      var s, j := FindRoute(k, rid);
      if j < |s| {
        SlotKeys(State().table, k, j);
        PutRevised(k, s, j, s[j].(refmetric := refmetric, cost := cost, add := add, seqno := seqno));
      }
    }

    /** update_route_metric */
    method UpdateRouteMetric(env: Env, k: Key, rid: RouteId)
      requires Valid()
      modifies this`slots
      ensures Valid() && State() == BabelNode.UpdateRouteMetric(old(State()), env, k, rid)
    {
      hide NodeOkHolding, TableOf, ExportsOf, Sorted, UniqueKeys, Store, BabelNode.RouteChanged;
      var s, j := FindRoute(k, rid);
      if j < |s| {
        var r := s[j];
        if Expired(env, r) {
          if r.refmetric < INF {
            var seqno := if r.src in srcs then Plus(srcs[r.src].seqno, 1) else r.seqno;
            SetMetric(k, rid, INF, INF, 0, seqno);
            if Metric(r) < INF {
              RouteChanged(env, k, rid, None);
            }
          }
        } else {
          SetMetric(k, rid, r.refmetric, env.cost(rid.neigh), env.filter(r.src, rid.neigh), r.seqno);
          var r1 := r.(cost := env.cost(rid.neigh), add := env.filter(r.src, rid.neigh));
          if Metric(r1) != Metric(r) || env.smoothed(r1) != env.smoothed(r) {
            RouteChanged(env, k, rid, None);
          }
        }
      }
    }

    // ---- Flushing ----

    /** flush_route: one position of the sorted array changes. */
    method FlushRoute(env: Env, k: Key, rid: RouteId)
      requires Valid()
      modifies this`slots, this`srcs
      ensures Valid() && State() == BabelNode.FlushRoute(old(State()), env, k, rid)
      ensures slots == Store(old(slots), k, SlotOf(State(), k))
    {
      assert ValidTable();
      hide NodeOkHolding, TableOf, ExportsOf, Sorted, UniqueKeys, Store, BabelNode.RouteLost;
      StoreSame(slots, k);
      var s, j := FindRoute(k, rid);
      if j == |s| {
        return;
      }
      var r := s[j];
      DropRoute(env, k, s, j);
      LetGo(r.src);
    }

    /** Drops the extra reference that an operation holds. */
    method LetGo(sk: SourceKey)
      requires ValidHolding(Some(sk))
      modifies this`srcs
      ensures Valid() && State() == Release(old(State()), sk)
    {
      ReleaseKeeps(State(), sk);
      ReleaseSource(sk);
    }

    /** Takes a route out and, if it was installed, looks for another one. */
    method DropRoute(env: Env, k: Key, s: seq<Route>, j: nat)
      requires Valid() && s == SlotOf(State(), k) && j < |s|
      modifies this`slots
      ensures ValidHolding(Some(s[j].src))
      ensures var n1 := WithSlot(old(State()), k, Without(s, j));
              State() == if s[j].installed then BabelNode.RouteLost(n1, env, k) else n1
      ensures slots == Store(old(slots), k, SlotOf(State(), k))
    {
      hide NodeOkHolding, TableOf, ExportsOf, Sorted, UniqueKeys, Store, BabelNode.RouteLost;
      hide Without, WithSlot, SlotOf, SlotKey;
      Unlink(k, s, j);
      if s[j].installed {
        LostEmpty(State(), env, k);
        RouteLost(env, k, Some(s[j].src));
        StoreAgain(old(slots), k, Without(s, j), SlotOf(State(), k));
      }
    }

    /** Takes one route out of its list, and an emptied list out of the array. */
    method Unlink(k: Key, s: seq<Route>, j: nat)
      requires Valid() && s == SlotOf(State(), k) && j < |s|
      modifies this`slots
      ensures ValidHolding(Some(s[j].src)) && State() == WithSlot(old(State()), k, Without(s, j))
      ensures slots == Store(old(slots), k, Without(s, j)) && SlotOf(State(), k) == Without(s, j)
      ensures Without(s, j) != [] ==> SlotKey(Without(s, j)) == k
    {
      assert SlotOk(k, s);
      hide NodeOkHolding, TableOf, ExportsOf, Sorted, UniqueKeys, Store, SlotOk, Without;
      WithoutSlot(k, s, j);
      WithoutOk(State(), k, j);
      WithoutKey(k, s, j);
      PutSlot(k, Without(s, j));
    }

    /** uninstall_route on the installed route of a destination, if any */
    method UninstallRoute(k: Key)
      requires Sorted(slots) && UniqueKeys(xroutes) && OkExcept(State(), k)
      modifies this`slots
      ensures Valid() && State() == Uninstall(old(State()), k)
      ensures slots == Store(old(slots), k, SlotOf(State(), k))
    {
      UninstallKeeps(State(), k);
      StoreSame(slots, k);
      var s := GetSlot(k);
      assert s != [] ==> SlotKey(s) == k;
      hide NodeOkHolding, TableOf, ExportsOf, Sorted, UniqueKeys, Store;
      if s != [] && s[0].installed {
        PutSlot(k, s[0 := s[0].(installed := false)]);
      }
    }

    // ---- Exported routes ----

    /** add_xroute: 1 when something changed. */
    method AddXroute(k: Key, x: Xroute) returns (changed: bool)
      requires UniqueKeys(xroutes)
      modifies this`xroutes
      ensures UniqueKeys(xroutes) && (State(), changed) == BabelNode.AddXroute(old(State()), k, x)
    {
      var i := FindXroute(k);
      if i < |xroutes| {
        var e := xroutes[i];
        if e.x.metric <= x.metric {
          return false;
        }
        SetExport(xroutes, i, e.x.(metric := x.metric));
        xroutes := xroutes[i := e.(x := e.x.(metric := x.metric))];
        return true;
      }
      AppendExport(xroutes, k, x);
      xroutes := xroutes + [Export(k, x)];
      return true;
    }

    /** xroute_add_new_route: exporting a destination uninstalls its route. */
    method XrouteAddNewRoute(env: Env, k: Key, x: Xroute)
      requires Valid()
      modifies this`slots, this`xroutes
      ensures Valid() && State() == BabelNode.XrouteAddNewRoute(old(State()), env, k, x)
    {
      if env.martian(k) || x.metric >= INF {
        return;
      }
      AddXrouteKeeps(State(), k, x);
      hide OkExcept, NodeOkHolding, Uninstall, BabelNode.AddXroute, TableOf, ExportsOf;
      var changed := AddXroute(k, x);
      if changed {
        UninstallRoute(k);
      }
    }

    /** flush_xroute: the last entry moves into the gap. */
    method FlushXroute(k: Key)
      requires Valid()
      modifies this`xroutes
      ensures Valid() && State() == BabelNode.FlushXroute(old(State()), k)
    {
      var i := FindXroute(k);
      if i < |xroutes| {
        SwapRemoves(xroutes, i);
        FlushXrouteKeeps(State(), k);
        xroutes := SwapRemoved(xroutes, i);
      }
    }
  }
}

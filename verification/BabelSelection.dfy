/** What route selection achieves: the installed route never gets worse by a
    reselection, and a lost route is replaced by the best feasible one. */
module BabelSelection {
  import opened Options
  import opened Seqno
  import opened BabelTypes
  import opened BabelNode

  /** The metric a destination is reached with; infinite if it is not. */
  function InstalledMetric(n: Node, k: Key): U16 {
    var s := SlotOf(n, k);
    if s != [] && s[0].installed then Metric(s[0]) else INF
  }

  lemma ConsiderImproves(n: Node, env: Env, k: Key, rid: RouteId)
    ensures InstalledMetric(ConsiderRoute(n, env, k, rid), k) <= InstalledMetric(n, k)
  {
    if Installs(n, env, k, rid) {
      var s := SlotOf(n, k);
      var t := Promote(s, IndexOf(s, rid));
      assert SlotOf(ConsiderRoute(n, env, k, rid), k) == t && Metric(t[0]) == Metric(s[IndexOf(s, rid)]);
    }
  }

  /** A reselection after a change never replaces a route by one with a larger
      metric, nor a reachable one by an unreachable one. */
  lemma ReselectionImproves(n: Node, env: Env, k: Key, rid: RouteId)
    ensures InstalledMetric(RouteChanged(n, env, k, rid), k) <= InstalledMetric(n, k)
    ensures InstalledMetric(RouteLost(n, env, k), k) <= InstalledMetric(n, k)
  {
    var best := FindBest(n, env, k, true, None);
    if best.Some? { ConsiderImproves(n, env, k, best.value.rid); }
    ConsiderImproves(Reselect(n, env, k, rid), env, k, rid);
  }

  /** When a destination has no installed route, losing its route installs the
      feasible, unexpired one with the least smoothed metric, if there is one. */
  lemma LostInstallsBest(n: Node, env: Env, k: Key, r: Route)
    requires TableOk(n.table) && k !in n.xroutes && r in SlotOf(n, k) && !SlotOf(n, k)[0].installed
    requires Acceptable(n, env, r, true, None)
    ensures var s := SlotOf(RouteLost(n, env, k), k);
            && s != [] && s[0].installed && RouteFeasible(n, env, s[0])
            && exists b :: b in SlotOf(n, k) && s[0] == Installed(b) && env.smoothed(b) <= env.smoothed(r)
  {
    var s := SlotOf(n, k);
    var b := FindBest(n, env, k, true, None).value;
    var j :| 0 <= j < |s| && s[j] == b;
    assert SlotOk(k, s);
    IndexUnique(k, s, j);
    assert !s[j].installed;
    assert Installs(n, env, k, b.rid);
    assert SlotOf(RouteLost(n, env, k), k) == Promote(s, j);
  }

  /** Flushing the installed route leaves the destination installed through the
      best remaining route whenever a feasible, unexpired one remains. */
  lemma FlushRecovers(n: Node, env: Env, k: Key, rid: RouteId, r: Route)
    requires NodeOk(n) && k !in n.xroutes && HeadInstalled(SlotOf(n, k), rid)
    requires r in SlotOf(n, k) && r.rid != rid && Acceptable(n, env, r, true, None)
    ensures var s := SlotOf(FlushRoute(n, env, k, rid), k);
            && s != [] && s[0].installed && s[0].rid != rid
            && exists b :: b in SlotOf(n, k) && s[0] == Installed(b) && env.smoothed(b) <= env.smoothed(r)
  {
    var s := SlotOf(n, k);
    var n1 := WithSlot(n, k, s[1..]);
    FlushIsLost(n, env, k, rid);
    var i :| 0 <= i < |s| && s[i] == r;
    assert s[1..][i - 1] == r;
    hide FindBest, NodeOkHolding, FlushRoute, RouteLost, SlotOk, WithSlot;
    LostInstallsBest(n1, env, k, r);
  }

  /** Flushing the installed head: the rest of the list, then route_lost. */
  lemma FlushIsLost(n: Node, env: Env, k: Key, rid: RouteId)
    requires NodeOk(n) && HeadInstalled(SlotOf(n, k), rid)
    ensures var s := SlotOf(n, k);
            var n1 := WithSlot(n, k, s[1..]);
            && SlotOf(FlushRoute(n, env, k, rid), k) == SlotOf(RouteLost(n1, env, k), k)
            && SlotOf(n1, k) == s[1..] && TableOk(n1.table) && n1.srcs == n.srcs && n1.xroutes == n.xroutes
            && forall j :: 1 <= j < |s| ==> !s[j].installed && s[j].rid != rid
  {
    var s := SlotOf(n, k);
    assert SlotOk(k, s);
    IndexUnique(k, s, 0);
    assert Without(s, 0) == s[1..];
    WithoutOk(n, k, 0);
    hide RouteLost, Count, Known, NodeOkHolding, SlotOk;
    TableOf(WithSlot(n, k, s[1..]), Some(s[0].src));
  }

  /** The route was lost because it is unfeasible, so route_changed leaves
      everything as it is. */
  lemma LostIsQuiet(n: Node, env: Env, u: Update)
    requires NodeOk(n) && AcceptUpdate(n, env, u).1.Changed? && AcceptUpdate(n, env, u).1.lost
    ensures var k, n1 := u.src.key, AcceptUpdate(n, env, u).0;
            && SlotOf(n, k) != [] && SlotOf(n, k)[0].rid == u.rid && k !in n.xroutes && k !in n1.xroutes
            && SlotOf(n1, k) != [] && !SlotOf(n1, k)[0].installed && SlotOf(n1, k)[0].rid == u.rid
            && SlotOf(n1, k)[1..] == SlotOf(n, k)[1..] && !RouteFeasible(n1, env, SlotOf(n1, k)[0])
            && RouteChanged(n1, env, k, u.rid) == n1
  {
    var k, n1 := u.src.key, AcceptUpdate(n, env, u).0;
    assert SlotOk(k, SlotOf(n, k));
    hide Count, Known;
    assert IndexOf(SlotOf(n, k), u.rid) == 0 && IndexOf(SlotOf(n1, k), u.rid) == 0;
    hide FindBest;
  }

  /** The other routes are as acceptable as before the update. */
  lemma OthersAcceptable(n: Node, env: Env, u: Update, r: Route)
    requires NodeOk(n) && AcceptUpdate(n, env, u).1.Changed? && r in SlotOf(n, u.src.key)
    ensures Acceptable(AcceptUpdate(n, env, u).0, env, r, true, None) <==> Acceptable(n, env, r, true, None)
  {
    assert Known(SlotOf(n, u.src.key), n.srcs);
    AcceptedSources(n, env, u, r.src);
    hide AcceptUpdate, NodeOkHolding;
  }

  lemma AcceptedSources(n: Node, env: Env, u: Update, sk: SourceKey)
    requires sk in n.srcs
    ensures var n1 := AcceptUpdate(n, env, u).0;
            && sk in n1.srcs && n1.srcs[sk].time == n.srcs[sk].time
            && FeasibilityDistance(n1.srcs[sk]) == FeasibilityDistance(n.srcs[sk])
  {
  }

  /** route_lost on a list whose head is uninstalled and unfeasible. */
  lemma LostInstallsRest(n: Node, env: Env, k: Key)
    requires TableOk(n.table) && k !in n.xroutes && SlotOf(n, k) != []
    requires !SlotOf(n, k)[0].installed && !RouteFeasible(n, env, SlotOf(n, k)[0])
    ensures var s := SlotOf(RouteLost(n, env, k), k);
            s != [] && (s[0].installed <==> exists r :: r in SlotOf(n, k)[1..] && Acceptable(n, env, r, true, None))
  {
    var s := SlotOf(n, k);
    assert SlotOk(k, s) && s == [s[0]] + s[1..];
    if r :| r in s[1..] && Acceptable(n, env, r, true, None) {
      hide RouteLost, Acceptable, SlotOk;
      LostInstallsBest(n, env, k, r);
    } else {
      assert FindBest(n, env, k, true, None).None?;
    }
  }

  /** An update that takes the installed route away, because it is unfeasible and
      names another source, leaves the destination installed exactly when it has
      another route that is feasible and unexpired. */
  lemma UpdateRecovers(n: Node, env: Env, u: Update)
    requires NodeOk(n) && AcceptUpdate(n, env, u).1.Changed? && AcceptUpdate(n, env, u).1.lost
    ensures var s := SlotOf(UpdateRoute(n, env, u), u.src.key);
            (s != [] && s[0].installed) <==>
            exists r :: r in SlotOf(n, u.src.key)[1..] && Acceptable(n, env, r, true, None)
    ensures SlotOf(n, u.src.key) != [] && SlotOf(n, u.src.key)[0].rid == u.rid
  {
    var k, n1, oldsrc := u.src.key, AcceptUpdate(n, env, u).0, AcceptUpdate(n, env, u).1.oldsrc;
    var s := SlotOf(n, k);
    LostIsQuiet(n, env, u);
    AcceptChangedKeeps(n, env, u);
    TableOf(n1, Some(oldsrc));
    forall r | r in s[1..] ensures Acceptable(n1, env, r, true, None) <==> Acceptable(n, env, r, true, None) {
      OthersAcceptable(n, env, u, r);
    }
    assert UpdateRoute(n, env, u) == Release(RouteLost(n1, env, k), oldsrc);
    hide AcceptUpdate, RouteChanged, UpdateRoute, RouteLost, NodeOkHolding, Acceptable;
    LostInstallsRest(n1, env, k);
  }

  lemma TableOf(n: Node, held: Option<SourceKey>)
    requires NodeOkHolding(n, held)
    ensures TableOk(n.table)
  {
  }
}

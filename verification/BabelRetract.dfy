/** retract_neighbour_routes (babeld/route.c), called for a wildcard retraction:
    it walks the list of a destination while the reselection it triggers reorders
    that list. */
module BabelRetract {
  import opened Options
  import opened Seqno
  import opened BabelTypes
  import opened BabelNode
  import opened BabelFlush
  import opened BabelRuns

  /** A route through the neighbour that is not retracted. */
  predicate Live(r: Route, neigh: Neigh) { r.rid.neigh == neigh && r.refmetric < INF }

  predicate NoneLive(s: seq<Route>, neigh: Neigh) { forall i :: 0 <= i < |s| ==> !Live(s[i], neigh) }

  /** retract_route on the record. */
  function Gone(r: Route): Route { r.(refmetric := INF, cost := INF, add := 0) }

  // ---- One route ----

  function Retracted(n: Node, k: Key, p: nat): (n': Node)
    requires p < |SlotOf(n, k)|
  {
    WithSlot(n, k, SlotOf(n, k)[p := Gone(SlotOf(n, k)[p])])
  }

  /** The reachable route that takes over from the retracted head. */
  function Successor(n: Node, env: Env, k: Key): (b: Option<Route>)
    requires SlotOf(n, k) != []
  {
    var best := FindBest(Retracted(n, k, 0), env, k, true, None);
    if best.Some? && Metric(best.value) < INF then best else None
  }

  /** The list after the route at p has been retracted and reconsidered. */
  function ListAfter(n: Node, env: Env, k: Key, p: nat): (t: seq<Route>)
    requires p < |SlotOf(n, k)|
  {
    var s := SlotOf(n, k);
    var t := s[p := Gone(s[p])];
    if Metric(s[p]) >= INF then t
    else if p == 0 && s[0].installed then
      if Successor(n, env, k).Some? && IndexOf(t, Successor(n, env, k).value.rid) < |t|
      then Promote(t, IndexOf(t, Successor(n, env, k).value.rid)) else t
    else if s[0].installed || k in n.xroutes then t
    else Promote(t, p)
  }

  lemma RetractedIs(n: Node, k: Key, p: nat)
    requires NodeOk(n) && p < |SlotOf(n, k)|
    ensures var s := SlotOf(n, k);
            && IndexOf(s, s[p].rid) == p && SlotOk(k, s)
            && RetractRoute(n, k, s[p].rid, s[p].seqno) == Retracted(n, k, p)
            && NodeOk(Retracted(n, k, p))
  {
    var s := SlotOf(n, k);
    assert SlotOk(k, s);
    IndexUnique(k, s, p);
    SetMetricKeeps(n, k, s[p].rid, INF, INF, 0, s[p].seqno);
    hide NodeOkHolding, SlotOk;
    assert s[p].(refmetric := INF, cost := INF, add := 0, seqno := s[p].seqno) == Gone(s[p]);
  }

  lemma GoneSlot(k: Key, s: seq<Route>, p: nat)
    requires SlotOk(k, s) && p < |s|
    ensures var t := s[p := Gone(s[p])];
            SlotOk(k, t) && forall i :: 0 <= i < |s| ==> IndexOf(t, s[i].rid) == i
  {
    var t := s[p := Gone(s[p])];
    assert SlotOk(k, t);
    forall i | 0 <= i < |s| ensures IndexOf(t, s[i].rid) == i {
      assert t[i].rid == s[i].rid;
      IndexUnique(k, t, i);
    }
  }

  /** Retracting and reconsidering a route that is not installed. */
  lemma ChangedIdle(n: Node, env: Env, k: Key, p: nat)
    requires SlotOk(k, SlotOf(n, k)) && p < |SlotOf(n, k)|
    requires var r := SlotOf(n, k)[p]; !r.installed && r.refmetric >= INF
    ensures var s := SlotOf(n, k);
            RouteChanged(n, env, k, s[p].rid) ==
            if s[0].installed || k in n.xroutes then n else WithSlot(n, k, Promote(s, p))
  {
    var s := SlotOf(n, k);
    IndexUnique(k, s, p);
    hide FindBest, Promote, WithSlot;
    assert !HeadInstalled(s, s[p].rid);
    assert RouteFeasible(n, env, s[p]) && Metric(s[p]) == INF;
  }

  /** Retracting and reconsidering the installed head. */
  lemma ChangedHead(n: Node, env: Env, k: Key)
    requires SlotOk(k, SlotOf(n, k)) && k !in n.xroutes
    requires var r := SlotOf(n, k)[0]; r.installed && r.refmetric >= INF
    ensures var s, best := SlotOf(n, k), FindBest(n, env, k, true, None);
            && (best.Some? ==> IndexOf(s, best.value.rid) < |s|)
            && RouteChanged(n, env, k, s[0].rid) ==
               if best.Some? && Metric(best.value) < INF
               then WithSlot(n, k, Promote(s, IndexOf(s, best.value.rid))) else n
  {
    var s, best := SlotOf(n, k), FindBest(n, env, k, true, None);
    var rid := s[0].rid;
    assert HeadInstalled(s, rid) && Metric(s[0]) == INF;
    if best.Some? {
      var j :| 0 <= j < |s| && s[j] == best.value;
      IndexUnique(k, s, j);
      if Metric(best.value) < INF {
        TakesOver(n, env, k, j);
      }
    }
  }

  /** A reachable feasible route replaces the retracted head for good. */
  lemma TakesOver(n: Node, env: Env, k: Key, j: nat)
    requires SlotOk(k, SlotOf(n, k)) && k !in n.xroutes && 0 < j < |SlotOf(n, k)|
    requires SlotOf(n, k)[0].installed && SlotOf(n, k)[0].refmetric >= INF
    requires RouteFeasible(n, env, SlotOf(n, k)[j]) && Metric(SlotOf(n, k)[j]) < INF
    ensures var s := SlotOf(n, k);
            var n1 := ConsiderRoute(n, env, k, s[j].rid);
            n1 == WithSlot(n, k, Promote(s, j)) && !HeadInstalled(SlotOf(n1, k), s[0].rid)
            && ConsiderRoute(n1, env, k, s[0].rid) == n1
  {
    var s := SlotOf(n, k);
    IndexUnique(k, s, j);
    var n1 := ConsiderRoute(n, env, k, s[j].rid);
    var t := Promote(s, j);
    assert n1 == WithSlot(n, k, t) && SlotOf(n1, k) == t;
    assert t[0].installed && t[0].rid == s[j].rid && t[1] == s[0].(installed := false);
    assert IndexOf(t, s[0].rid) == 1;
    assert Metric(t[1]) == INF && !Preferred(env, t[0], t[1]);
  }

  lemma RetractedFacts(n: Node, k: Key, p: nat)
    requires NodeOk(n) && p < |SlotOf(n, k)|
    ensures var s := SlotOf(n, k);
            var n1, t := Retracted(n, k, p), s[p := Gone(s[p])];
            && RetractRoute(n, k, s[p].rid, s[p].seqno) == n1 && IndexOf(s, s[p].rid) == p
            && SlotOf(n1, k) == t && n1.xroutes == n.xroutes && SlotOk(k, t)
            && (p > 0 ==> !s[p].installed) && (k in n.xroutes ==> !s[0].installed)
  {
    RetractedIs(n, k, p);
    GoneSlot(k, SlotOf(n, k), p);
  }

  /** Exactly what happens to the list. */
  lemma WithdrawIs(n: Node, env: Env, k: Key, p: nat, neigh: Neigh)
    requires NodeOk(n) && p < |SlotOf(n, k)| && Live(SlotOf(n, k)[p], neigh)
    ensures Withdraw(n, env, k, SlotOf(n, k)[p].rid) == WithSlot(n, k, ListAfter(n, env, k, p))
  {
    hide NodeOkHolding, SlotOk, RouteChanged, FindBest, Promote, RetractRoute;
    var s := SlotOf(n, k);
    var n1, t := Retracted(n, k, p), s[p := Gone(s[p])];
    RetractedFacts(n, k, p);
    WithTwice(n, k, t);
    hide WithSlot, SlotOf;
    if Metric(s[p]) < INF {
      if s[p].installed {
        ChangedHead(n1, env, k);
      } else {
        ChangedIdle(n1, env, k, p);
      }
    }
  }

  lemma WithTwice(n: Node, k: Key, t: seq<Route>)
    ensures forall u: seq<Route> {:trigger WithSlot(n, k, u)} ::
              t != [] && u != [] ==> WithSlot(WithSlot(n, k, t), k, u) == WithSlot(n, k, u)
  {
    forall u: seq<Route> | t != [] && u != [] ensures WithSlot(WithSlot(n, k, t), k, u) == WithSlot(n, k, u) {
      assert n.table[k := t][k := u] == n.table[k := u];
    }
  }

  // ---- The walk ----

  /** The routes that are still to be retracted. */
  ghost function LiveIds(s: seq<Route>, neigh: Neigh): set<RouteId> {
    set x | x in PlainSet(s) && Live(x, neigh) :: x.rid
  }

  lemma LiveIdsOf(s: seq<Route>, neigh: Neigh, rid: RouteId)
    ensures rid in LiveIds(s, neigh) <==> exists i :: 0 <= i < |s| && s[i].rid == rid && Live(s[i], neigh)
  {
    if i :| 0 <= i < |s| && s[i].rid == rid && Live(s[i], neigh) {
      PlainMember(s, i);
      assert Live(Plain(s[i]), neigh);
    }
  }

  /** Retracting takes one route off that set, whatever is reordered. */
  lemma LiveShrinks(n: Node, env: Env, k: Key, p: nat, neigh: Neigh)
    requires NodeOk(n) && p < |SlotOf(n, k)| && Live(SlotOf(n, k)[p], neigh)
    ensures LiveIds(ListAfter(n, env, k, p), neigh) == LiveIds(SlotOf(n, k), neigh) - {SlotOf(n, k)[p].rid}
    ensures SlotOf(n, k)[p].rid in LiveIds(SlotOf(n, k), neigh) && |ListAfter(n, env, k, p)| == |SlotOf(n, k)|
  {
    var s := SlotOf(n, k);
    var t := s[p := Gone(s[p])];
    assert SlotOk(k, s);
    LiveIdsOf(s, neigh, s[p].rid);
    GoneIds(k, s, p, neigh);
    ListPlain(n, env, k, p);
    hide ListAfter, NodeOkHolding, SlotOk;
  }

  lemma GoneIds(k: Key, s: seq<Route>, p: nat, neigh: Neigh)
    requires SlotOk(k, s) && p < |s|
    ensures LiveIds(s[p := Gone(s[p])], neigh) == LiveIds(s, neigh) - {s[p].rid}
  {
    var t := s[p := Gone(s[p])];
    forall rid ensures rid in LiveIds(t, neigh) <==> rid in LiveIds(s, neigh) - {s[p].rid} {
      LiveIdsOf(s, neigh, rid);
      LiveIdsOf(t, neigh, rid);
      if i :| 0 <= i < |s| && s[i].rid == rid && Live(s[i], neigh) { assert i != p ==> t[i] == s[i]; }
      if i :| 0 <= i < |t| && t[i].rid == rid && Live(t[i], neigh) { assert i != p && t[i] == s[i]; }
    }
  }

  /** Reordering leaves the routes as they are, up to their selection. */
  lemma ListPlain(n: Node, env: Env, k: Key, p: nat)
    requires p < |SlotOf(n, k)|
    ensures var s := SlotOf(n, k);
            var t := s[p := Gone(s[p])];
            PlainSet(ListAfter(n, env, k, p)) == PlainSet(t) && |ListAfter(n, env, k, p)| == |t|
  {
    var s := SlotOf(n, k);
    var t := s[p := Gone(s[p])];
    hide PlainSet, FindBest;
    forall j | 0 <= j < |t| ensures PlainSet(Promote(t, j)) == PlainSet(t) && |Promote(t, j)| == |t| { PromotePlain(t, j); }
  }

  /** The walk over the list of a destination from position p on: after a route
      has been handled it goes on with whatever comes after it then. */
  function Walk(n: Node, env: Env, k: Key, neigh: Neigh, p: nat): (n': Node)
    requires NodeOk(n)
    ensures NodeOk(n')
    decreases LiveIds(SlotOf(n, k), neigh), |SlotOf(n, k)| - p
  {
    var s := SlotOf(n, k);
    if p >= |s| then n
    else if !Live(s[p], neigh) then Walk(n, env, k, neigh, p + 1)
    else
      var n1 := Withdraw(n, env, k, s[p].rid);
      WithdrawKeeps(n, env, k, s[p].rid);
      WithdrawList(n, env, k, p, neigh);
      Walk(n1, env, k, neigh, IndexOf(SlotOf(n1, k), s[p].rid) + 1)
  }

  lemma WithdrawList(n: Node, env: Env, k: Key, p: nat, neigh: Neigh)
    requires NodeOk(n) && p < |SlotOf(n, k)| && Live(SlotOf(n, k)[p], neigh)
    ensures var n1 := Withdraw(n, env, k, SlotOf(n, k)[p].rid);
            && n1 == WithSlot(n, k, ListAfter(n, env, k, p)) && SlotOf(n1, k) == ListAfter(n, env, k, p)
            && LiveIds(SlotOf(n1, k), neigh) == LiveIds(SlotOf(n, k), neigh) - {SlotOf(n, k)[p].rid}
            && SlotOf(n, k)[p].rid in LiveIds(SlotOf(n, k), neigh)
  {
    hide NodeOkHolding, ListAfter, LiveIds, Withdraw;
    WithdrawIs(n, env, k, p, neigh);
    LiveShrinks(n, env, k, p, neigh);
  }

  /** The walk at its end, or at a route that it passes by. */
  lemma WalkOn(n: Node, env: Env, k: Key, neigh: Neigh, p: nat)
    requires NodeOk(n) && (p < |SlotOf(n, k)| ==> !Live(SlotOf(n, k)[p], neigh))
    ensures Walk(n, env, k, neigh, p) == if p < |SlotOf(n, k)| then Walk(n, env, k, neigh, p + 1) else n
  {
  }

  /** One turn of the walk at a route to retract. */
  lemma WalkTurn(n: Node, env: Env, k: Key, neigh: Neigh, p: nat) returns (n1: Node)
    requires NodeOk(n) && p < |SlotOf(n, k)| && Live(SlotOf(n, k)[p], neigh)
    ensures NodeOk(n1) && SlotOf(n1, k) == ListAfter(n, env, k, p) && n1.xroutes == n.xroutes && n1.srcs == n.srcs
    ensures n1.table - {k} == n.table - {k} && LiveIds(SlotOf(n1, k), neigh) < LiveIds(SlotOf(n, k), neigh)
    ensures Walk(n, env, k, neigh, p) ==
            Walk(n1, env, k, neigh, IndexOf(ListAfter(n, env, k, p), SlotOf(n, k)[p].rid) + 1)
  {
    hide NodeOkHolding, Withdraw, ListAfter, LiveIds, Live;
    n1 := Withdraw(n, env, k, SlotOf(n, k)[p].rid);
    WithdrawList(n, env, k, p, neigh);
    WithdrawKeeps(n, env, k, SlotOf(n, k)[p].rid);
    SlotAlone(n, k, ListAfter(n, env, k, p));
  }

  lemma SlotAlone(n: Node, k: Key, t: seq<Route>)
    ensures WithSlot(n, k, t).table - {k} == n.table - {k}
  {
    assert n.table[k := t] - {k} == n.table - {k};
  }

  // ---- Where the walk does not reorder ----

  /** From position p on nothing will be installed. */
  predicate Calm(n: Node, k: Key, neigh: Neigh, p: nat) {
    var s := SlotOf(n, k);
    s != [] ==> if s[0].installed then p > 0 || s[0].rid.neigh != neigh else k in n.xroutes
  }

  function Swept(s: seq<Route>, neigh: Neigh, p: nat): (t: seq<Route>)
    ensures |t| == |s| && forall i :: 0 <= i < |s| ==> t[i] == if i >= p && Live(s[i], neigh) then Gone(s[i]) else s[i]
  {
    seq(|s|, i requires 0 <= i < |s| => if i >= p && Live(s[i], neigh) then Gone(s[i]) else s[i])
  }

  lemma CalmList(n: Node, env: Env, k: Key, neigh: Neigh, p: nat)
    requires NodeOk(n) && p < |SlotOf(n, k)| && Live(SlotOf(n, k)[p], neigh) && Calm(n, k, neigh, p)
    ensures var s := SlotOf(n, k);
            var t := s[p := Gone(s[p])];
            ListAfter(n, env, k, p) == t && IndexOf(t, s[p].rid) == p && Swept(t, neigh, p + 1) == Swept(s, neigh, p)
  {
    var s := SlotOf(n, k);
    assert SlotOk(k, s);
    GoneSlot(k, s, p);
    hide NodeOkHolding, SlotOk, FindBest, Promote;
    var t := s[p := Gone(s[p])];
    assert Swept(t, neigh, p + 1) == Swept(s, neigh, p);
  }

  /** A calm walk retracts in place. */
  lemma {:induction false} CalmWalk(n: Node, env: Env, k: Key, neigh: Neigh, p: nat)
    requires NodeOk(n) && Calm(n, k, neigh, p)
    ensures SlotOf(Walk(n, env, k, neigh, p), k) == Swept(SlotOf(n, k), neigh, p)
    decreases |SlotOf(n, k)| - p
  {
    hide NodeOkHolding, ListAfter, Walk;
    var s := SlotOf(n, k);
    if p >= |s| {
      WalkOn(n, env, k, neigh, p);
      assert Swept(s, neigh, p) == s;
    } else if !Live(s[p], neigh) {
      WalkOn(n, env, k, neigh, p);
      CalmWalk(n, env, k, neigh, p + 1);
      assert Swept(s, neigh, p) == Swept(s, neigh, p + 1);
    } else {
      var n1 := WalkTurn(n, env, k, neigh, p);
      CalmList(n, env, k, neigh, p);
      CalmWalk(n1, env, k, neigh, p + 1);
    }
  }

  lemma SweptNone(s: seq<Route>, neigh: Neigh, p: nat)
    requires forall i :: 0 <= i < |s| && i < p ==> !Live(s[i], neigh)
    ensures NoneLive(Swept(s, neigh, p), neigh)
  {
  }

  // ---- Where it does ----

  /** With nothing installed and nothing exported the first reachable route that
      is retracted becomes the installed head, and the walk starts over behind
      it. */
  lemma {:induction false} IdleWalk(n: Node, env: Env, k: Key, neigh: Neigh, p: nat)
    requires NodeOk(n) && SlotOf(n, k) != [] && !SlotOf(n, k)[0].installed && k !in n.xroutes
    requires forall i :: 0 <= i < |SlotOf(n, k)| && i < p ==> !Live(SlotOf(n, k)[i], neigh)
    ensures NoneLive(SlotOf(Walk(n, env, k, neigh, p), k), neigh)
    decreases |SlotOf(n, k)| - p
  {
    hide NodeOkHolding, ListAfter, Walk, Swept;
    var s := SlotOf(n, k);
    if p >= |s| {
      WalkOn(n, env, k, neigh, p);
    } else {
      if !Live(s[p], neigh) {
        WalkOn(n, env, k, neigh, p);
        IdleWalk(n, env, k, neigh, p + 1);
      } else {
        var n1 := WalkTurn(n, env, k, neigh, p);
        IdleList(n, env, k, neigh, p);
        if SlotOf(n1, k)[0].installed {
          CalmWalk(n1, env, k, neigh, 1);
          SweptNone(SlotOf(n1, k), neigh, 1);
        } else {
          IdleWalk(n1, env, k, neigh, p + 1);
        }
      }
    }
  }

  lemma IdleList(n: Node, env: Env, k: Key, neigh: Neigh, p: nat)
    requires NodeOk(n) && p < |SlotOf(n, k)| && Live(SlotOf(n, k)[p], neigh)
    requires !SlotOf(n, k)[0].installed && k !in n.xroutes
    ensures var s, t := SlotOf(n, k), ListAfter(n, env, k, p);
            && |t| == |s|
            && if t[0].installed then IndexOf(t, s[p].rid) == 0 && !Live(t[0], neigh)
               else t == s[p := Gone(s[p])] && IndexOf(t, s[p].rid) == p
  {
    var s := SlotOf(n, k);
    assert SlotOk(k, s);
    GoneSlot(k, s, p);
    hide NodeOkHolding, SlotOk, FindBest;
  }

  /** The retracted head is replaced by a route through the same neighbour: the
      walk goes on behind the old head and never sees the new one. */
  predicate Overlooks(n: Node, env: Env, k: Key, neigh: Neigh) {
    var s := SlotOf(n, k);
    && s != [] && s[0].installed && Live(s[0], neigh) && Metric(s[0]) < INF
    && Successor(n, env, k).Some? && Successor(n, env, k).value.rid.neigh == neigh
  }

  /** Where the successor stands in the list. */
  lemma SuccessorAt(n: Node, env: Env, k: Key)
    requires NodeOk(n) && SlotOf(n, k) != [] && Successor(n, env, k).Some?
    ensures var t := SlotOf(n, k)[0 := Gone(SlotOf(n, k)[0])];
            var b := Successor(n, env, k).value;
            0 < IndexOf(t, b.rid) < |t| && t[IndexOf(t, b.rid)] == b && b.refmetric < INF
  {
    var s := SlotOf(n, k);
    var t := s[0 := Gone(s[0])];
    assert SlotOk(k, s) && SlotOf(Retracted(n, k, 0), k) == t;
    GoneSlot(k, s, 0);
    hide NodeOkHolding, SlotOk;
    var b := Successor(n, env, k).value;
    var j :| 0 <= j < |t| && t[j] == b;
    assert t[j].rid == s[j].rid;
  }

  lemma HeadList(n: Node, env: Env, k: Key, neigh: Neigh)
    requires NodeOk(n) && SlotOf(n, k) != [] && SlotOf(n, k)[0].installed && Live(SlotOf(n, k)[0], neigh)
    ensures var s, t := SlotOf(n, k), ListAfter(n, env, k, 0);
            && |t| == |s| && t[0].installed
            && if Metric(s[0]) < INF && Successor(n, env, k).Some?
               then |t| > 1 && IndexOf(t, s[0].rid) == 1 && !Live(t[1], neigh) && (Live(t[0], neigh) <==> Overlooks(n, env, k, neigh))
               else IndexOf(t, s[0].rid) == 0 && !Live(t[0], neigh) && !Overlooks(n, env, k, neigh)
  {
    var s := SlotOf(n, k);
    var t := s[0 := Gone(s[0])];
    if Metric(s[0]) < INF && Successor(n, env, k).Some? {
      SuccessorAt(n, env, k);
      var j := IndexOf(t, Successor(n, env, k).value.rid);
      hide NodeOkHolding, SlotOk, Successor;
      assert Promote(t, j)[1] == t[0].(installed := false) && Promote(t, j)[0].rid != s[0].rid;
    }
    hide NodeOkHolding, SlotOk, Successor;
  }

  /** All routes through the neighbour are retracted exactly unless the walk
      overlooks one; then that one is the installed head, and all others are
      retracted. */
  lemma WalkExactly(n: Node, env: Env, k: Key, neigh: Neigh)
    requires NodeOk(n)
    ensures var t := SlotOf(Walk(n, env, k, neigh, 0), k);
            && (NoneLive(t, neigh) <==> !Overlooks(n, env, k, neigh))
            && (Overlooks(n, env, k, neigh) ==> t != [] && t[0].installed && Live(t[0], neigh) && NoneLive(t[1..], neigh))
  {
    hide NodeOkHolding, Walk, Successor, Swept;
    var s := SlotOf(n, k);
    if s == [] {
      WalkOn(n, env, k, neigh, 0);
    } else if !s[0].installed && k !in n.xroutes {
      IdleWalk(n, env, k, neigh, 0);
    } else if Calm(n, k, neigh, 0) {
      CalmWalk(n, env, k, neigh, 0);
      SweptNone(s, neigh, 0);
    } else {
      HeadWalk(n, env, k, neigh);
    }
  }

  lemma HeadWalk(n: Node, env: Env, k: Key, neigh: Neigh)
    requires NodeOk(n) && SlotOf(n, k) != [] && SlotOf(n, k)[0].installed
    ensures var t := SlotOf(Walk(n, env, k, neigh, 0), k);
            && (NoneLive(t, neigh) <==> !Overlooks(n, env, k, neigh))
            && (Overlooks(n, env, k, neigh) ==> t != [] && t[0].installed && Live(t[0], neigh) && NoneLive(t[1..], neigh))
  {
    hide NodeOkHolding, ListAfter, Walk, Successor, Swept;
    var s := SlotOf(n, k);
    if !Live(s[0], neigh) {
      WalkOn(n, env, k, neigh, 0);
      CalmWalk(n, env, k, neigh, 1);
      SweptNone(s, neigh, 1);
    } else {
      var n1 := WalkTurn(n, env, k, neigh, 0);
      HeadList(n, env, k, neigh);
      var t := SlotOf(n1, k);
      var p := IndexOf(t, s[0].rid) + 1;
      CalmWalk(n1, env, k, neigh, p);
      if p == 1 { SweptNone(t, neigh, 1); } else { HeadLeft(t, neigh); }
    }
  }

  lemma HeadLeft(t: seq<Route>, neigh: Neigh)
    requires |t| > 1 && !Live(t[1], neigh)
    ensures var u := Swept(t, neigh, 2);
            u[0] == t[0] && NoneLive(u[1..], neigh) && (NoneLive(u, neigh) <==> !Live(t[0], neigh))
  {
    var u := Swept(t, neigh, 2);
    forall i | 0 <= i < |u[1..]| ensures !Live(u[1..][i], neigh) { assert u[1..][i] == u[i + 1]; }
    forall i | 0 < i < |u| ensures !Live(u[i], neigh) { assert u[i] == u[1..][i - 1]; }
  }

  // ---- What the walk leaves alone ----

  ghost function OthersOf(s: seq<Route>, neigh: Neigh): set<Route> {
    set x | x in PlainSet(s) && x.rid.neigh != neigh
  }

  lemma GoneOthers(s: seq<Route>, p: nat, neigh: Neigh)
    requires p < |s| && s[p].rid.neigh == neigh
    ensures OthersOf(s[p := Gone(s[p])], neigh) == OthersOf(s, neigh)
  {
    var t := s[p := Gone(s[p])];
    forall x | x in OthersOf(s, neigh) ensures x in OthersOf(t, neigh) {
      var r :| r in s && Plain(r) == x;
      var i :| 0 <= i < |s| && s[i] == r;
      assert t[i] == r;
      PlainMember(t, i);
    }
    forall x | x in OthersOf(t, neigh) ensures x in OthersOf(s, neigh) {
      var r :| r in t && Plain(r) == x;
      var i :| 0 <= i < |t| && t[i] == r;
      assert s[i] == r;
      PlainMember(s, i);
    }
  }

  /** Routes through other neighbours change at most in which one is installed;
      other destinations, sources and exports do not change. */
  lemma {:induction false} WalkOthers(n: Node, env: Env, k: Key, neigh: Neigh, p: nat)
    requires NodeOk(n)
    ensures var n' := Walk(n, env, k, neigh, p);
            && n'.table - {k} == n.table - {k} && n'.srcs == n.srcs && n'.xroutes == n.xroutes
            && |SlotOf(n', k)| == |SlotOf(n, k)| && OthersOf(SlotOf(n', k), neigh) == OthersOf(SlotOf(n, k), neigh)
    decreases LiveIds(SlotOf(n, k), neigh), |SlotOf(n, k)| - p
  {
    hide NodeOkHolding, ListAfter, Walk, LiveIds, OthersOf;
    var s := SlotOf(n, k);
    if p >= |s| {
      WalkOn(n, env, k, neigh, p);
    } else if !Live(s[p], neigh) {
      WalkOn(n, env, k, neigh, p);
      WalkOthers(n, env, k, neigh, p + 1);
    } else {
      var n1 := WalkTurn(n, env, k, neigh, p);
      GoneOthers(s, p, neigh);
      ListOthers(n, env, k, p, neigh);
      WalkOthers(n1, env, k, neigh, IndexOf(SlotOf(n1, k), s[p].rid) + 1);
    }
  }

  lemma ListOthers(n: Node, env: Env, k: Key, p: nat, neigh: Neigh)
    requires p < |SlotOf(n, k)|
    ensures var s := SlotOf(n, k);
            OthersOf(ListAfter(n, env, k, p), neigh) == OthersOf(s[p := Gone(s[p])], neigh) && |ListAfter(n, env, k, p)| == |s|
  {
    hide ListAfter, PlainSet;
    ListPlain(n, env, k, p);
  }

  // ---- The walk looks at its own destination only ----

  /** The two nodes agree on what the walk reads. */
  predicate Agree(n: Node, m: Node, k: Key) {
    SlotOf(n, k) == SlotOf(m, k) && n.srcs == m.srcs && n.xroutes == m.xroutes
  }

  lemma {:induction false} BestAgrees(n: Node, m: Node, env: Env, s: seq<Route>, j: nat, cur: Option<Route>)
    requires n.srcs == m.srcs && j <= |s| && BestSoFar(n, env, s, true, None, j, cur)
    ensures BestSoFar(m, env, s, true, None, j, cur)
    ensures BestFrom(n, env, s, true, None, j, cur) == BestFrom(m, env, s, true, None, j, cur)
    decreases |s| - j
  {
    assert forall r :: Acceptable(n, env, r, true, None) == Acceptable(m, env, r, true, None);
    if j < |s| {
      BestStep(n, env, s, true, None, j, cur);
      var next := if Acceptable(n, env, s[j], true, None) && (cur.None? || env.smoothed(s[j]) < env.smoothed(cur.value))
                  then Some(s[j]) else cur;
      BestAgrees(n, m, env, s, j + 1, next);
    }
  }

  lemma ListAgrees(n: Node, m: Node, env: Env, k: Key, p: nat)
    requires Agree(n, m, k) && p < |SlotOf(n, k)|
    ensures ListAfter(n, env, k, p) == ListAfter(m, env, k, p)
  {
    var n1, m1 := Retracted(n, k, 0), Retracted(m, k, 0);
    BestAgrees(n1, m1, env, SlotOf(n1, k), 0, None);
    assert FindBest(n1, env, k, true, None) == FindBest(m1, env, k, true, None);
    hide FindBest, Promote;
  }

  lemma {:induction false} WalkAgrees(n: Node, m: Node, env: Env, k: Key, neigh: Neigh, p: nat)
    requires NodeOk(n) && NodeOk(m) && Agree(n, m, k)
    ensures SlotOf(Walk(n, env, k, neigh, p), k) == SlotOf(Walk(m, env, k, neigh, p), k)
    decreases LiveIds(SlotOf(n, k), neigh), |SlotOf(n, k)| - p
  {
    hide NodeOkHolding, ListAfter, Walk, LiveIds;
    var s := SlotOf(n, k);
    if p >= |s| {
      WalkOn(n, env, k, neigh, p);
      WalkOn(m, env, k, neigh, p);
    } else if !Live(s[p], neigh) {
      WalkOn(n, env, k, neigh, p);
      WalkOn(m, env, k, neigh, p);
      WalkAgrees(n, m, env, k, neigh, p + 1);
    } else {
      var n1 := WalkTurn(n, env, k, neigh, p);
      var m1 := WalkTurn(m, env, k, neigh, p);
      ListAgrees(n, m, env, k, p);
      WalkAgrees(n1, m1, env, k, neigh, IndexOf(SlotOf(n1, k), s[p].rid) + 1);
    }
  }

  // ---- An overlooked route ----

  const HERE := Key(5, 128)

  /** The clock stands at 0, links cost 10, and nothing is filtered or smoothed. */
  function Plainly(): Env { Env(0, r => Metric(r), _ => 10, (_, _) => 0, _ => false, false) }

  /** Neighbour 2 announces router 9's prefix with two next hops. */
  function Heard(nexthop: nat): Update {
    Update(SourceKey(9, HERE), 7, 100, 0, RouteId(Neigh(2, 0), nexthop))
  }

  function TwoUpdates(): seq<Op> { [UpdateOp(Plainly(), Heard(1)), UpdateOp(Plainly(), Heard(2))] }

  /** The two routes; the first one is installed. */
  function TwoHops(): Node {
    var src := SourceKey(9, HERE);
    var r := NewRoute(Plainly(), Heard(1));
    Node(1, 0, map[HERE := [Installed(r), NewRoute(Plainly(), Heard(2))]], map[src := Source(7, INF, 0, 2)], map[])
  }

  /** The first one alone. */
  function OneHop(): Node {
    Node(1, 0, map[HERE := [Installed(NewRoute(Plainly(), Heard(1)))]], map[SourceKey(9, HERE) := Source(7, INF, 0, 1)], map[])
  }

  function Nothing(): Node { Node(1, 0, map[], map[], map[]) }

  lemma FirstHeard()
    ensures UpdateRoute(Nothing(), Plainly(), Heard(1)) == OneHop()
  {
    var n, env, u := Nothing(), Plainly(), Heard(1);
    var r := NewRoute(env, u);
    var n1 := Node(1, 0, map[HERE := [r]], map[u.src := Source(7, INF, 0, 1)], map[]);
    assert Compare(7, 7) == 0;
    var e := EnsureSource(n, 0, u.src, 7);
    assert e.srcs == map[u.src := Source(7, INF, 0, 0)] && Retain(e, u.src).srcs == n1.srcs;
    assert SlotOf(n, HERE) == [] && [] + [r] == [r] && WithSlot(Retain(e, u.src), HERE, [r]) == n1;
    assert AcceptUpdate(n, env, u) == (n1, Inserted);
    assert IndexOf([r], u.rid) == 0 && [r][1..] == [];
    assert Installs(n1, env, HERE, u.rid);
    assert Promote([r], 0) == [Installed(r)];
  }

  lemma SecondHeard()
    ensures UpdateRoute(OneHop(), Plainly(), Heard(2)) == TwoHops()
  {
    var n, env, u := OneHop(), Plainly(), Heard(2);
    var s, r := SlotOf(OneHop(), HERE), NewRoute(Plainly(), Heard(2));
    assert s[1..] == [] && IndexOf(s, u.rid) == 1;
    assert Compare(7, 7) == 0;
    var t := SlotOf(TwoHops(), HERE);
    assert EnsureSource(n, 0, u.src, 7) == n && Retain(n, u.src).srcs == TwoHops().srcs;
    assert s + [r] == t && WithSlot(Retain(n, u.src), HERE, t) == TwoHops();
    assert AcceptUpdate(n, env, u) == (TwoHops(), Inserted);
    assert t[1..][1..] == [];
    assert IndexOf(t, u.rid) == 1;
    assert Metric(t[0]) == Metric(t[1]) == 110;
    assert !Installs(TwoHops(), env, HERE, u.rid);
  }

  /** It takes two updates to get there. */
  lemma TwoHopsReached()
    ensures After(1, TwoUpdates()) == TwoHops() && NodeOk(TwoHops())
  {
    var run := TwoUpdates();
    assert run[..1] == [run[0]] && run[..1][..0] == [];
    assert After(1, []) == Nothing();
    FirstHeard();
    SecondHeard();
    hide UpdateRoute;
    assert After(1, run[..1]) == OneHop();
    ReachableOk(1, run);
  }

  /** Reachable in two updates: a wildcard retraction from that neighbour leaves
      the destination routed through it. */
  lemma OverlookedRoute()
    ensures var n := After(1, TwoUpdates());
            && NodeOk(n) && Overlooks(n, Plainly(), HERE, Neigh(2, 0))
            && var t := SlotOf(Walk(n, Plainly(), HERE, Neigh(2, 0), 0), HERE);
               t != [] && t[0].installed && Live(t[0], Neigh(2, 0))
  {
    TwoHopsReached();
    TwoHopsOverlooks();
    hide NodeOkHolding, Walk, After, Overlooks;
    WalkExactly(TwoHops(), Plainly(), HERE, Neigh(2, 0));
  }

  lemma TwoHopsOverlooks()
    ensures Overlooks(TwoHops(), Plainly(), HERE, Neigh(2, 0))
  {
    var n, env := TwoHops(), Plainly();
    var s := SlotOf(n, HERE);
    var n1 := Retracted(n, HERE, 0);
    assert SlotOf(n1, HERE)[1] == s[1] && s[1] in SlotOf(n1, HERE);
    assert Compare(7, 7) == 0;
    assert RouteFeasible(n1, env, s[1]);
    assert Acceptable(n1, env, s[1], true, None);
    assert Metric(s[0]) == Metric(s[1]) == 110;
  }
}

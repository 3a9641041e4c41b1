/** What flushing routes leaves behind: exactly the other routes, up to which
    of them is installed. */
module BabelFlush {
  import opened Options
  import opened BabelTypes
  import opened BabelNode

  /** A route without its selection state. */
  function Plain(r: Route): Route { r.(installed := false, anchored := false) }

  ghost function PlainSet(s: seq<Route>): set<Route> { set r | r in s :: Plain(r) }

  lemma PlainMember(s: seq<Route>, j: nat)
    requires j < |s|
    ensures Plain(s[j]) in PlainSet(s)
  {
    assert s[j] in s;
  }

  lemma PromotePlain(s: seq<Route>, j: nat)
    requires j < |s|
    ensures PlainSet(Promote(s, j)) == PlainSet(s)
    ensures |Promote(s, j)| == |s|
  {
    var t := Promote(s, j);
    forall x | x in PlainSet(s) ensures x in PlainSet(t) {
      var r :| r in s && Plain(r) == x;
      var p :| 0 <= p < |s| && s[p] == r;
      var q := if p == j then 0 else if p < j then p + 1 else p;
      assert Plain(t[q]) == x;
      PlainMember(t, q);
    }
    forall x | x in PlainSet(t) ensures x in PlainSet(s) {
      var r :| r in t && Plain(r) == x;
      var q :| 0 <= q < |t| && t[q] == r;
      var p := if q == 0 then j else if q <= j then q - 1 else q;
      assert Plain(s[p]) == x;
      PlainMember(s, p);
    }
  }

  /** An operation that only reselects: same routes, other selection. */
  ghost predicate Reselects(n: Node, n': Node, k: Key) {
    && n'.table - {k} == n.table - {k}
    && PlainSet(SlotOf(n', k)) == PlainSet(SlotOf(n, k)) && |SlotOf(n', k)| == |SlotOf(n, k)|
    && n'.srcs == n.srcs && n'.xroutes == n.xroutes
  }

  lemma ConsiderReselects(n: Node, env: Env, k: Key, rid: RouteId)
    ensures Reselects(n, ConsiderRoute(n, env, k, rid), k)
  {
    if Installs(n, env, k, rid) {
      var s := Promote(SlotOf(n, k), IndexOf(SlotOf(n, k), rid));
      PromotePlain(SlotOf(n, k), IndexOf(SlotOf(n, k), rid));
      assert n.table[k := s] - {k} == n.table - {k};
    }
  }

  lemma RouteLostReselects(n: Node, env: Env, k: Key)
    ensures Reselects(n, RouteLost(n, env, k), k)
  {
    var best := FindBest(n, env, k, true, None);
    if best.Some? { ConsiderReselects(n, env, k, best.value.rid); }
  }

  lemma PlainWithout(k: Key, s: seq<Route>, j: nat)
    requires SlotOk(k, s) && j < |s|
    ensures PlainSet(Without(s, j)) == set x | x in PlainSet(s) && x.rid != s[j].rid
  {
    var t := Without(s, j);
    forall x | x in PlainSet(s) && x.rid != s[j].rid ensures x in PlainSet(t) {
      var r :| r in s && Plain(r) == x;
      var p :| 0 <= p < |s| && s[p] == r;
      PlainMember(t, if p < j then p else p - 1);
    }
    forall x | x in PlainSet(t) ensures x in PlainSet(s) && x.rid != s[j].rid {
      var r :| r in t && Plain(r) == x;
      var q :| 0 <= q < |t| && t[q] == r;
      PlainMember(s, if q < j then q else q + 1);
    }
  }

  /** flush_route is unlinking, reselecting and releasing. */
  lemma FlushSteps(n: Node, env: Env, k: Key, rid: RouteId)
    requires IndexOf(SlotOf(n, k), rid) < |SlotOf(n, k)|
    ensures var s := SlotOf(n, k);
            var j := IndexOf(s, rid);
            var n1 := WithSlot(n, k, Without(s, j));
            && SlotOf(n1, k) == Without(s, j) && n1.table - {k} == n.table - {k}
            && FlushRoute(n, env, k, rid).table == (if s[j].installed then RouteLost(n1, env, k) else n1).table
  {
    hide RouteLost, Without;
    assert n.table - {k} - {k} == n.table - {k};
  }

  /** flush_route removes one route and no other, whatever it reinstalls. */
  lemma FlushRemoves(n: Node, env: Env, k: Key, rid: RouteId)
    requires NodeOk(n) && IndexOf(SlotOf(n, k), rid) < |SlotOf(n, k)|
    ensures var n' := FlushRoute(n, env, k, rid);
            && n'.table - {k} == n.table - {k}
            && |SlotOf(n', k)| == |SlotOf(n, k)| - 1
            && PlainSet(SlotOf(n', k)) == set x | x in PlainSet(SlotOf(n, k)) && x.rid != rid
  {
    var s := SlotOf(n, k);
    var j := IndexOf(s, rid);
    var n1 := WithSlot(n, k, Without(s, j));
    assert SlotOk(k, s);
    hide FlushRoute, RouteLost, NodeOkHolding, SlotOk, WithSlot;
    FlushSteps(n, env, k, rid);
    PlainWithout(k, s, j);
    hide PlainSet;
    RouteLostReselects(n1, env, k);
  }

  /** Which routes a bulk flush is about. */
  ghost predicate Survivors(n: Node, n': Node, k: Key, p: RouteId -> bool) {
    && PlainSet(SlotOf(n', k)) <= PlainSet(SlotOf(n, k))
    && forall x :: x in PlainSet(SlotOf(n, k)) && !p(x.rid) ==> x in PlainSet(SlotOf(n', k))
  }

  lemma SurvivorsStep(n: Node, n1: Node, n2: Node, env: Env, k: Key, rid: RouteId, p: RouteId -> bool, q: Key)
    requires NodeOk(n1) && IndexOf(SlotOf(n1, k), rid) < |SlotOf(n1, k)| && p(rid)
    requires n2 == FlushRoute(n1, env, k, rid) && Survivors(n, n1, q, p)
    ensures Survivors(n, n2, q, p)
  {
    FlushRemoves(n1, env, k, rid);
    if q != k {
      Elsewhere(n1.table, n2.table, k, q);
      assert SlotOf(n2, q) == SlotOf(n1, q);
    }
  }

  /** A bulk flush leaves exactly the routes that do not match. */
  ghost predicate Flushed(n: Node, n': Node, k: Key, p: RouteId -> bool) {
    PlainSet(SlotOf(n', k)) == set x | x in PlainSet(SlotOf(n, k)) && !p(x.rid)
  }

  lemma SurvivorsExact(n: Node, n': Node, k: Key, p: RouteId -> bool)
    requires Survivors(n, n', k, p)
    requires forall j :: 0 <= j < |SlotOf(n', k)| ==> !p(SlotOf(n', k)[j].rid)
    ensures Flushed(n, n', k, p)
  {
  }

  /** Reference counting never frees a source, it only lowers the counter. */
  lemma FlushKeepsSources(n: Node, env: Env, k: Key, rid: RouteId)
    ensures FlushRoute(n, env, k, rid).srcs.Keys == n.srcs.Keys
  {
    var s := SlotOf(n, k);
    var j := IndexOf(s, rid);
    if j < |s| { RouteLostReselects(WithSlot(n, k, Without(s, j)), env, k); }
  }

  lemma AllReleased(n: Node)
    requires NodeOk(n) && n.table == map[]
    ensures forall sk :: sk in n.srcs ==> n.srcs[sk].routeCount == 0
  {
    forall sk | sk in n.srcs ensures n.srcs[sk].routeCount == 0 { assert CountOk(n, sk, None); }
  }
}

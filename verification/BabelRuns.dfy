/** One node's tables over every run of its operations. */
module BabelRuns {
  import opened Options
  import opened Seqno
  import opened BabelTypes
  import opened BabelNode

  /** The operations the rest of babeld calls. */
  datatype Op =
    | UpdateOp(env: Env, u: Update)
    | MetricOp(env: Env, k: Key, rid: RouteId)
    | WithdrawOp(env: Env, k: Key, rid: RouteId)
    | FlushOp(env: Env, k: Key, rid: RouteId)
    | ExportOp(env: Env, k: Key, x: Xroute)
    | UnexportOp(k: Key)
    | ExpireOp(now: int)
    | SendOp(k: Key, e: SendEnv)
    | BumpOp

  function Do(n: Node, op: Op): (n': Node) {
    match op
    case UpdateOp(env, u) => UpdateRoute(n, env, u)
    case MetricOp(env, k, rid) => UpdateRouteMetric(n, env, k, rid)
    case WithdrawOp(env, k, rid) => Withdraw(n, env, k, rid)
    case FlushOp(env, k, rid) => FlushRoute(n, env, k, rid)
    case ExportOp(env, k, x) => XrouteAddNewRoute(n, env, k, x)
    case UnexportOp(k) => FlushXroute(n, k)
    case ExpireOp(now) => ExpireSources(n, now)
    case SendOp(k, e) => SendUpdate(n, k, e).0
    case BumpOp => n.(myseqno := Plus(n.myseqno, 1))
  }

  function After(id: nat, run: seq<Op>): (n: Node) {
    if run == [] then Node(id, 0, map[], map[], map[])
    else Do(After(id, run[..|run| - 1]), run[|run| - 1])
  }

  lemma DoKeeps(n: Node, op: Op)
    requires NodeOk(n)
    ensures NodeOk(Do(n, op))
  {
    hide UpdateRoute, UpdateRouteMetric, Withdraw, FlushRoute, XrouteAddNewRoute, FlushXroute, ExpireSources, SendUpdate;
    hide NodeOkHolding;
    match op
    case UpdateOp(env, u) => UpdateRouteKeeps(n, env, u);
    case MetricOp(env, k, rid) => UpdateRouteMetricKeeps(n, env, k, rid);
    case WithdrawOp(env, k, rid) => WithdrawKeeps(n, env, k, rid);
    case FlushOp(env, k, rid) => FlushRouteKeeps(n, env, k, rid);
    case ExportOp(env, k, x) => XrouteAddKeeps(n, env, k, x);
    case UnexportOp(k) => FlushXrouteKeeps(n, k);
    case ExpireOp(now) => ExpireSourcesKeeps(n, now);
    case SendOp(k, e) => SendUpdateKeeps(n, k, e);
    case BumpOp => BumpKeeps(n, Plus(n.myseqno, 1));
  }

  lemma BumpKeeps(n: Node, seqno: U16)
    requires NodeOk(n)
    ensures NodeOk(n.(myseqno := seqno))
  {
    var n' := n.(myseqno := seqno);
    forall sk | sk in n'.srcs ensures CountOk(n', sk, None) { assert CountOk(n, sk, None); }
  }

  lemma {:induction false} ReachableOk(id: nat, run: seq<Op>)
    ensures NodeOk(After(id, run))
  {
    if run != [] {
      ReachableOk(id, run[..|run| - 1]);
      DoKeeps(After(id, run[..|run| - 1]), run[|run| - 1]);
    } else {
      assert After(id, run).table == map[] && After(id, run).srcs == map[];
    }
  }

  /** In every reachable state: a destination's list is never empty, holds routes
      of that destination only, at most one per neighbour and next hop, and an
      installed one only at its head; no exported destination is installed; and
      every source's counter is the number of routes that point to it. */
  lemma Reachable(id: nat, run: seq<Op>, k: Key, sk: SourceKey)
    ensures var n := After(id, run);
            && (k in n.table ==> SlotOk(k, n.table[k]))
            && (k in n.table && k in n.xroutes ==> !n.table[k][0].installed)
            && (k in n.table ==> forall j :: 0 <= j < |n.table[k]| ==> n.table[k][j].src in n.srcs)
            && (sk in n.srcs ==> n.srcs[sk].routeCount == Count(SlotOf(n, sk.key), sk))
  {
    ReachableOk(id, run);
    hide After;
    assert sk in After(id, run).srcs ==> CountOk(After(id, run), sk, None);
    assert k in After(id, run).table ==> Known(After(id, run).table[k], After(id, run).srcs);
  }
}

/** When the whole forwarding graph of a Babel network, and not only its
    anchored part, is free of loops: as long as no retracted installed route is
    revived by an unfeasible update. consider_route installs a retracted route
    when nothing else is installed (babeld/route.c:885); update_route takes over
    an unfeasible finite update for it (babeld/route.c:766-793), and a loop can
    close. */
module BabelLoops {
  import opened Options
  import opened Seqno
  import opened BabelTypes
  import opened BabelNode
  import opened BabelNetwork

  // ---- Operations are sequences of steps ----

  datatype Operation =
    | UpdateOp(m: Message, ifp: nat, nexthop: nat, interval: U16, env: Env)
    | MetricOp(k: Key, rid: RouteId, env: Env)
    | WithdrawOp(k: Key, rid: RouteId, env: Env)
    | FlushOp(k: Key, rid: RouteId, env: Env)

  function NodeOp(n: Node, op: Operation): (n': Node) {
    match op
    case UpdateOp(m, ifp, nexthop, interval, env) => UpdateRoute(n, env, UpdateOf(m, ifp, nexthop, interval))
    case MetricOp(k, rid, env) => UpdateRouteMetric(n, env, k, rid)
    case WithdrawOp(k, rid, env) => Withdraw(n, env, k, rid)
    case FlushOp(k, rid, env) => FlushRoute(n, env, k, rid)
  }

  function NodeRun(n: Node, steps: seq<Step>): (n': Node)
    decreases |steps|
  {
    if steps == [] then n else NodeRun(NodeAfter(n, steps[0]), steps[1..])
  }

  lemma NodeRunConcat(n: Node, a: seq<Step>, b: seq<Step>)
    ensures NodeRun(n, a + b) == NodeRun(NodeRun(n, a), b)
    decreases |a|
  {
    if a == [] {
      assert a + b == b;
    } else {
      assert (a + b)[1..] == a[1..] + b;
      NodeRunConcat(NodeAfter(n, a[0]), a[1..], b);
    }
  }

  lemma OneStep(n: Node, st: Step)
    ensures NodeRun(n, [st]) == NodeAfter(n, st)
  {
    assert [st][1..] == [];
  }

  // An operation that changes the selection may queue updates, and a full queue
  // is flushed at once; g(i) are the Send steps at the i-th place where that can
  // happen. What comes next is decided on the tables as they are then.

  /** route_changed with sends before its second half. */
  function ChangedWith(n: Node, env: Env, k: Key, rid: RouteId, sends: seq<Step>): Node {
    var n1 := NodeRun(Reselect(n, env, k, rid), sends);
    if HeadInstalled(SlotOf(n1, k), rid) then n1 else ConsiderRoute(n1, env, k, rid)
  }

  /** update_route once an existing route has been changed. */
  function RestOfUpdate(n: Node, env: Env, u: Update, oldsrc: SourceKey, lost: bool, g: nat -> seq<Step>): Node {
    var n1 := NodeRun(ChangedWith(NodeRun(n, g(0)), env, u.src.key, u.rid, g(1)), g(2));
    Release(NodeRun(if lost then RouteLost(n1, env, u.src.key) else n1, g(3)), oldsrc)
  }

  function UpdateWith(n: Node, env: Env, u: Update, g: nat -> seq<Step>): Node {
    match AcceptUpdate(n, env, u)
    case (n1, Ignored) => n1
    case (n1, Inserted) => ConsiderRoute(NodeRun(n1, g(0)), env, u.src.key, u.rid)
    case (n1, Changed(oldsrc, lost)) => RestOfUpdate(n1, env, u, oldsrc, lost, g)
  }

  /** The first half of update_route_metric: the step that changes the record,
      and whether route_changed follows. */
  function MetricStep(n: Node, env: Env, k: Key, rid: RouteId): Option<(Step, bool)> {
    var s := SlotOf(n, k);
    var j := IndexOf(s, rid);
    if j == |s| then None
    else
      var r := s[j];
      if Expired(env, r) then
        if r.refmetric >= INF then None
        else Some((Retract(k, rid, if r.src in n.srcs then Plus(n.srcs[r.src].seqno, 1) else r.seqno), Metric(r) < INF))
      else
        var r1 := r.(cost := env.cost(rid.neigh), add := env.filter(r.src, rid.neigh));
        Some((SetCost(k, rid, r1.cost, r1.add), Metric(r1) != Metric(r) || env.smoothed(r1) != env.smoothed(r)))
  }

  /** The same for one route of retract_neighbour_routes. */
  function WithdrawStep(n: Node, k: Key, rid: RouteId): Option<(Step, bool)> {
    var s := SlotOf(n, k);
    var j := IndexOf(s, rid);
    if j == |s| || s[j].refmetric >= INF then None else Some((Retract(k, rid, s[j].seqno), Metric(s[j]) < INF))
  }

  function FirstStep(n: Node, op: Operation): Option<(Step, bool)>
    requires op.MetricOp? || op.WithdrawOp?
  {
    if op.MetricOp? then MetricStep(n, op.env, op.k, op.rid) else WithdrawStep(n, op.k, op.rid)
  }

  function MetricWith(n: Node, env: Env, k: Key, rid: RouteId, first: Option<(Step, bool)>, g: nat -> seq<Step>): Node {
    match first
    case None => n
    case Some((st, changed)) =>
      var n1 := NodeRun(NodeAfter(n, st), g(0));
      if changed then ChangedWith(n1, env, k, rid, g(1)) else n1
  }

  function FlushWith(n: Node, env: Env, k: Key, rid: RouteId, g: nat -> seq<Step>): Node {
    var s := SlotOf(n, k);
    var j := IndexOf(s, rid);
    if j == |s| then n
    else
      var n1 := NodeRun(WithSlot(n, k, Without(s, j)), g(0));
      Release(NodeRun(if s[j].installed then RouteLost(n1, env, k) else n1, g(1)), s[j].src)
  }

  /** An operation with sends in between. */
  function OpWith(n: Node, op: Operation, g: nat -> seq<Step>): (n': Node) {
    match op
    case UpdateOp(m, ifp, nexthop, interval, env) => UpdateWith(n, env, UpdateOf(m, ifp, nexthop, interval), g)
    case MetricOp(k, rid, env) => MetricWith(n, env, k, rid, FirstStep(n, op), g)
    case WithdrawOp(k, rid, env) => MetricWith(n, env, k, rid, FirstStep(n, op), g)
    case FlushOp(k, rid, env) => FlushWith(n, env, k, rid, g)
  }

  // The steps of the same operation.

  function ReselectSteps(n: Node, env: Env, k: Key, rid: RouteId): seq<Step> {
    var best := FindBest(n, env, k, true, None);
    if HeadInstalled(SlotOf(n, k), rid) && best.Some? && Metric(best.value) < Metric(SlotOf(n, k)[0])
    then [Consider(k, best.value.rid, env)] else []
  }

  function ChangedSteps(n: Node, env: Env, k: Key, rid: RouteId, sends: seq<Step>): seq<Step> {
    var n1 := NodeRun(Reselect(n, env, k, rid), sends);
    ReselectSteps(n, env, k, rid) + (sends + if HeadInstalled(SlotOf(n1, k), rid) then [] else [Consider(k, rid, env)])
  }

  function LostSteps(n: Node, env: Env, k: Key): seq<Step> {
    var best := FindBest(n, env, k, true, None);
    if best.Some? then [Consider(k, best.value.rid, env)] else []
  }

  function EndSteps(n: Node, env: Env, k: Key, lost: bool, sends: seq<Step>, sk: SourceKey): seq<Step> {
    (if lost then LostSteps(n, env, k) else []) + (sends + [ReleaseRef(sk)])
  }

  function RestSteps(n: Node, env: Env, u: Update, oldsrc: SourceKey, lost: bool, g: nat -> seq<Step>): seq<Step> {
    var n0 := NodeRun(n, g(0));
    var n1 := NodeRun(ChangedWith(n0, env, u.src.key, u.rid, g(1)), g(2));
    g(0) + (ChangedSteps(n0, env, u.src.key, u.rid, g(1)) +
            (g(2) + EndSteps(n1, env, u.src.key, lost, g(3), oldsrc)))
  }

  function MetricSteps(n: Node, env: Env, k: Key, rid: RouteId, first: Option<(Step, bool)>, g: nat -> seq<Step>): seq<Step> {
    match first
    case None => []
    case Some((st, changed)) =>
      [st] + (g(0) + if changed then ChangedSteps(NodeRun(NodeAfter(n, st), g(0)), env, k, rid, g(1)) else [])
  }

  function StepsWith(n: Node, op: Operation, g: nat -> seq<Step>): seq<Step> {
    match op
    case UpdateOp(m, ifp, nexthop, interval, env) =>
      var u := UpdateOf(m, ifp, nexthop, interval);
      [Receive(m, ifp, nexthop, interval, env)] +
      (match AcceptUpdate(n, env, u)
       case (_, Ignored) => []
       case (_, Inserted) => g(0) + [Consider(u.src.key, u.rid, env)]
       case (n1, Changed(oldsrc, lost)) => RestSteps(n1, env, u, oldsrc, lost, g))
    case MetricOp(k, rid, env) => MetricSteps(n, env, k, rid, FirstStep(n, op), g)
    case WithdrawOp(k, rid, env) => MetricSteps(n, env, k, rid, FirstStep(n, op), g)
    case FlushOp(k, rid, env) =>
      var s := SlotOf(n, k);
      var j := IndexOf(s, rid);
      if j == |s| then []
      else
        var n1 := NodeRun(WithSlot(n, k, Without(s, j)), g(0));
        [Unlink(k, rid)] + (g(0) + EndSteps(n1, env, k, s[j].installed, g(1), s[j].src))
  }

  lemma ReselectRun(n: Node, env: Env, k: Key, rid: RouteId)
    ensures NodeRun(n, ReselectSteps(n, env, k, rid)) == Reselect(n, env, k, rid)
  {
    var a := ReselectSteps(n, env, k, rid);
    if a != [] { OneStep(n, a[0]); }
  }

  lemma ChangedRun(n: Node, env: Env, k: Key, rid: RouteId, sends: seq<Step>)
    ensures NodeRun(n, ChangedSteps(n, env, k, rid, sends)) == ChangedWith(n, env, k, rid, sends)
  {
    var n1 := NodeRun(Reselect(n, env, k, rid), sends);
    var last := if HeadInstalled(SlotOf(n1, k), rid) then [] else [Consider(k, rid, env)];
    ReselectRun(n, env, k, rid);
    hide Reselect, ReselectSteps;
    NodeRunConcat(n, ReselectSteps(n, env, k, rid), sends + last);
    NodeRunConcat(Reselect(n, env, k, rid), sends, last);
    OneStep(n1, Consider(k, rid, env));
  }

  lemma EndRun(n: Node, env: Env, k: Key, lost: bool, sends: seq<Step>, sk: SourceKey)
    ensures NodeRun(n, EndSteps(n, env, k, lost, sends, sk)) ==
            Release(NodeRun(if lost then RouteLost(n, env, k) else n, sends), sk)
  {
    var a := if lost then LostSteps(n, env, k) else [];
    if a != [] { OneStep(n, a[0]); }
    var n1 := NodeRun(n, a);
    assert n1 == if lost then RouteLost(n, env, k) else n;
    hide RouteLost, LostSteps;
    NodeRunConcat(n, a, sends + [ReleaseRef(sk)]);
    NodeRunConcat(n1, sends, [ReleaseRef(sk)]);
    OneStep(NodeRun(n1, sends), ReleaseRef(sk));
  }

  lemma RestRun(n: Node, env: Env, u: Update, oldsrc: SourceKey, lost: bool, g: nat -> seq<Step>)
    ensures NodeRun(n, RestSteps(n, env, u, oldsrc, lost, g)) == RestOfUpdate(n, env, u, oldsrc, lost, g)
  {
    hide NodeRun, ChangedSteps, ChangedWith, EndSteps, RouteLost, Release;
    var k := u.src.key;
    var n0 := NodeRun(n, g(0));
    var c := ChangedSteps(n0, env, k, u.rid, g(1));
    var n1 := ChangedWith(n0, env, k, u.rid, g(1));
    var n2 := NodeRun(n1, g(2));
    var e := EndSteps(n2, env, k, lost, g(3), oldsrc);
    NodeRunConcat(n, g(0), c + (g(2) + e));
    NodeRunConcat(n0, c, g(2) + e);
    ChangedRun(n0, env, k, u.rid, g(1));
    NodeRunConcat(n1, g(2), e);
    EndRun(n2, env, k, lost, g(3), oldsrc);
  }

  lemma ThenSteps(n: Node, st: Step, a: seq<Step>)
    ensures NodeRun(n, [st] + a) == NodeRun(NodeAfter(n, st), a)
  {
    assert ([st] + a)[1..] == a;
  }

  lemma NoSteps(n: Node)
    ensures NodeRun(n, []) == n
  {
  }

  lemma UpdateIsSteps(n: Node, op: Operation, g: nat -> seq<Step>)
    requires op.UpdateOp?
    ensures NodeRun(n, StepsWith(n, op, g)) == OpWith(n, op, g)
  {
    var u := UpdateOf(op.m, op.ifp, op.nexthop, op.interval);
    var (n1, o) := AcceptUpdate(n, op.env, u);
    var st := Receive(op.m, op.ifp, op.nexthop, op.interval, op.env);
    assert NodeAfter(n, st) == n1;
    hide AcceptUpdate, NodeRun, RestSteps, RestOfUpdate;
    match o
    case Ignored =>
      ThenSteps(n, st, []);
      NoSteps(n1);
    case Inserted =>
      var c := Consider(u.src.key, u.rid, op.env);
      ThenSteps(n, st, g(0) + [c]);
      NodeRunConcat(n1, g(0), [c]);
      OneStep(NodeRun(n1, g(0)), c);
    case Changed(oldsrc, lost) =>
      ThenSteps(n, st, RestSteps(n1, op.env, u, oldsrc, lost, g));
      RestRun(n1, op.env, u, oldsrc, lost, g);
  }

  lemma MetricIsSteps(n: Node, op: Operation, g: nat -> seq<Step>)
    requires op.MetricOp? || op.WithdrawOp?
    ensures NodeRun(n, StepsWith(n, op, g)) == OpWith(n, op, g)
  {
    hide NodeRun, FirstStep, ChangedSteps, ChangedWith;
    match FirstStep(n, op)
    case None => NoSteps(n);
    case Some((st, changed)) =>
      var n1 := NodeRun(NodeAfter(n, st), g(0));
      var c := if changed then ChangedSteps(n1, op.env, op.k, op.rid, g(1)) else [];
      ThenSteps(n, st, g(0) + c);
      NodeRunConcat(NodeAfter(n, st), g(0), c);
      ChangedRun(n1, op.env, op.k, op.rid, g(1));
      NoSteps(n1);
  }

  lemma FlushIsSteps(n: Node, op: Operation, g: nat -> seq<Step>)
    requires op.FlushOp?
    ensures NodeRun(n, StepsWith(n, op, g)) == OpWith(n, op, g)
  {
    var s := SlotOf(n, op.k);
    var j := IndexOf(s, op.rid);
    if j == |s| {
      NoSteps(n);
    } else {
      var st := Unlink(op.k, op.rid);
      var n0 := WithSlot(n, op.k, Without(s, j));
      assert NodeAfter(n, st) == n0;
      hide NodeRun, NodeAfter, WithSlot, Without, EndSteps, RouteLost, Release;
      var n1 := NodeRun(n0, g(0));
      var e := EndSteps(n1, op.env, op.k, s[j].installed, g(1), s[j].src);
      ThenSteps(n, st, g(0) + e);
      NodeRunConcat(n0, g(0), e);
      EndRun(n1, op.env, op.k, s[j].installed, g(1), s[j].src);
    }
  }

  /** update_route, update_route_metric, flush_route and the retraction of one
      route, interrupted by any sends wherever they may flush updates, are
      sequences of steps. */
  lemma OperationIsSteps(n: Node, op: Operation, g: nat -> seq<Step>)
    ensures NodeRun(n, StepsWith(n, op, g)) == OpWith(n, op, g)
  {
    match op
    case UpdateOp(_, _, _, _, _) => UpdateIsSteps(n, op, g);
    case MetricOp(_, _, _) => MetricIsSteps(n, op, g);
    case WithdrawOp(_, _, _) => MetricIsSteps(n, op, g);
    case FlushOp(_, _, _) => FlushIsSteps(n, op, g);
  }

  lemma MetricUninterrupted(n: Node, env: Env, k: Key, rid: RouteId)
    ensures MetricWith(n, env, k, rid, MetricStep(n, env, k, rid), (i: nat) => []) == UpdateRouteMetric(n, env, k, rid)
  {
    hide RouteChanged, ConsiderRoute, FindBest;
    forall m: Node ensures ChangedWith(m, env, k, rid, []) == RouteChanged(m, env, k, rid) {
      ChangedUninterrupted(m, env, k, rid);
    }
    hide ChangedWith;
  }

  lemma WithdrawUninterrupted(n: Node, env: Env, k: Key, rid: RouteId)
    ensures MetricWith(n, env, k, rid, WithdrawStep(n, k, rid), (i: nat) => []) == Withdraw(n, env, k, rid)
  {
    hide RouteChanged, ConsiderRoute, FindBest;
    forall m: Node ensures ChangedWith(m, env, k, rid, []) == RouteChanged(m, env, k, rid) {
      ChangedUninterrupted(m, env, k, rid);
    }
    hide ChangedWith;
  }

  lemma ChangedUninterrupted(n: Node, env: Env, k: Key, rid: RouteId)
    ensures ChangedWith(n, env, k, rid, []) == RouteChanged(n, env, k, rid)
  {
    hide Reselect, ConsiderRoute;
  }

  /** Without sends in between they are the operations themselves. */
  lemma UninterruptedIsOperation(n: Node, op: Operation)
    ensures OpWith(n, op, (i: nat) => []) == NodeOp(n, op)
  {
    match op
    case UpdateOp(m, ifp, nexthop, interval, env) =>
      var u := UpdateOf(m, ifp, nexthop, interval);
      ChangedUninterrupted(AcceptUpdate(n, env, u).0, env, u.src.key, u.rid);
      hide AcceptUpdate, ChangedWith, RouteChanged, RouteLost, Release, ConsiderRoute;
    case MetricOp(k, rid, env) => MetricUninterrupted(n, env, k, rid);
    case WithdrawOp(k, rid, env) => WithdrawUninterrupted(n, env, k, rid);
    case FlushOp(k, rid, env) => hide RouteLost, Release, WithSlot, Without;
  }

  // ---- The exact condition ----

  /** An installed route of the source with a finite metric is anchored: it was
      feasible at some time since it was installed. */
  predicate SlotFed(s: seq<Route>, sk: SourceKey) {
    s != [] && s[0].installed && s[0].src == sk && s[0].refmetric < INF ==> s[0].anchored
  }

  predicate Fed(n: Node, sk: SourceKey) { SlotFed(SlotOf(n, sk.key), sk) }

  /** The feasibility test of update_route, after find_source. */
  predicate UpdateFeasible(n: Node, env: Env, u: Update) {
    Feasible(EnsureSource(n, env.now, u.src, u.seqno).srcs[u.src], env.now, Distance(u.seqno, u.refmetric))
  }

  /** The update is accepted, finite and unfeasible, and hits an installed,
      retracted route of the same source that was never feasible since it was
      installed. */
  predicate RevivesRoute(n: Node, env: Env, u: Update) {
    var s := SlotOf(n, u.src.key);
    var j := IndexOf(s, u.rid);
    && AcceptUpdate(n, env, u).1.Changed? && u.refmetric < INF && !UpdateFeasible(n, env, u)
    && j < |s| && s[j].installed && s[j].src == u.src && s[j].refmetric >= INF && !s[j].anchored
  }

  predicate Revives(n: Node, st: Step, sk: SourceKey) {
    && st.Receive?
    && var u := UpdateOf(st.m, st.ifp, st.nexthop, st.interval);
       u.src == sk && RevivesRoute(n, st.env, u)
  }

  lemma ChangedSlot(n: Node, env: Env, u: Update)
    requires AcceptUpdate(n, env, u).1.Changed?
    ensures var s := SlotOf(n, u.src.key);
            var j := IndexOf(s, u.rid);
            && j < |s|
            && SlotOf(AcceptUpdate(n, env, u).0, u.src.key) == s[j := Revised(s[j], env, u, UpdateFeasible(n, env, u))]
  {
  }

  /** What update_route does to the slot of the source. */
  lemma AcceptedFed(n: Node, env: Env, u: Update, sk: SourceKey)
    requires TableOk(n.table) && Fed(n, sk)
    ensures Fed(AcceptUpdate(n, env, u).0, sk) <==> !(u.src == sk && RevivesRoute(n, env, u))
  {
    var n' := AcceptUpdate(n, env, u).0;
    if u.src.key != sk.key || !AcceptUpdate(n, env, u).1.Changed? {
      AcceptedElsewhere(n, env, u, sk.key);
      hide AcceptUpdate;
    } else {
      var s := SlotOf(n, sk.key);
      assert SlotOk(sk.key, s);
      ChangedSlot(n, env, u);
      hide AcceptUpdate, UpdateFeasible, SlotOk;
    }
  }

  /** An update leaves other slots alone, and adds a new route at the end. */
  lemma AcceptedElsewhere(n: Node, env: Env, u: Update, k: Key)
    requires u.src.key != k || !AcceptUpdate(n, env, u).1.Changed?
    ensures var s, s' := SlotOf(n, k), SlotOf(AcceptUpdate(n, env, u).0, k);
            s' == s || (|s'| == |s| + 1 && s'[..|s|] == s && !s'[|s|].installed)
  {
  }

  lemma ConsideredFed(n: Node, env: Env, k: Key, rid: RouteId, sk: SourceKey)
    requires Fed(n, sk)
    ensures Fed(ConsiderRoute(n, env, k, rid), sk)
  {
    if Installs(n, env, k, rid) && k == sk.key {
      var s := SlotOf(n, k);
      assert SlotOf(ConsiderRoute(n, env, k, rid), k) == Promote(s, IndexOf(s, rid));
    }
  }

  /** An installed head after an edit was installed before, under the same source
      and anchor, and no less retracted. */
  predicate HeadKept(s: seq<Route>, t: seq<Route>) {
    t != [] && t[0].installed ==>
      && s != [] && s[0].installed && t[0].src == s[0].src && t[0].anchored == s[0].anchored
      && (t[0].refmetric < INF ==> s[0].refmetric < INF)
  }

  lemma SetMetricHead(n: Node, k: Key, q: Key, rid: RouteId, refmetric: U16, cost: U16, add: U16, seqno: U16)
    requires refmetric >= INF || (IndexOf(SlotOf(n, q), rid) < |SlotOf(n, q)| ==> refmetric == SlotOf(n, q)[IndexOf(SlotOf(n, q), rid)].refmetric)
    ensures HeadKept(SlotOf(n, k), SlotOf(SetMetric(n, q, rid, refmetric, cost, add, seqno), k))
  {
  }

  lemma UnlinkedHead(n: Node, st: Step, k: Key)
    requires st.Unlink? && (SlotOf(n, k) != [] ==> SlotOk(k, SlotOf(n, k)))
    ensures HeadKept(SlotOf(n, k), SlotOf(NodeAfter(n, st), k))
  {
  }

  /** A step that changes neither sources nor anchors of installed routes. */
  lemma EditedHead(n: Node, st: Step, k: Key)
    requires TableOk(n.table) && (st.SetCost? || st.Retract? || st.Unlink? || st.Export?)
    ensures HeadKept(SlotOf(n, k), SlotOf(NodeAfter(n, st), k))
  {
    match st
    case SetCost(q, rid, cost, add) =>
      var s := SlotOf(n, q);
      var j := IndexOf(s, rid);
      if j < |s| { SetMetricHead(n, k, q, rid, s[j].refmetric, cost, add, s[j].seqno); }
    case Retract(q, rid, seqno) => SetMetricHead(n, k, q, rid, INF, INF, 0, seqno);
    case Unlink(_, _) => UnlinkedHead(n, st, k);
    case Export(_, _, _) => ExportedSlot(n, st, k);
  }

  lemma EditedFed(n: Node, st: Step, sk: SourceKey)
    requires TableOk(n.table) && Fed(n, sk) && (st.SetCost? || st.Retract? || st.Unlink? || st.Export?)
    ensures Fed(NodeAfter(n, st), sk)
  {
    hide NodeAfter;
    EditedHead(n, st, sk.key);
  }

  lemma ExportedSlot(n: Node, st: Step, k: Key)
    requires st.Export?
    ensures var s := SlotOf(n, k);
            || SlotOf(NodeAfter(n, st), k) == s
            || (s != [] && SlotOf(NodeAfter(n, st), k) == s[0 := s[0].(installed := false)])
  {
  }

  /** A finite route of the source that was never feasible comes into use by
      exactly one kind of step: the revival of a retracted installed route. */
  lemma FedExactly(n: Node, st: Step, sk: SourceKey)
    requires TableOk(n.table) && Fed(n, sk)
    ensures Fed(NodeAfter(n, st), sk) <==> !Revives(n, st, sk)
  {
    match st
    case Receive(m, ifp, nexthop, interval, env) =>
      AcceptedFed(n, env, UpdateOf(m, ifp, nexthop, interval), sk);
    case Consider(k, rid, env) => ConsideredFed(n, env, k, rid, sk);
    case SetCost(_, _, _, _) => EditedFed(n, st, sk);
    case Retract(_, _, _) => EditedFed(n, st, sk);
    case Unlink(_, _) => EditedFed(n, st, sk);
    case Export(_, _, _) => EditedFed(n, st, sk);
    case _ =>
  }

  ghost predicate NeverRevives(net: Net, steps: seq<(nat, Step)>, sk: SourceKey)
    decreases |steps|
  {
    steps != [] ==>
      var pre := steps[..|steps| - 1];
      var last := steps[|steps| - 1];
      && NeverRevives(net, pre, sk)
      && (last.0 in Run(net, pre).nodes ==> !Revives(Run(net, pre).nodes[last.0], last.1, sk))
  }

  lemma {:induction false} RunFed(net: Net, steps: seq<(nat, Step)>, sk: SourceKey)
    requires Initial(net) && GoodRun(net, steps, sk) && NeverRevives(net, steps, sk)
    ensures forall i :: i in Run(net, steps).nodes ==> Fed(Run(net, steps).nodes[i], sk)
    decreases |steps|
  {
    if steps != [] {
      var pre := steps[..|steps| - 1];
      var last := steps[|steps| - 1];
      RunFed(net, pre, sk);
      RunKeeps(net, pre, sk);
      var n := Run(net, pre).nodes[last.0];
      hide NodeAfter, Fed, Revives;
      FedExactly(n, last.1, sk);
    }
  }

  predicate UnfedAt(net: Net, i: nat, sk: SourceKey) { i in net.nodes && !Fed(net.nodes[i], sk) }

  /** Every loop goes through a route that is in use without ever having been
      feasible since it was installed. */
  lemma LoopNeedsRevival(net: Net, steps: seq<(nat, Step)>, sk: SourceKey, walk: seq<nat>)
    requires Initial(net) && GoodRun(net, steps, sk) && Cycle(Run(net, steps), sk, walk)
    ensures exists p :: 0 <= p < |walk| - 1 && UnfedAt(Run(net, steps), walk[p], sk)
  {
    var net' := Run(net, steps);
    RunKeeps(net, steps, sk);
    if forall p :: 0 <= p < |walk| - 1 ==> !UnfedAt(net', walk[p], sk) {
      forall p | 0 <= p < |walk| - 1 ensures AnchoredEdge(net', sk, walk[p], walk[p + 1]) {
        assert Edge(net', sk, walk[p], walk[p + 1]);
        var s := SlotOf(net'.nodes[walk[p]], sk.key);
        var q :| 0 <= q < |s| && Forwards(s[q], sk, walk[p + 1]);
        assert SlotOk(sk.key, s) && q == 0;
      }
      LoopFreedom(net, steps, sk, walk);
    }
  }

  /** As long as no route of a source is revived, the graph of all its installed
      finite routes is acyclic in every run. */
  lemma LoopFreeUnlessRevived(net: Net, steps: seq<(nat, Step)>, sk: SourceKey, walk: seq<nat>)
    requires Initial(net) && GoodRun(net, steps, sk) && NeverRevives(net, steps, sk)
    ensures !Cycle(Run(net, steps), sk, walk)
  {
    RunFed(net, steps, sk);
    hide Cycle, Fed, GoodRun, Initial, Run, NeverRevives;
    if Cycle(Run(net, steps), sk, walk) {
      LoopNeedsRevival(net, steps, sk, walk);
    }
  }

  // ---- No retracted route installed, no revival ----

  /** Every installed route of the source is anchored. */
  predicate AnchoredFor(n: Node, sk: SourceKey) {
    var s := SlotOf(n, sk.key);
    s != [] && s[0].installed && s[0].src == sk ==> s[0].anchored
  }

  /** The step leaves a retracted route of the source installed that was not
      installed, or not for this source, before. */
  predicate InstallsRetracted(n: Node, st: Step, sk: SourceKey) {
    var s := SlotOf(n, sk.key);
    match st
    case Consider(k, rid, env) =>
      k == sk.key && Installs(n, env, k, rid) && s[IndexOf(s, rid)].src == sk && s[IndexOf(s, rid)].refmetric >= INF
    case Receive(m, ifp, nexthop, interval, env) =>
      var u := UpdateOf(m, ifp, nexthop, interval);
      var j := IndexOf(s, u.rid);
      && u.src == sk && AcceptUpdate(n, env, u).1.Changed? && u.refmetric >= INF
      && j < |s| && s[j].installed && s[j].src != sk
    case _ => false
  }

  lemma AcceptedAnchored(n: Node, st: Step, sk: SourceKey)
    requires TableOk(n.table) && AnchoredFor(n, sk) && st.Receive?
    ensures AnchoredFor(NodeAfter(n, st), sk) <==> !InstallsRetracted(n, st, sk)
  {
    var u := UpdateOf(st.m, st.ifp, st.nexthop, st.interval);
    if u.src.key != sk.key || !AcceptUpdate(n, st.env, u).1.Changed? {
      AcceptedElsewhere(n, st.env, u, sk.key);
      hide AcceptUpdate;
    } else {
      assert SlotOk(sk.key, SlotOf(n, sk.key));
      ChangedSlot(n, st.env, u);
      hide AcceptUpdate, UpdateFeasible, SlotOk;
    }
  }

  lemma ConsideredAnchored(n: Node, st: Step, sk: SourceKey)
    requires AnchoredFor(n, sk) && st.Consider?
    ensures AnchoredFor(NodeAfter(n, st), sk) <==> !InstallsRetracted(n, st, sk)
  {
    if Installs(n, st.env, st.k, st.rid) && st.k == sk.key {
      var s := SlotOf(n, st.k);
      assert SlotOf(ConsiderRoute(n, st.env, st.k, st.rid), st.k) == Promote(s, IndexOf(s, st.rid));
    }
  }

  lemma EditedAnchored(n: Node, st: Step, sk: SourceKey)
    requires TableOk(n.table) && AnchoredFor(n, sk) && (st.SetCost? || st.Retract? || st.Unlink? || st.Export?)
    ensures AnchoredFor(NodeAfter(n, st), sk)
  {
    hide NodeAfter;
    EditedHead(n, st, sk.key);
  }

  /** An installed route of the source that was never feasible appears exactly
      when a step installs a retracted one. */
  lemma AnchoredExactly(n: Node, st: Step, sk: SourceKey)
    requires TableOk(n.table) && AnchoredFor(n, sk)
    ensures AnchoredFor(NodeAfter(n, st), sk) <==> !InstallsRetracted(n, st, sk)
  {
    if st.Receive? {
      AcceptedAnchored(n, st, sk);
    } else if st.Consider? {
      ConsideredAnchored(n, st, sk);
    } else if st.SetCost? || st.Retract? || st.Unlink? || st.Export? {
      EditedAnchored(n, st, sk);
    }
  }

  ghost predicate NeverInstallsRetracted(net: Net, steps: seq<(nat, Step)>, sk: SourceKey)
    decreases |steps|
  {
    steps != [] ==>
      var pre := steps[..|steps| - 1];
      var last := steps[|steps| - 1];
      && NeverInstallsRetracted(net, pre, sk)
      && (last.0 in Run(net, pre).nodes ==> !InstallsRetracted(Run(net, pre).nodes[last.0], last.1, sk))
  }

  /** Without a retracted route installed there is nothing to revive. */
  lemma {:induction false} NothingToRevive(net: Net, steps: seq<(nat, Step)>, sk: SourceKey)
    requires Initial(net) && GoodRun(net, steps, sk) && NeverInstallsRetracted(net, steps, sk)
    ensures NeverRevives(net, steps, sk)
    ensures forall i :: i in Run(net, steps).nodes ==> AnchoredFor(Run(net, steps).nodes[i], sk)
    decreases |steps|
  {
    if steps != [] {
      var pre := steps[..|steps| - 1];
      var last := steps[|steps| - 1];
      NothingToRevive(net, pre, sk);
      RunKeeps(net, pre, sk);
      var n := Run(net, pre).nodes[last.0];
      AnchoredCannotRevive(n, last.1, sk);
      hide NodeAfter, AnchoredFor, Revives, InstallsRetracted;
      AnchoredExactly(n, last.1, sk);
    }
  }

  lemma AnchoredCannotRevive(n: Node, st: Step, sk: SourceKey)
    requires TableOk(n.table) && AnchoredFor(n, sk)
    ensures !Revives(n, st, sk)
  {
    var s := SlotOf(n, sk.key);
    if s != [] { assert SlotOk(sk.key, s); }
    hide AcceptUpdate;
  }

  /** As long as no retracted route of the source is installed, the graph of all
      its installed finite routes is acyclic. */
  lemma LoopFreeUnlessRetractedInstalled(net: Net, steps: seq<(nat, Step)>, sk: SourceKey, walk: seq<nat>)
    requires Initial(net) && GoodRun(net, steps, sk) && NeverInstallsRetracted(net, steps, sk)
    ensures !Cycle(Run(net, steps), sk, walk)
  {
    NothingToRevive(net, steps, sk);
    LoopFreeUnlessRevived(net, steps, sk, walk);
  }
}

/** What each operation of babeld/route.c, source.c and xroute.c does to a
    node's tables, and the invariants every one of them keeps. Kernel calls
    succeed; messages a node decides to send leave through SendUpdate. */
module BabelNode {
  import opened Options
  import opened Seqno
  import opened BabelTypes

  // ---- Feasibility ----

  /** update_feasible for an existing source. */
  predicate Feasible(src: Source, now: int, d: Distance) {
    || src.time < now - SOURCE_GC_TIME
    || d.metric >= INF
    || Better(d, FeasibilityDistance(src))
  }

  /** route_feasible */
  predicate RouteFeasible(n: Node, env: Env, r: Route) {
    r.src in n.srcs ==> Feasible(n.srcs[r.src], env.now, Advertised(r))
  }

  /** route_expired */
  predicate Expired(env: Env, r: Route) { r.time < env.now - r.holdTime }

  // ---- The source table ----

  /** find_source with create set */
  function EnsureSource(n: Node, now: int, sk: SourceKey, seqno: U16): (n': Node) {
    if sk in n.srcs then n else n.(srcs := n.srcs[sk := Source(seqno, INF, now, 0)])
  }

  /** retain_source */
  function Retain(n: Node, sk: SourceKey): (n': Node) {
    if sk in n.srcs then n.(srcs := n.srcs[sk := n.srcs[sk].(routeCount := n.srcs[sk].routeCount + 1)]) else n
  }

  /** release_source; its assertion is that the counter is positive. */
  function Release(n: Node, sk: SourceKey): (n': Node) {
    if sk in n.srcs && n.srcs[sk].routeCount > 0
    then n.(srcs := n.srcs[sk := n.srcs[sk].(routeCount := n.srcs[sk].routeCount - 1)])
    else n
  }

  /** update_source */
  function UpdatedSource(s: Source, d: Distance, now: int): (s': Source) {
    if d.metric >= INF then s
    else if s.time < now - SOURCE_GC_TIME || Compare(s.seqno, d.seqno) < 0 || (s.seqno == d.seqno && s.metric > d.metric)
    then s.(seqno := d.seqno, metric := d.metric, time := now)
    else s.(time := now)
  }

  function ClampedTime(s: Source, now: int): int { Min(s.time, now) }

  predicate Collectable(s: Source, now: int) {
    ClampedTime(s, now) < now - SOURCE_GC_TIME && s.routeCount == 0
  }

  /** expire_sources: flush_source refuses a source that is in use. */
  function ExpireSources(n: Node, now: int): (n': Node) {
    n.(srcs := Kept(n.srcs, now))
  }

  function Kept(srcs: map<SourceKey, Source>, now: int): (m: map<SourceKey, Source>) {
    map sk | sk in srcs && !Collectable(srcs[sk], now) :: srcs[sk].(time := ClampedTime(srcs[sk], now))
  }

  // ---- Route selection ----

  predicate Acceptable(n: Node, env: Env, r: Route, feasible: bool, exclude: Option<Neigh>) {
    && !Expired(env, r)
    && (feasible ==> RouteFeasible(n, env, r))
    && exclude != Some(r.rid.neigh)
  }

  predicate BestSoFar(n: Node, env: Env, s: seq<Route>, feasible: bool, exclude: Option<Neigh>,
                      j: nat, cur: Option<Route>)
    requires j <= |s|
  {
    && (cur.Some? ==> Acceptable(n, env, cur.value, feasible, exclude) && cur.value in s[..j])
    && (forall i :: 0 <= i < j && Acceptable(n, env, s[i], feasible, exclude) ==>
                      cur.Some? && env.smoothed(cur.value) <= env.smoothed(s[i]))
  }

  /** The scan of find_best_route from position j on, with the best so far. */
  function BestFrom(n: Node, env: Env, s: seq<Route>, feasible: bool, exclude: Option<Neigh>,
                    j: nat, cur: Option<Route>): (b: Option<Route>)
    requires j <= |s| && BestSoFar(n, env, s, feasible, exclude, j, cur)
    ensures b.Some? ==> b.value in s && Acceptable(n, env, b.value, feasible, exclude)
    ensures forall i :: 0 <= i < |s| && Acceptable(n, env, s[i], feasible, exclude) ==>
                          b.Some? && env.smoothed(b.value) <= env.smoothed(s[i])
    decreases |s| - j
  {
    if j == |s| then cur
    else if Acceptable(n, env, s[j], feasible, exclude)
            && (cur.None? || env.smoothed(s[j]) < env.smoothed(cur.value))
    then BestFrom(n, env, s, feasible, exclude, j + 1, Some(s[j]))
    else BestFrom(n, env, s, feasible, exclude, j + 1, cur)
  }

  lemma BestStep(n: Node, env: Env, s: seq<Route>, feasible: bool, exclude: Option<Neigh>,
                 j: nat, cur: Option<Route>)
    requires j < |s| && BestSoFar(n, env, s, feasible, exclude, j, cur)
    ensures var next := if Acceptable(n, env, s[j], feasible, exclude)
                           && (cur.None? || env.smoothed(s[j]) < env.smoothed(cur.value)) then Some(s[j]) else cur;
            && BestSoFar(n, env, s, feasible, exclude, j + 1, next)
            && BestFrom(n, env, s, feasible, exclude, j, cur) == BestFrom(n, env, s, feasible, exclude, j + 1, next)
  {
  }

  /** find_best_route */
  function FindBest(n: Node, env: Env, k: Key, feasible: bool, exclude: Option<Neigh>): (b: Option<Route>)
    ensures b.Some? ==> b.value in SlotOf(n, k) && Acceptable(n, env, b.value, feasible, exclude)
    ensures forall r :: r in SlotOf(n, k) && Acceptable(n, env, r, feasible, exclude) ==>
                          b.Some? && env.smoothed(b.value) <= env.smoothed(r)
  {
    BestFrom(n, env, SlotOf(n, k), feasible, exclude, 0, None)
  }

  function Installed(r: Route): Route { r.(installed := true, anchored := r.refmetric < INF) }

  /** switch_routes or install_route, then move_installed_route: the route at j
      becomes the installed head, the old head is uninstalled. */
  function Promote(s: seq<Route>, j: nat): (r: seq<Route>)
    requires j < |s|
  {
    [Installed(s[j])] +
    if j == 0 then s[1..] else [s[0].(installed := false)] + s[1..j] + s[j + 1..]
  }

  /** The decision of consider_route between the head and a feasible candidate. */
  predicate Preferred(env: Env, head: Route, r: Route) {
    || !head.installed
    || (Metric(r) < INF &&
        (Metric(head) >= INF ||
         (Metric(head) >= Metric(r) && env.smoothed(head) > env.smoothed(r))))
  }

  predicate Installs(n: Node, env: Env, k: Key, rid: RouteId) {
    var s := SlotOf(n, k);
    var j := IndexOf(s, rid);
    && j < |s| && !s[j].installed && RouteFeasible(n, env, s[j]) && k !in n.xroutes
    && Preferred(env, s[0], s[j])
  }

  /** consider_route */
  function ConsiderRoute(n: Node, env: Env, k: Key, rid: RouteId): (n': Node) {
    if Installs(n, env, k, rid)
    then WithSlot(n, k, Promote(SlotOf(n, k), IndexOf(SlotOf(n, k), rid)))
    else n
  }

  function HeadInstalled(s: seq<Route>, rid: RouteId): bool {
    s != [] && s[0].installed && s[0].rid == rid
  }

  /** The first half of route_changed: an installed route looks for a better one. */
  function Reselect(n: Node, env: Env, k: Key, rid: RouteId): (n': Node) {
    var s := SlotOf(n, k);
    if HeadInstalled(s, rid) then
      var best := FindBest(n, env, k, true, None);
      if best.Some? && Metric(best.value) < Metric(s[0]) then ConsiderRoute(n, env, k, best.value.rid) else n
    else n
  }

  /** route_changed */
  function RouteChanged(n: Node, env: Env, k: Key, rid: RouteId): (n': Node) {
    var n1 := Reselect(n, env, k, rid);
    if HeadInstalled(SlotOf(n1, k), rid) then n1 else ConsiderRoute(n1, env, k, rid)
  }

  /** route_lost */
  function RouteLost(n: Node, env: Env, k: Key): (n': Node) {
    var best := FindBest(n, env, k, true, None);
    if best.Some? then ConsiderRoute(n, env, k, best.value.rid) else n
  }

  // ---- Updates ----

  datatype Outcome = Ignored | Changed(oldsrc: SourceKey, lost: bool) | Inserted

  function HoldTime(interval: U16): nat { Max(4 * interval / 100 + interval / 50, 15) }

  /** The route record after an update for it. */
  function Revised(r: Route, env: Env, u: Update, feasible: bool): (r': Route) {
    var keeps := r.installed && (feasible || r.src == u.src);
    r.(src := u.src,
       time := if (feasible || env.keepUnfeasible) && u.refmetric < INF then env.now else r.time,
       seqno := u.seqno, refmetric := u.refmetric,
       cost := env.cost(u.rid.neigh), add := env.filter(u.src, u.rid.neigh),
       holdTime := HoldTime(u.interval), installed := keeps,
       anchored := (feasible && u.refmetric < INF) || (r.src == u.src && r.anchored))
  }

  function NewRoute(env: Env, u: Update): (r: Route) {
    Route(u.src, u.refmetric, env.cost(u.rid.neigh), env.filter(u.src, u.rid.neigh), u.seqno, u.rid,
          env.now, HoldTime(u.interval), false, false)
  }

  /** update_route up to the point where selection starts again. */
  function AcceptUpdate(n: Node, env: Env, u: Update): (res: (Node, Outcome)) {
    var k := u.src.key;
    if u.src.id == n.myid || env.martian(k) || env.filter(u.src, u.rid.neigh) >= INF then (n, Ignored)
    else
      var s := SlotOf(n, k);
      var j := IndexOf(s, u.rid);
      var n1 := EnsureSource(n, env.now, u.src, u.seqno);
      var feasible := Feasible(n1.srcs[u.src], env.now, Distance(u.seqno, u.refmetric));
      if j < |s| then
        (WithSlot(Retain(n1, u.src), k, s[j := Revised(s[j], env, u, feasible)]),
         Changed(s[j].src, s[j].installed && !feasible && s[j].src != u.src))
      else if u.refmetric >= INF || (!feasible && !env.keepUnfeasible) then (n1, Ignored)
      else (WithSlot(Retain(n1, u.src), k, s + [NewRoute(env, u)]), Inserted)
  }

  /** update_route */
  function UpdateRoute(n: Node, env: Env, u: Update): (n': Node) {
    var k := u.src.key;
    match AcceptUpdate(n, env, u)
    case (n1, Ignored) => n1
    case (n1, Inserted) => ConsiderRoute(n1, env, k, u.rid)
    case (n1, Changed(oldsrc, lost)) =>
      var n2 := RouteChanged(n1, env, k, u.rid);
      Release(if lost then RouteLost(n2, env, k) else n2, oldsrc)
  }

  /** Overwrites the metric fields (change_route_metric) and the seqno. */
  function SetMetric(n: Node, k: Key, rid: RouteId, refmetric: U16, cost: U16, add: U16, seqno: U16): (n': Node) {
    var s := SlotOf(n, k);
    var j := IndexOf(s, rid);
    if j == |s| then n
    else WithSlot(n, k, s[j := s[j].(refmetric := refmetric, cost := cost, add := add, seqno := seqno)])
  }

  /** retract_route */
  function RetractRoute(n: Node, k: Key, rid: RouteId, seqno: U16): (n': Node) {
    SetMetric(n, k, rid, INF, INF, 0, seqno)
  }

  /** What retract_neighbour_routes does to one route. */
  function Withdraw(n: Node, env: Env, k: Key, rid: RouteId): (n': Node) {
    var s := SlotOf(n, k);
    var j := IndexOf(s, rid);
    if j == |s| || s[j].refmetric >= INF then n
    else
      var n1 := RetractRoute(n, k, rid, s[j].seqno);
      if Metric(s[j]) < INF then RouteChanged(n1, env, k, rid) else n1
  }

  /** update_route_metric */
  function UpdateRouteMetric(n: Node, env: Env, k: Key, rid: RouteId): (n': Node) {
    var s := SlotOf(n, k);
    var j := IndexOf(s, rid);
    if j == |s| then n
    else
      var r := s[j];
      if Expired(env, r) then
        if r.refmetric < INF then
          var n1 := RetractRoute(n, k, rid, if r.src in n.srcs then Plus(n.srcs[r.src].seqno, 1) else r.seqno);
          if Metric(r) < INF then RouteChanged(n1, env, k, rid) else n1
        else n
      else
        var n1 := SetMetric(n, k, rid, r.refmetric, env.cost(rid.neigh), env.filter(r.src, rid.neigh), r.seqno);
        var r1 := SlotOf(n1, k)[j];
        if Metric(r1) != Metric(r) || env.smoothed(r1) != env.smoothed(r) then RouteChanged(n1, env, k, rid) else n1
  }

  /** flush_route */
  function FlushRoute(n: Node, env: Env, k: Key, rid: RouteId): (n': Node) {
    var s := SlotOf(n, k);
    var j := IndexOf(s, rid);
    if j == |s| then n
    else
      var n1 := WithSlot(n, k, Without(s, j));
      Release(if s[j].installed then RouteLost(n1, env, k) else n1, s[j].src)
  }

  /** uninstall_route on the installed route of a destination, if any */
  function Uninstall(n: Node, k: Key): (n': Node) {
    var s := SlotOf(n, k);
    if s != [] && s[0].installed then WithSlot(n, k, s[0 := s[0].(installed := false)]) else n
  }

  // ---- Exported routes ----

  /** add_xroute; the flag says that something changed. */
  function AddXroute(n: Node, k: Key, x: Xroute): (res: (Node, bool)) {
    if k in n.xroutes then
      if n.xroutes[k].metric <= x.metric then (n, false)
      else (n.(xroutes := n.xroutes[k := n.xroutes[k].(metric := x.metric)]), true)
    else (n.(xroutes := n.xroutes[k := x]), true)
  }

  /** xroute_add_new_route; x.metric is what the redistribute filter says. */
  function XrouteAddNewRoute(n: Node, env: Env, k: Key, x: Xroute): (n': Node) {
    if env.martian(k) || x.metric >= INF then n
    else
      var (n1, changed) := AddXroute(n, k, x);
      if changed then Uninstall(n1, k) else n1
  }

  /** flush_xroute */
  function FlushXroute(n: Node, k: Key): (n': Node) { n.(xroutes := n.xroutes - {k}) }

  // ---- Sending ----

  /** What flushupdates and really_send_update read besides the tables. */
  datatype SendEnv = SendEnv(
    now: int, kernelMetric: nat, interferes: bool, diversityFactor: nat,
    suppressed: bool, linkUp: bool, outputAdd: nat)

  datatype Advert = Advert(src: SourceKey, seqno: U16, metric: U16)

  /** really_send_update: the output filter raises the metric or blocks. */
  function Emit(e: SendEnv, src: SourceKey, seqno: U16, metric: U16): (m: Option<Advert>) {
    if !e.linkUp || e.outputAdd >= INF then None
    else Some(Advert(src, seqno, Min(metric + e.outputAdd, INF)))
  }

  function SentMetric(e: SendEnv, r: Route): (m: U16) {
    if e.interferes then Metric(r) else MetricNoninterfering(r, e.diversityFactor)
  }

  /** One destination of flushupdates on one interface. */
  function SendUpdate(n: Node, k: Key, e: SendEnv): (res: (Node, Option<Advert>)) {
    var s := SlotOf(n, k);
    var hasRoute := s != [] && s[0].installed;
    if k in n.xroutes && (!hasRoute || n.xroutes[k].metric <= e.kernelMetric) then
      (n, Emit(e, SourceKey(n.myid, k), n.myseqno, n.xroutes[k].metric))
    else if hasRoute then
      var r := s[0];
      if e.suppressed then (n, None)
      else
        var d := Distance(r.seqno, SentMetric(e, r));
        (if r.src in n.srcs then n.(srcs := n.srcs[r.src := UpdatedSource(n.srcs[r.src], d, e.now)]) else n,
         Emit(e, r.src, r.seqno, d.metric))
    else (n, Emit(e, SourceKey(n.myid, k), n.myseqno, INF))
  }

  // ---- Every operation keeps the invariants ----

  lemma IndexUnique(k: Key, s: seq<Route>, j: nat)
    requires SlotOk(k, s) && j < |s|
    ensures IndexOf(s, s[j].rid) == j
  {
  }

  lemma PromoteOk(k: Key, s: seq<Route>, j: nat, sk: SourceKey)
    requires SlotOk(k, s) && j < |s|
    ensures SlotOk(k, Promote(s, j))
    ensures Count(Promote(s, j), sk) == Count(s, sk)
  {
    PromoteCount(s, j, sk);
    PromotedFrom(s, j);
    hide Promote, Count;
    var t := Promote(s, j);
    forall i, l | 0 <= i < l < |t| ensures t[i].rid != t[l].rid {
      assert s[Origin(i, j)].rid != s[Origin(l, j)].rid;
    }
  }

  /** Where the route at position i comes from when the one at j is promoted. */
  function Origin(i: nat, j: nat): nat { if i == 0 then j else if i <= j then i - 1 else i }

  lemma PromotedFrom(s: seq<Route>, j: nat)
    requires j < |s|
    ensures var t := Promote(s, j);
            && |t| == |s|
            && (forall i :: 0 <= i < |t| ==> Origin(i, j) < |s| && t[i].rid == s[Origin(i, j)].rid && t[i].src == s[Origin(i, j)].src)
            && (forall i :: 0 < i < |t| ==> if Origin(i, j) == 0 then !t[i].installed else t[i] == s[Origin(i, j)])
  {
  }

  lemma PromoteCount(s: seq<Route>, j: nat, sk: SourceKey)
    requires j < |s|
    ensures Count(Promote(s, j), sk) == Count(s, sk)
  {
    var p := Promote(s, j);
    if j == 0 {
      assert p == s[0 := Installed(s[0])];
      CountUpdate(s, 0, Installed(s[0]), sk);
    } else {
      var t := Without(s, j);
      CountRemove(s, j, sk);
      CountUpdate(t, 0, t[0].(installed := false), sk);
      assert p == [Installed(s[j])] + t[0 := t[0].(installed := false)];
      CountConcat([Installed(s[j])], t[0 := t[0].(installed := false)], sk);
    }
  }

  lemma PromoteKnown(s: seq<Route>, j: nat, srcs: map<SourceKey, Source>)
    requires Known(s, srcs) && j < |s|
    ensures Known(Promote(s, j), srcs) && Promote(s, j) != []
  {
  }

  /** What a changed slot must satisfy for the invariants to survive: the rest
      of the table and the exports are as before. */
  ghost predicate OnlySlot(n: Node, n': Node, k: Key) {
    && n'.xroutes == n.xroutes
    && n'.table - {k} == n.table - {k}
    && n.srcs.Keys <= n'.srcs.Keys
    && (k in n'.table ==>
          && SlotOk(k, n'.table[k]) && Known(n'.table[k], n'.srcs)
          && (k in n.xroutes ==> !n'.table[k][0].installed))
  }

  lemma Elsewhere(t: Table, t': Table, k: Key, q: Key)
    requires t' - {k} == t - {k} && q != k
    ensures q in t <==> q in t'
    ensures q in t ==> t[q] == t'[q]
  {
    assert q in t <==> q in t - {k};
    assert q in t' <==> q in t' - {k};
    if q in t { assert (t - {k})[q] == t[q] && (t' - {k})[q] == t'[q]; }
  }

  lemma OnlySlotKeeps(n: Node, n': Node, k: Key, held: Option<SourceKey>, held': Option<SourceKey>)
    requires NodeOkHolding(n, held) && OnlySlot(n, n', k)
    requires forall sk :: sk in n'.srcs ==> CountOk(n', sk, held')
    requires held'.Some? ==> held'.value in n'.srcs
    ensures NodeOkHolding(n', held')
  {
    forall q | q in n'.table ensures SlotOk(q, n'.table[q]) && Known(n'.table[q], n'.srcs) {
      if q != k {
        Elsewhere(n.table, n'.table, k, q);
        assert SlotOk(q, n.table[q]) && Known(n.table[q], n.srcs);
      }
    }
    forall q | q in n'.xroutes && q in n'.table && n'.table[q] != [] ensures !n'.table[q][0].installed {
      if q != k { Elsewhere(n.table, n'.table, k, q); }
    }
  }

  lemma WithSlotOnly(n: Node, n1: Node, k: Key, s: seq<Route>)
    requires n1.table == n.table && n1.xroutes == n.xroutes && n.srcs.Keys <= n1.srcs.Keys
    requires s != [] ==> SlotOk(k, s) && Known(s, n1.srcs) && (k in n.xroutes ==> !s[0].installed)
    ensures OnlySlot(n, WithSlot(n1, k, s), k)
  {
    assert n.table[k := s] - {k} == n.table - {k};
    assert n.table - {k} - {k} == n.table - {k};
  }

  /** Replacing a slot by one with the same references keeps everything. */
  lemma WithSlotOk(n: Node, k: Key, s: seq<Route>, held: Option<SourceKey>)
    requires NodeOkHolding(n, held) && SlotOk(k, s) && Known(s, n.srcs)
    requires forall sk :: Count(s, sk) == Count(SlotOf(n, k), sk)
    requires k in n.xroutes ==> !s[0].installed
    ensures NodeOkHolding(WithSlot(n, k, s), held)
  {
    var n' := WithSlot(n, k, s);
    forall sk | sk in n'.srcs ensures CountOk(n', sk, held) {
      assert CountOk(n, sk, held);
    }
    WithSlotOnly(n, n, k, s);
    OnlySlotKeeps(n, n', k, held, held);
  }

  /** consider_route keeps the table invariant, the counters and exclusivity. */
  lemma ConsiderKeeps(n: Node, env: Env, k: Key, rid: RouteId, held: Option<SourceKey>)
    requires NodeOkHolding(n, held)
    ensures NodeOkHolding(ConsiderRoute(n, env, k, rid), held)
  {
    if Installs(n, env, k, rid) {
      var s := SlotOf(n, k);
      var j := IndexOf(s, rid);
      assert SlotOk(k, s) && Known(s, n.srcs);
      hide NodeOkHolding, SlotOk, Known, Promote, Count;
      forall sk ensures SlotOk(k, Promote(s, j)) && Count(Promote(s, j), sk) == Count(s, sk) {
        PromoteOk(k, s, j, sk);
      }
      PromoteKnown(s, j, n.srcs);
      WithSlotOk(n, k, Promote(s, j), held);
    }
  }

  lemma RouteChangedKeeps(n: Node, env: Env, k: Key, rid: RouteId, held: Option<SourceKey>)
    requires NodeOkHolding(n, held)
    ensures NodeOkHolding(RouteChanged(n, env, k, rid), held)
  {
    var best := FindBest(n, env, k, true, None);
    if best.Some? { ConsiderKeeps(n, env, k, best.value.rid, held); }
    ConsiderKeeps(Reselect(n, env, k, rid), env, k, rid, held);
  }

  lemma RouteLostKeeps(n: Node, env: Env, k: Key, held: Option<SourceKey>)
    requires NodeOkHolding(n, held)
    ensures NodeOkHolding(RouteLost(n, env, k), held)
  {
    var best := FindBest(n, env, k, true, None);
    if best.Some? { ConsiderKeeps(n, env, k, best.value.rid, held); }
  }

  lemma ReleaseKeeps(n: Node, sk: SourceKey)
    requires NodeOkHolding(n, Some(sk))
    ensures n.srcs[sk].routeCount > 0
    ensures NodeOk(Release(n, sk))
  {
  }

  lemma EnsureSourceKeeps(n: Node, now: int, sk: SourceKey, seqno: U16)
    requires NodeOk(n)
    ensures NodeOk(EnsureSource(n, now, sk, seqno))
  {
    if sk !in n.srcs {
      CountPositive(SlotOf(n, sk.key), sk);
    }
  }

  lemma RevisedSlot(k: Key, s: seq<Route>, j: nat, env: Env, u: Update, feasible: bool)
    requires SlotOk(k, s) && j < |s| && s[j].rid == u.rid && u.src.key == k
    ensures SlotOk(k, s[j := Revised(s[j], env, u, feasible)])
  {
  }

  lemma RetainedCount(n: Node, n': Node, k: Key, src: SourceKey, s': seq<Route>, held: Option<SourceKey>)
    requires NodeOk(n) && src in n.srcs && src.key == k && n' == WithSlot(Retain(n, src), k, s') && s' != []
    requires forall sk :: Count(s', sk) + (if held == Some(sk) then 1 else 0) ==
                          Count(SlotOf(n, k), sk) + if sk == src then 1 else 0
    requires held.Some? ==> held.value.key == k
    ensures forall sk :: sk in n'.srcs ==> CountOk(n', sk, held)
  {
    forall sk | sk in n'.srcs ensures CountOk(n', sk, held) {
      assert CountOk(n, sk, None);
      if sk.key != k { assert SlotOf(n', sk.key) == SlotOf(n, sk.key); }
    }
  }

  /** Storing slot s' for a destination while retaining one of its sources. */
  lemma StoreRetaining(n: Node, k: Key, src: SourceKey, s': seq<Route>, held: Option<SourceKey>)
    requires NodeOk(n) && src in n.srcs && src.key == k
    requires SlotOk(k, s') && Known(s', n.srcs) && (k in n.xroutes ==> !s'[0].installed)
    requires forall sk :: Count(s', sk) + (if held == Some(sk) then 1 else 0) ==
                          Count(SlotOf(n, k), sk) + if sk == src then 1 else 0
    requires held.Some? ==> held.value.key == k && held.value in n.srcs
    ensures NodeOkHolding(WithSlot(Retain(n, src), k, s'), held)
  {
    var n' := WithSlot(Retain(n, src), k, s');
    RetainedCount(n, n', k, src, s', held);
    assert Known(s', Retain(n, src).srcs);
    WithSlotOnly(n, Retain(n, src), k, s');
    OnlySlotKeeps(n, n', k, None, held);
  }

  /** What update_route stores for a route it knows. */
  lemma ChangedForm(n: Node, env: Env, u: Update)
    requires AcceptUpdate(n, env, u).1.Changed?
    ensures var k, s := u.src.key, SlotOf(n, u.src.key);
            var j, n1 := IndexOf(s, u.rid), EnsureSource(n, env.now, u.src, u.seqno);
            && j < |s| && AcceptUpdate(n, env, u).1.oldsrc == s[j].src
            && var feasible := Feasible(n1.srcs[u.src], env.now, Distance(u.seqno, u.refmetric));
               AcceptUpdate(n, env, u).0 == WithSlot(Retain(n1, u.src), k, s[j := Revised(s[j], env, u, feasible)])
  {
  }

  lemma RevisedOk(n: Node, k: Key, j: nat, env: Env, u: Update, feasible: bool)
    requires NodeOk(n) && u.src.key == k && u.src in n.srcs && j < |SlotOf(n, k)| && SlotOf(n, k)[j].rid == u.rid
    ensures var s := SlotOf(n, k);
            var s' := s[j := Revised(s[j], env, u, feasible)];
            && SlotOk(k, s') && Known(s', n.srcs) && (k in n.xroutes ==> !s'[0].installed)
            && s[j].src.key == k && s[j].src in n.srcs
  {
    var s := SlotOf(n, k);
    assert SlotOk(k, s) && Known(s, n.srcs);
    RevisedSlot(k, s, j, env, u, feasible);
  }

  lemma AcceptChangedKeeps(n: Node, env: Env, u: Update)
    requires NodeOk(n) && AcceptUpdate(n, env, u).1.Changed?
    ensures NodeOkHolding(AcceptUpdate(n, env, u).0, Some(AcceptUpdate(n, env, u).1.oldsrc))
  {
    var k, s := u.src.key, SlotOf(n, u.src.key);
    var n1 := EnsureSource(n, env.now, u.src, u.seqno);
    assert SlotOf(n1, k) == s && u.src in n1.srcs;
    ChangedForm(n, env, u);
    hide AcceptUpdate, EnsureSource, NodeOkHolding, SlotOk, Known, Count, WithSlot, Retain;
    EnsureSourceKeeps(n, env.now, u.src, u.seqno);
    var j := IndexOf(s, u.rid);
    var feasible := Feasible(n1.srcs[u.src], env.now, Distance(u.seqno, u.refmetric));
    var r' := Revised(s[j], env, u, feasible);
    RevisedOk(n1, k, j, env, u, feasible);
    forall sk
      ensures Count(s[j := r'], sk) + (if Some(s[j].src) == Some(sk) then 1 else 0) == Count(s, sk) + if sk == u.src then 1 else 0
    {
      CountUpdate(s, j, r', sk);
    }
    StoreRetaining(n1, k, u.src, s[j := r'], Some(s[j].src));
  }

  lemma AcceptInsertedKeeps(n: Node, env: Env, u: Update)
    requires NodeOk(n) && AcceptUpdate(n, env, u).1.Inserted?
    ensures NodeOk(AcceptUpdate(n, env, u).0)
  {
    var k := u.src.key;
    var s := SlotOf(n, k);
    var n1 := EnsureSource(n, env.now, u.src, u.seqno);
    EnsureSourceKeeps(n, env.now, u.src, u.seqno);
    var r := NewRoute(env, u);
    AppendedSlot(k, s, r);
    AppendedKnown(s, r, n1.srcs);
    hide SlotOk, Known, NodeOkHolding, EnsureSource, Retain, WithSlot, Count, NewRoute;
    forall sk ensures Count(s + [r], sk) == Count(s, sk) + if sk == u.src then 1 else 0 {
      CountAppend(s, r, sk);
    }
    StoreRetaining(n1, k, u.src, s + [r], None);
  }

  lemma AcceptIgnoredKeeps(n: Node, env: Env, u: Update)
    requires NodeOk(n) && AcceptUpdate(n, env, u).1.Ignored?
    ensures NodeOk(AcceptUpdate(n, env, u).0)
  {
    EnsureSourceKeeps(n, env.now, u.src, u.seqno);
  }

  lemma SlotKeys(t: Table, k: Key, j: nat)
    requires TableOk(t) && k in t && j < |t[k]|
    ensures t[k][j].src.key == k
  {
  }

  lemma LostEmpty(n: Node, env: Env, k: Key)
    ensures SlotOf(n, k) == [] ==> RouteLost(n, env, k) == n
  {
  }

  lemma AppendedKnown(s: seq<Route>, r: Route, srcs: map<SourceKey, Source>)
    requires Known(s, srcs) && r.src in srcs
    ensures Known(s + [r], srcs)
  {
  }

  lemma AppendedSlot(k: Key, s: seq<Route>, r: Route)
    requires s != [] ==> SlotOk(k, s)
    requires IndexOf(s, r.rid) == |s| && !r.installed && r.src.key == k
    ensures SlotOk(k, s + [r])
  {
  }

  /** update_route keeps every invariant, whatever the update says. */
  lemma UpdateRouteKeeps(n: Node, env: Env, u: Update)
    requires NodeOk(n)
    ensures NodeOk(UpdateRoute(n, env, u))
  {
    var k := u.src.key;
    var (n1, o) := AcceptUpdate(n, env, u);
    match o
    case Ignored => AcceptIgnoredKeeps(n, env, u);
    case Inserted =>
      AcceptInsertedKeeps(n, env, u);
      ConsiderKeeps(n1, env, k, u.rid, None);
    case Changed(oldsrc, lost) =>
      AcceptChangedKeeps(n, env, u);
      RouteChangedKeeps(n1, env, k, u.rid, Some(oldsrc));
      var n2 := RouteChanged(n1, env, k, u.rid);
      RouteLostKeeps(n2, env, k, Some(oldsrc));
      ReleaseKeeps(if lost then RouteLost(n2, env, k) else n2, oldsrc);
  }

  lemma SetMetricKeeps(n: Node, k: Key, rid: RouteId, refmetric: U16, cost: U16, add: U16, seqno: U16)
    requires NodeOk(n)
    ensures NodeOk(SetMetric(n, k, rid, refmetric, cost, add, seqno))
  {
    var s := SlotOf(n, k);
    var j := IndexOf(s, rid);
    if j < |s| {
      var s' := s[j := s[j].(refmetric := refmetric, cost := cost, add := add, seqno := seqno)];
      forall sk ensures Count(s', sk) == Count(s, sk) { CountUpdate(s, j, s'[j], sk); }
      WithSlotOk(n, k, s', None);
    }
  }

  lemma WithdrawKeeps(n: Node, env: Env, k: Key, rid: RouteId)
    requires NodeOk(n)
    ensures NodeOk(Withdraw(n, env, k, rid))
  {
    var s := SlotOf(n, k);
    var j := IndexOf(s, rid);
    if j < |s| {
      hide NodeOkHolding, RouteChanged, SetMetric;
      SetMetricKeeps(n, k, rid, INF, INF, 0, s[j].seqno);
      RouteChangedKeeps(RetractRoute(n, k, rid, s[j].seqno), env, k, rid, None);
    }
  }

  lemma UpdateRouteMetricKeeps(n: Node, env: Env, k: Key, rid: RouteId)
    requires NodeOk(n)
    ensures NodeOk(UpdateRouteMetric(n, env, k, rid))
  {
    var s := SlotOf(n, k);
    var j := IndexOf(s, rid);
    if j < |s| {
      var r := s[j];
      if Expired(env, r) {
        var seqno := if r.src in n.srcs then Plus(n.srcs[r.src].seqno, 1) else r.seqno;
        SetMetricKeeps(n, k, rid, INF, INF, 0, seqno);
        RouteChangedKeeps(RetractRoute(n, k, rid, seqno), env, k, rid, None);
      } else {
        var n1 := SetMetric(n, k, rid, r.refmetric, env.cost(rid.neigh), env.filter(r.src, rid.neigh), r.seqno);
        SetMetricKeeps(n, k, rid, r.refmetric, env.cost(rid.neigh), env.filter(r.src, rid.neigh), r.seqno);
        RouteChangedKeeps(n1, env, k, rid, None);
      }
    }
  }

  lemma WithoutKnown(s: seq<Route>, j: nat, srcs: map<SourceKey, Source>)
    requires Known(s, srcs) && j < |s|
    ensures Known(Without(s, j), srcs)
  {
  }

  lemma WithoutSlot(k: Key, s: seq<Route>, j: nat)
    requires SlotOk(k, s) && j < |s|
    ensures Without(s, j) != [] ==> SlotOk(k, Without(s, j))
    ensures Without(s, j) != [] && !s[0].installed ==> !Without(s, j)[0].installed
  {
  }

  lemma WithoutOk(n: Node, k: Key, j: nat)
    requires NodeOk(n) && j < |SlotOf(n, k)|
    ensures NodeOkHolding(WithSlot(n, k, Without(SlotOf(n, k), j)), Some(SlotOf(n, k)[j].src))
  {
    var s := SlotOf(n, k);
    var t := Without(s, j);
    var n' := WithSlot(n, k, t);
    var held := Some(s[j].src);
    assert SlotOk(k, s) && Known(s, n.srcs);
    WithoutSlot(k, s, j);
    WithoutKnown(s, j, n.srcs);
    forall sk | sk in n'.srcs ensures CountOk(n', sk, held) {
      assert CountOk(n, sk, None);
      CountRemove(s, j, sk);
      if sk.key == k { assert SlotOf(n', k) == t; }
    }
    WithSlotOnly(n, n, k, t);
    OnlySlotKeeps(n, n', k, None, held);
  }

  /** flush_route keeps every invariant although it may reinstall another
      route of the destination. */
  lemma FlushRouteKeeps(n: Node, env: Env, k: Key, rid: RouteId)
    requires NodeOk(n)
    ensures NodeOk(FlushRoute(n, env, k, rid))
  {
    var s := SlotOf(n, k);
    var j := IndexOf(s, rid);
    if j < |s| {
      var n1 := WithSlot(n, k, Without(s, j));
      WithoutOk(n, k, j);
      RouteLostKeeps(n1, env, k, Some(s[j].src));
      ReleaseKeeps(if s[j].installed then RouteLost(n1, env, k) else n1, s[j].src);
    }
  }

  /** An uninstalled destination may be exported. */
  lemma Reexported(n1: Node, n: Node, k: Key)
    requires NodeOk(n1) && n1.xroutes == n.xroutes - {k} && n1 == n.(xroutes := n1.xroutes)
    requires k in n.table && n.table[k] != [] ==> !n.table[k][0].installed
    ensures NodeOk(n)
  {
    forall sk | sk in n.srcs ensures CountOk(n, sk, None) { assert CountOk(n1, sk, None); }
  }

  lemma UninstalledSlot(k: Key, s: seq<Route>, srcs: map<SourceKey, Source>)
    requires SlotOk(k, s) && Known(s, srcs)
    ensures var s' := s[0 := s[0].(installed := false)];
            SlotOk(k, s') && Known(s', srcs) && forall sk :: Count(s', sk) == Count(s, sk)
  {
    var s' := s[0 := s[0].(installed := false)];
    forall sk ensures Count(s', sk) == Count(s, sk) { CountUpdate(s, 0, s'[0], sk); }
  }

  /** The invariants, except that one destination may be exported and installed. */
  ghost predicate OkExcept(n: Node, k: Key) {
    && TableOk(n.table) && RefsOk(n, None)
    && forall q :: q != k && q in n.xroutes && q in n.table && n.table[q] != [] ==> !n.table[q][0].installed
  }

  lemma UninstallKeeps(n: Node, k: Key)
    requires OkExcept(n, k)
    ensures NodeOk(Uninstall(n, k))
  {
    var s := SlotOf(n, k);
    var n0 := n.(xroutes := n.xroutes - {k});
    forall sk | sk in n.srcs ensures CountOk(n0, sk, None) { assert CountOk(n, sk, None); }
    if s != [] && s[0].installed {
      var s' := s[0 := s[0].(installed := false)];
      assert SlotOk(k, s) && Known(s, n.srcs);
      hide SlotOk, Known, Count;
      UninstalledSlot(k, s, n.srcs);
      WithSlotOk(n0, k, s', None);
      Reexported(WithSlot(n0, k, s'), Uninstall(n, k), k);
    } else {
      hide SlotOk, Known, Count;
      Reexported(n0, n, k);
    }
  }

  lemma AddXrouteKeeps(n: Node, k: Key, x: Xroute)
    requires NodeOk(n)
    ensures OkExcept(AddXroute(n, k, x).0, k)
    ensures !AddXroute(n, k, x).1 ==> AddXroute(n, k, x).0 == n
  {
    var n1 := AddXroute(n, k, x).0;
    forall sk | sk in n1.srcs ensures CountOk(n1, sk, None) { assert CountOk(n, sk, None); }
  }

  /** Exporting a destination uninstalls its Babel route: xroutes and installed
      routes stay disjoint. */
  lemma XrouteAddKeeps(n: Node, env: Env, k: Key, x: Xroute)
    requires NodeOk(n)
    ensures NodeOk(XrouteAddNewRoute(n, env, k, x))
  {
    AddXrouteKeeps(n, k, x);
    hide OkExcept, NodeOkHolding, Uninstall, AddXroute;
    UninstallKeeps(AddXroute(n, k, x).0, k);
  }

  lemma FlushXrouteKeeps(n: Node, k: Key)
    requires NodeOk(n)
    ensures NodeOk(FlushXroute(n, k))
  {
    var n' := FlushXroute(n, k);
    forall sk | sk in n'.srcs ensures CountOk(n', sk, None) { assert CountOk(n, sk, None); }
  }

  /** expire_sources frees no source that a route points to. */
  lemma ExpireSourcesKeeps(n: Node, now: int)
    requires NodeOk(n)
    ensures NodeOk(ExpireSources(n, now))
    ensures forall k, j :: k in n.table && 0 <= j < |n.table[k]| ==>
                             n.table[k][j].src in ExpireSources(n, now).srcs
  {
    forall k, j | k in n.table && 0 <= j < |n.table[k]|
      ensures n.table[k][j].src in ExpireSources(n, now).srcs
    {
      var sk := n.table[k][j].src;
      CountPositive(SlotOf(n, k), sk);
      assert sk.key == k;
    }
    forall sk | sk in ExpireSources(n, now).srcs
      ensures SlotOf(ExpireSources(n, now), sk.key) == SlotOf(n, sk.key)
    {
    }
  }

  lemma SendUpdateKeeps(n: Node, k: Key, e: SendEnv)
    requires NodeOk(n)
    ensures NodeOk(SendUpdate(n, k, e).0)
  {
    var n' := SendUpdate(n, k, e).0;
    forall sk | sk in n'.srcs ensures SlotOf(n', sk.key) == SlotOf(n, sk.key) { }
  }
}

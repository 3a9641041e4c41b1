/** Any number of Babel nodes over a network that loses, duplicates and
    reorders: forwarding along installed routes to one source never loops.

    A step is one piece of a node operation between two points where babeld may
    flush pending updates, so every interleaving of sends with the inside of
    update_route, flush_route or update_route_metric is a sequence of steps
    (see OperationIsSteps). A message stays deliverable until it is lost. */
module BabelNetwork {
  import opened Seqno
  import opened BabelTypes
  import opened BabelNode

  datatype Message = Message(from: nat, adv: Advert)

  datatype Net = Net(nodes: map<nat, Node>, msgs: set<Message>)

  datatype Step =
    | Receive(m: Message, ifp: nat, nexthop: nat, interval: U16, env: Env)
    | Consider(k: Key, rid: RouteId, env: Env)
    | SetCost(k: Key, rid: RouteId, cost: U16, add: U16)
    | Retract(k: Key, rid: RouteId, seqno: U16)
    | Unlink(k: Key, rid: RouteId)
    | ReleaseRef(sk: SourceKey)
    | Export(k: Key, x: Xroute, env: Env)
    | Unexport(k: Key)
    | Expire(now: int)
    | BumpSeqno
    | Send(k: Key, e: SendEnv)
    | Lose(m: Message)

  function UpdateOf(m: Message, ifp: nat, nexthop: nat, interval: U16): Update {
    Update(m.adv.src, m.adv.seqno, m.adv.metric, interval, RouteId(Neigh(m.from, ifp), nexthop))
  }

  /** The effect of a step on the node that takes it. */
  function NodeAfter(n: Node, st: Step): (n': Node) {
    match st
    case Receive(m, ifp, nexthop, interval, env) => AcceptUpdate(n, env, UpdateOf(m, ifp, nexthop, interval)).0
    case Consider(k, rid, env) => ConsiderRoute(n, env, k, rid)
    case SetCost(k, rid, cost, add) =>
      var s := SlotOf(n, k);
      var j := IndexOf(s, rid);
      if j == |s| then n else SetMetric(n, k, rid, s[j].refmetric, cost, add, s[j].seqno)
    case Retract(k, rid, seqno) => RetractRoute(n, k, rid, seqno)
    case Unlink(k, rid) =>
      var s := SlotOf(n, k);
      var j := IndexOf(s, rid);
      if j == |s| then n else WithSlot(n, k, Without(s, j))
    case ReleaseRef(sk) => Release(n, sk)
    case Export(k, x, env) => XrouteAddNewRoute(n, env, k, x)
    case Unexport(k) => FlushXroute(n, k)
    case Expire(now) => ExpireSources(n, now)
    case BumpSeqno => n.(myseqno := Plus(n.myseqno, 1))
    case Send(k, e) => SendUpdate(n, k, e).0
    case Lose(_) => n
  }

  function MessagesAfter(net: Net, i: nat, st: Step): (ms: set<Message>)
    requires i in net.nodes
  {
    match st
    case Send(k, e) =>
      var m := SendUpdate(net.nodes[i], k, e).1;
      if m.Some? then net.msgs + {Message(i, m.value)} else net.msgs
    case Lose(m) => net.msgs - {m}
    case _ => net.msgs
  }

  /** Node i takes a step. */
  function Apply(net: Net, i: nat, st: Step): (net': Net) {
    if i !in net.nodes then net
    else Net(net.nodes[i := NodeAfter(net.nodes[i], st)], MessagesAfter(net, i, st))
  }

  function Run(net: Net, steps: seq<(nat, Step)>): (net': Net) {
    if steps == [] then net
    else
      var last := steps[|steps| - 1];
      Apply(Run(net, steps[..|steps| - 1]), last.0, last.1)
  }

  // ---- Hypotheses ----

  ghost predicate Initial(net: Net) {
    && net.msgs == {}
    && forall i :: i in net.nodes ==> net.nodes[i].table == map[] && net.nodes[i].srcs == map[]
  }

  predicate Fresh(n: Node, sk: SourceKey, now: int) {
    sk in n.srcs ==> n.srcs[sk].time >= now - SOURCE_GC_TIME
  }

  /** What is asked of one step: a message is delivered only while it is in the
      network, links cost at least 1, and the node's entry for the source is
      younger than SOURCE_GC_TIME. */
  ghost predicate Admissible(net: Net, i: nat, st: Step, sk: SourceKey) {
    && i in net.nodes
    && match st
       case Receive(m, ifp, _, _, env) =>
         m in net.msgs && env.cost(Neigh(m.from, ifp)) >= 1 && Fresh(net.nodes[i], sk, env.now)
       case Consider(_, _, env) => Fresh(net.nodes[i], sk, env.now)
       case SetCost(_, _, cost, _) => cost >= 1
       case Expire(now) => Fresh(net.nodes[i], sk, now)
       case Send(_, e) => Fresh(net.nodes[i], sk, e.now)
       case _ => true
  }

  /** The seqnos that are live for a source fit in half the number space. */
  ghost predicate WindowAt(net: Net, sk: SourceKey, base: U16) {
    && (forall i :: i in net.nodes && sk in net.nodes[i].srcs ==> InWindow(base, net.nodes[i].srcs[sk].seqno))
    && (forall m :: m in net.msgs && m.adv.src == sk && m.adv.metric < INF ==> InWindow(base, m.adv.seqno))
    && (forall i :: i in net.nodes ==> SlotInWindow(SlotOf(net.nodes[i], sk.key), sk, base))
  }

  predicate SlotInWindow(s: seq<Route>, sk: SourceKey, base: U16) {
    forall j :: 0 <= j < |s| && s[j].src == sk && s[j].refmetric < INF ==> InWindow(base, s[j].seqno)
  }

  ghost predicate Window(net: Net, sk: SourceKey) {
    exists base: U16 :: WindowAt(net, sk, base)
  }

  ghost predicate GoodRun(net: Net, steps: seq<(nat, Step)>, sk: SourceKey)
    decreases |steps|
  {
    && Window(Run(net, steps), sk)
    && (steps != [] ==>
          var pre := steps[..|steps| - 1];
          var last := steps[|steps| - 1];
          GoodRun(net, pre, sk) && Admissible(Run(net, pre), last.0, last.1, sk))
  }

  // ---- The forwarding graph ----

  function Fd(n: Node, sk: SourceKey): Distance
    requires sk in n.srcs
  {
    FeasibilityDistance(n.srcs[sk])
  }

  predicate Forwards(r: Route, sk: SourceKey, j: nat) {
    r.installed && r.src == sk && Metric(r) < INF && r.rid.neigh.node == j
  }

  /** Node i sends traffic for the source to node j. */
  ghost predicate Edge(net: Net, sk: SourceKey, i: nat, j: nat) {
    i in net.nodes &&
    var s := SlotOf(net.nodes[i], sk.key);
    exists p :: 0 <= p < |s| && Forwards(s[p], sk, j)
  }

  /** The same, over routes that have been fed a feasible finite update. */
  ghost predicate AnchoredEdge(net: Net, sk: SourceKey, i: nat, j: nat) {
    i in net.nodes &&
    var s := SlotOf(net.nodes[i], sk.key);
    exists p :: 0 <= p < |s| && Forwards(s[p], sk, j) && s[p].anchored
  }

  /** A closed walk along anchored edges. */
  ghost predicate AnchoredCycle(net: Net, sk: SourceKey, walk: seq<nat>) {
    && |walk| >= 2 && walk[0] == walk[|walk| - 1]
    && forall p :: 0 <= p < |walk| - 1 ==> AnchoredEdge(net, sk, walk[p], walk[p + 1])
  }

  ghost predicate Cycle(net: Net, sk: SourceKey, walk: seq<nat>) {
    && |walk| >= 2 && walk[0] == walk[|walk| - 1]
    && forall p :: 0 <= p < |walk| - 1 ==> Edge(net, sk, walk[p], walk[p + 1])
  }

  // ---- The invariant ----

  predicate Origin(n: Node, sk: SourceKey) { n.myid == sk.id }

  /** Node j's feasibility distance is as good as d, which it advertised. */
  ghost predicate Vouched(net: Net, sk: SourceKey, j: nat, d: Distance) {
    && j in net.nodes
    && (Origin(net.nodes[j], sk) || (sk in net.nodes[j].srcs && AsGood(Fd(net.nodes[j], sk), d)))
  }

  /** Node j's feasibility distance is strictly better than node n's. */
  ghost predicate Below(net: Net, sk: SourceKey, j: nat, n: Node) {
    && j in net.nodes
    && (Origin(net.nodes[j], sk) ||
        (sk in net.nodes[j].srcs && sk in n.srcs && Better(Fd(net.nodes[j], sk), Fd(n, sk))))
  }

  ghost predicate RouteInv(net: Net, sk: SourceKey, n: Node, r: Route) {
    && r.cost >= 1
    && sk in n.srcs && !Origin(n, sk)
    && (r.refmetric < INF ==> Vouched(net, sk, r.rid.neigh.node, Advertised(r)))
    && (r.installed && r.anchored ==> Below(net, sk, r.rid.neigh.node, n))
  }

  ghost predicate NodeInv(net: Net, sk: SourceKey, n: Node) {
    var s := SlotOf(n, sk.key);
    && (s != [] ==> SlotOk(sk.key, s))
    && forall j :: 0 <= j < |s| && s[j].src == sk ==> RouteInv(net, sk, n, s[j])
  }

  ghost predicate HasAnchor(n: Node, sk: SourceKey) {
    var s := SlotOf(n, sk.key);
    exists p :: 0 <= p < |s| && s[p].src == sk && s[p].installed && s[p].anchored
  }

  ghost predicate MessageInv(net: Net, sk: SourceKey, m: Message) {
    m.adv.src == sk && m.adv.metric < INF ==> Vouched(net, sk, m.from, Distance(m.adv.seqno, m.adv.metric))
  }

  ghost predicate Inv(net: Net, sk: SourceKey) {
    && (forall i :: i in net.nodes ==> NodeInv(net, sk, net.nodes[i]))
    && (forall m :: m in net.msgs ==> MessageInv(net, sk, m))
  }

  // ---- One node changes ----

  /** The feasibility distance for the source survives and only improves. */
  predicate FdImproves(n: Node, n': Node, sk: SourceKey) {
    sk in n.srcs ==> sk in n'.srcs && AsGood(Fd(n', sk), Fd(n, sk))
  }

  ghost predicate NodeChange(net: Net, net': Net, sk: SourceKey, i: nat, n': Node, base: U16) {
    && i in net.nodes
    && net'.nodes == net.nodes[i := n']
    && n'.myid == net.nodes[i].myid
    && FdImproves(net.nodes[i], n', sk)
    && WindowAt(net, sk, base)
    && (sk in net.nodes[i].srcs && sk in n'.srcs ==> InWindow(base, n'.srcs[sk].seqno))
  }

  lemma VouchedStays(net: Net, net': Net, sk: SourceKey, i: nat, n': Node, base: U16, j: nat, d: Distance)
    requires NodeChange(net, net', sk, i, n', base)
    requires Vouched(net, sk, j, d) && InWindow(base, d.seqno)
    ensures Vouched(net', sk, j, d)
  {
    if j == i && sk in net.nodes[i].srcs && sk in n'.srcs {
      BetterTransitive(base, Fd(n', sk), Fd(net.nodes[i], sk), d);
    }
  }

  lemma BelowStays(net: Net, net': Net, sk: SourceKey, i: nat, n': Node, base: U16, j: nat, n: Node)
    requires NodeChange(net, net', sk, i, n', base)
    requires Below(net, sk, j, n) && (sk in n.srcs ==> InWindow(base, n.srcs[sk].seqno))
    ensures Below(net', sk, j, n)
  {
    if j == i && sk in net.nodes[i].srcs && sk in n'.srcs && sk in n.srcs {
      BetterTransitive(base, Fd(n', sk), Fd(net.nodes[i], sk), Fd(n, sk));
    }
  }

  lemma NodeInvStays(net: Net, net': Net, sk: SourceKey, i: nat, n': Node, base: U16, n: Node)
    requires NodeChange(net, net', sk, i, n', base) && NodeInv(net, sk, n)
    requires SlotInWindow(SlotOf(n, sk.key), sk, base)
    requires HasAnchor(n, sk) && sk in n.srcs ==> InWindow(base, n.srcs[sk].seqno)
    ensures NodeInv(net', sk, n)
  {
    var s := SlotOf(n, sk.key);
    forall j | 0 <= j < |s| && s[j].src == sk ensures RouteInv(net', sk, n, s[j]) {
      assert RouteInv(net, sk, n, s[j]);
      if s[j].refmetric < INF { VouchedStays(net, net', sk, i, n', base, s[j].rid.neigh.node, Advertised(s[j])); }
      if s[j].installed && s[j].anchored { BelowStays(net, net', sk, i, n', base, s[j].rid.neigh.node, n); }
    }
  }

  /** If the changed node satisfies its part against the old network, and new
      messages are vouched for, the whole invariant survives. */
  lemma NodeChangeKeeps(net: Net, net': Net, sk: SourceKey, i: nat, n': Node, base: U16)
    requires Inv(net, sk) && NodeChange(net, net', sk, i, n', base)
    requires NodeInv(net, sk, n') && SlotInWindow(SlotOf(n', sk.key), sk, base)
    requires HasAnchor(n', sk) && sk in n'.srcs ==> InWindow(base, n'.srcs[sk].seqno)
    requires forall m :: m in net'.msgs && m !in net.msgs ==> MessageInv(net', sk, m)
    ensures Inv(net', sk)
  {
    forall q | q in net'.nodes ensures NodeInv(net', sk, net'.nodes[q]) {
      if q == i {
        NodeInvStays(net, net', sk, i, n', base, n');
      } else {
        assert NodeInv(net, sk, net.nodes[q]);
        NodeInvStays(net, net', sk, i, n', base, net.nodes[q]);
      }
    }
    forall m | m in net'.msgs ensures MessageInv(net', sk, m) {
      if m in net.msgs && m.adv.src == sk && m.adv.metric < INF {
        assert MessageInv(net, sk, m);
        VouchedStays(net, net', sk, i, n', base, m.from, Distance(m.adv.seqno, m.adv.metric));
      }
    }
  }

  // ---- Steps that leave the source table alone ----

  /** A slot whose routes for the source are old ones, at most uninstalled,
      with other link costs, or retracted. */
  predicate Weakened(r: Route, r': Route) {
    && r'.src == r.src && r'.rid == r.rid
    && (r.cost >= 1 ==> r'.cost >= 1)
    && (r'.refmetric < INF ==> Advertised(r') == Advertised(r))
    && (r'.installed && r'.anchored ==> r.installed && r.anchored)
  }

  ghost predicate SlotWeakened(s: seq<Route>, s': seq<Route>, sk: SourceKey) {
    forall p :: 0 <= p < |s'| && s'[p].src == sk ==>
      exists q :: 0 <= q < |s| && Weakened(s[q], s'[p])
  }

  lemma WeakenedKeeps(net: Net, sk: SourceKey, i: nat, n': Node, base: U16)
    requires Inv(net, sk) && i in net.nodes && WindowAt(net, sk, base)
    requires n'.myid == net.nodes[i].myid
    requires sk in net.nodes[i].srcs ==> sk in n'.srcs && Fd(n', sk) == Fd(net.nodes[i], sk)
    requires sk !in net.nodes[i].srcs ==> sk !in n'.srcs || SlotOf(n', sk.key) == SlotOf(net.nodes[i], sk.key)
    requires SlotWeakened(SlotOf(net.nodes[i], sk.key), SlotOf(n', sk.key), sk)
    requires SlotOf(n', sk.key) != [] ==> SlotOk(sk.key, SlotOf(n', sk.key))
    ensures NodeInv(net, sk, n') && SlotInWindow(SlotOf(n', sk.key), sk, base)
  {
    var n := net.nodes[i];
    var s, s' := SlotOf(n, sk.key), SlotOf(n', sk.key);
    forall p | 0 <= p < |s'| && s'[p].src == sk
      ensures RouteInv(net, sk, n', s'[p])
      ensures s'[p].refmetric < INF ==> InWindow(base, s'[p].seqno)
    {
      var q :| 0 <= q < |s| && Weakened(s[q], s'[p]);
      assert RouteInv(net, sk, n, s[q]);
      assert SlotInWindow(s, sk, base);
    }
  }

  lemma SameSlotWeakened(s: seq<Route>, sk: SourceKey)
    ensures SlotWeakened(s, s, sk)
  {
    forall p | 0 <= p < |s| && s[p].src == sk ensures exists q :: 0 <= q < |s| && Weakened(s[q], s[p]) {
      assert Weakened(s[p], s[p]);
    }
  }

  lemma EditedSlotWeakened(s: seq<Route>, j: nat, r: Route, sk: SourceKey)
    requires j < |s| && Weakened(s[j], r)
    ensures SlotWeakened(s, s[j := r], sk)
  {
    var t := s[j := r];
    forall p | 0 <= p < |t| && t[p].src == sk ensures exists q :: 0 <= q < |s| && Weakened(s[q], t[p]) {
      assert Weakened(s[p], t[p]);
    }
  }

  lemma ShrunkSlotWeakened(s: seq<Route>, j: nat, sk: SourceKey)
    requires j < |s|
    ensures SlotWeakened(s, Without(s, j), sk)
  {
    var t := Without(s, j);
    forall p | 0 <= p < |t| && t[p].src == sk ensures exists q :: 0 <= q < |s| && Weakened(s[q], t[p]) {
      assert Weakened(s[if p < j then p else p + 1], t[p]);
    }
  }

  /** Steps that only remove, uninstall, reprice or retract. */
  predicate IsQuiet(st: Step) {
    !st.Receive? && !st.Consider? && !st.Send?
  }

  ghost predicate QuietEffect(n: Node, n': Node, sk: SourceKey) {
    && n'.myid == n.myid
    && (sk in n.srcs <==> sk in n'.srcs) && (sk in n.srcs ==> Fd(n', sk) == Fd(n, sk))
    && SlotWeakened(SlotOf(n, sk.key), SlotOf(n', sk.key), sk)
    && (SlotOf(n', sk.key) != [] ==> SlotOk(sk.key, SlotOf(n', sk.key)))
  }

  lemma QuietEdit(n: Node, sk: SourceKey, k: Key, rid: RouteId, refmetric: U16, cost: U16, add: U16, seqno: U16)
    requires SlotOf(n, sk.key) != [] ==> SlotOk(sk.key, SlotOf(n, sk.key))
    requires var s := SlotOf(n, k);
             var j := IndexOf(s, rid);
             j < |s| ==> cost >= 1 && (refmetric < INF ==> refmetric == s[j].refmetric && seqno == s[j].seqno)
    ensures QuietEffect(n, SetMetric(n, k, rid, refmetric, cost, add, seqno), sk)
  {
    var s := SlotOf(n, k);
    var j := IndexOf(s, rid);
    SameSlotWeakened(SlotOf(n, sk.key), sk);
    if j < |s| {
      var r := s[j].(refmetric := refmetric, cost := cost, add := add, seqno := seqno);
      EditedSlotWeakened(s, j, r, sk);
      assert k == sk.key ==> SlotOk(k, s[j := r]);
    }
  }

  lemma QuietUnlink(n: Node, sk: SourceKey, k: Key, j: nat)
    requires SlotOf(n, sk.key) != [] ==> SlotOk(sk.key, SlotOf(n, sk.key))
    requires j < |SlotOf(n, k)|
    ensures QuietEffect(n, WithSlot(n, k, Without(SlotOf(n, k), j)), sk)
  {
    var n' := WithSlot(n, k, Without(SlotOf(n, k), j));
    SameSlotWeakened(SlotOf(n, sk.key), sk);
    if k == sk.key {
      ShrunkSlotWeakened(SlotOf(n, k), j, sk);
      assert SlotOf(n', k) == Without(SlotOf(n, k), j);
    } else {
      assert SlotOf(n', sk.key) == SlotOf(n, sk.key);
    }
  }

  lemma QuietUninstall(n: Node, sk: SourceKey, k: Key)
    requires SlotOf(n, sk.key) != [] ==> SlotOk(sk.key, SlotOf(n, sk.key))
    ensures QuietEffect(n, Uninstall(n, k), sk)
  {
    var s := SlotOf(n, k);
    SameSlotWeakened(SlotOf(n, sk.key), sk);
    if s != [] {
      EditedSlotWeakened(s, 0, s[0].(installed := false), sk);
      assert k == sk.key ==> SlotOk(k, s[0 := s[0].(installed := false)]);
    }
  }

  lemma QuietStep(net: Net, sk: SourceKey, i: nat, st: Step)
    requires Inv(net, sk) && Admissible(net, i, st, sk) && IsQuiet(st)
    ensures QuietEffect(net.nodes[i], NodeAfter(net.nodes[i], st), sk)
  {
    var n, n' := net.nodes[i], NodeAfter(net.nodes[i], st);
    assert NodeInv(net, sk, n);
    SameSlotWeakened(SlotOf(n, sk.key), sk);
    match st
    case SetCost(k, rid, cost, add) =>
      var s := SlotOf(n, k);
      var j := IndexOf(s, rid);
      if j < |s| { QuietEdit(n, sk, k, rid, s[j].refmetric, cost, add, s[j].seqno); }
    case Retract(k, rid, seqno) => QuietEdit(n, sk, k, rid, INF, INF, 0, seqno);
    case Unlink(k, rid) =>
      var j := IndexOf(SlotOf(n, k), rid);
      if j < |SlotOf(n, k)| { QuietUnlink(n, sk, k, j); }
    case Export(k, x, env) => QuietUninstall(AddXroute(n, k, x).0, sk, k);
    case _ =>
  }

  // ---- Installing ----

  /** A feasible finite route leads to a node with a strictly better distance. */
  lemma FeasibleIsBelow(net: Net, sk: SourceKey, n: Node, now: int, base: U16, j: nat, d: Distance)
    requires WindowAt(net, sk, base) && InWindow(base, d.seqno) && d.metric < INF
    requires Vouched(net, sk, j, d)
    requires sk in n.srcs && InWindow(base, n.srcs[sk].seqno)
    requires Feasible(n.srcs[sk], now, d) && n.srcs[sk].time >= now - SOURCE_GC_TIME
    ensures Below(net, sk, j, n)
  {
    if !Origin(net.nodes[j], sk) {
      BetterTransitive(base, Fd(net.nodes[j], sk), d, Fd(n, sk));
    }
  }

  lemma PromotedElement(s: seq<Route>, j: nat, p: nat)
    requires j < |s| && p < |s|
    ensures |Promote(s, j)| == |s|
    ensures p == 0 ==> Promote(s, j)[p] == Installed(s[j])
    ensures p > 0 && j == 0 ==> Promote(s, j)[p] == s[p]
    ensures p > 0 && j > 0 ==>
              var q := if p <= j then p - 1 else p;
              Promote(s, j)[p] == s[q] || Promote(s, j)[p] == s[q].(installed := false)
  {
  }

  lemma ConsiderStep(net: Net, sk: SourceKey, i: nat, k: Key, rid: RouteId, env: Env, base: U16)
    requires Inv(net, sk) && i in net.nodes && WindowAt(net, sk, base) && Fresh(net.nodes[i], sk, env.now)
    ensures var n' := ConsiderRoute(net.nodes[i], env, k, rid);
            NodeInv(net, sk, n') && SlotInWindow(SlotOf(n', sk.key), sk, base)
  {
    var n := net.nodes[i];
    var n' := ConsiderRoute(n, env, k, rid);
    assert NodeInv(net, sk, n);
    if k == sk.key && Installs(n, env, k, rid) {
      var s := SlotOf(n, k);
      var j := IndexOf(s, rid);
      PromoteOk(k, s, j, sk);
      var s' := Promote(s, j);
      assert SlotOf(n', k) == s';
      forall p | 0 <= p < |s'| && s'[p].src == sk
        ensures RouteInv(net, sk, n', s'[p])
        ensures s'[p].refmetric < INF ==> InWindow(base, s'[p].seqno)
      {
        PromotedElement(s, j, p);
        assert SlotInWindow(s, sk, base);
        if p == 0 {
          assert RouteInv(net, sk, n, s[j]);
          if s[j].refmetric < INF {
            FeasibleIsBelow(net, sk, n, env.now, base, s[j].rid.neigh.node, Advertised(s[j]));
          }
        } else {
          var q := if j == 0 then p else if p <= j then p - 1 else p;
          assert RouteInv(net, sk, n, s[q]);
        }
      }
    } else {
      assert SlotOf(n', sk.key) == SlotOf(n, sk.key);
      forall p | 0 <= p < |SlotOf(n, sk.key)| && SlotOf(n, sk.key)[p].src == sk
        ensures RouteInv(net, sk, n', SlotOf(n, sk.key)[p])
      {
        assert RouteInv(net, sk, n, SlotOf(n, sk.key)[p]);
      }
    }
  }

  // ---- Receiving ----

  /** The node after a step that adds at most one new route, r'. */
  lemma WithReceived(net: Net, sk: SourceKey, n: Node, n': Node, r': Route, base: U16)
    requires NodeInv(net, sk, n) && SlotInWindow(SlotOf(n, sk.key), sk, base) && n'.myid == n.myid
    requires sk in n.srcs ==> sk in n'.srcs && Fd(n', sk) == Fd(n, sk)
    requires SlotOf(n', sk.key) != [] ==> SlotOk(sk.key, SlotOf(n', sk.key))
    requires forall p :: 0 <= p < |SlotOf(n', sk.key)| ==> SlotOf(n', sk.key)[p] in SlotOf(n, sk.key) + [r']
    requires r'.src == sk ==> RouteInv(net, sk, n', r') && (r'.refmetric < INF ==> InWindow(base, r'.seqno))
    ensures NodeInv(net, sk, n') && SlotInWindow(SlotOf(n', sk.key), sk, base)
  {
    var s, s' := SlotOf(n, sk.key), SlotOf(n', sk.key);
    forall p | 0 <= p < |s'| && s'[p].src == sk
      ensures RouteInv(net, sk, n', s'[p]) && (s'[p].refmetric < INF ==> InWindow(base, s'[p].seqno))
    {
      if s'[p] != r' {
        assert s'[p] in s;
        var q :| 0 <= q < |s| && s[q] == s'[p];
        assert RouteInv(net, sk, n, s[q]);
      }
    }
  }

  lemma RevisedInv(net: Net, sk: SourceKey, n: Node, n': Node, r: Route, u: Update, env: Env, feasible: bool, base: U16)
    requires u.src == sk && RevisedPre(net, sk, n, n', u, env, feasible, base)
    requires r.src == sk ==> RouteInv(net, sk, n, r) && r.rid == u.rid
    requires r.rid == u.rid
    ensures RouteInv(net, sk, n', Revised(r, env, u, feasible))
  {
    var r' := Revised(r, env, u, feasible);
    if r'.installed && r'.anchored && feasible && u.refmetric < INF {
      FeasibleIsBelow(net, sk, n', env.now, base, u.rid.neigh.node, Distance(u.seqno, u.refmetric));
    }
  }

  ghost predicate RevisedPre(net: Net, sk: SourceKey, n: Node, n': Node, u: Update, env: Env, feasible: bool, base: U16) {
    && WindowAt(net, sk, base) && n'.myid == n.myid && !Origin(n, sk) && env.cost(u.rid.neigh) >= 1
    && sk in n'.srcs && (sk in n.srcs ==> Fd(n', sk) == Fd(n, sk))
    && (u.refmetric < INF ==>
          && InWindow(base, u.seqno) && InWindow(base, n'.srcs[sk].seqno)
          && Vouched(net, sk, u.rid.neigh.node, Distance(u.seqno, u.refmetric)))
    && feasible == Feasible(n'.srcs[sk], env.now, Distance(u.seqno, u.refmetric))
    && n'.srcs[sk].time >= env.now - SOURCE_GC_TIME
  }

  ghost predicate ReceiveEffect(net: Net, sk: SourceKey, n: Node, n': Node, base: U16) {
    && (sk in n.srcs ==> sk in n'.srcs && Fd(n', sk) == Fd(n, sk)) && n'.myid == n.myid
    && NodeInv(net, sk, n') && SlotInWindow(SlotOf(n', sk.key), sk, base)
    && (HasAnchor(n', sk) && sk in n'.srcs ==> InWindow(base, n'.srcs[sk].seqno))
  }

  /** The anchored routes of a node that has just received something are old
      ones, or the new one. */
  lemma ReceivedAnchor(net: Net, sk: SourceKey, n: Node, n': Node, r': Route)
    requires NodeInv(net, sk, n) && HasAnchor(n', sk)
    requires forall p :: 0 <= p < |SlotOf(n', sk.key)| ==> SlotOf(n', sk.key)[p] in SlotOf(n, sk.key) + [r']
    ensures sk in n.srcs || (r'.src == sk && r'.installed && r'.anchored)
  {
    var s, s' := SlotOf(n, sk.key), SlotOf(n', sk.key);
    var p :| 0 <= p < |s'| && s'[p].src == sk && s'[p].installed && s'[p].anchored;
    if s'[p] != r' {
      assert s'[p] in s;
      var q :| 0 <= q < |s| && s[q] == s'[p];
      assert RouteInv(net, sk, n, s[q]);
    }
  }

  lemma ReceiveChanged(net: Net, sk: SourceKey, n: Node, u: Update, env: Env, base: U16)
    requires ReceivePre(net, sk, n, u, env, base) && AcceptUpdate(n, env, u).1.Changed?
    ensures ReceiveEffect(net, sk, n, AcceptUpdate(n, env, u).0, base)
  {
    var n' := AcceptUpdate(n, env, u).0;
    var n1 := EnsureSource(n, env.now, u.src, u.seqno);
    var feasible := Feasible(n1.srcs[u.src], env.now, Distance(u.seqno, u.refmetric));
    var s := SlotOf(n, sk.key);
    var j := IndexOf(s, u.rid);
    var r' := Revised(s[j], env, u, feasible);
    if u.src == sk {
      assert RevisedPre(net, sk, n, n', u, env, feasible, base);
      if s[j].src == sk { assert RouteInv(net, sk, n, s[j]); }
      RevisedInv(net, sk, n, n', s[j], u, env, feasible, base);
    }
    RevisedSlot(sk.key, s, j, env, u, feasible);
    WithReceived(net, sk, n, n', r', base);
    if HasAnchor(n', sk) { ReceivedAnchor(net, sk, n, n', r'); }
  }

  lemma ReceiveInserted(net: Net, sk: SourceKey, n: Node, u: Update, env: Env, base: U16)
    requires ReceivePre(net, sk, n, u, env, base) && AcceptUpdate(n, env, u).1.Inserted?
    ensures ReceiveEffect(net, sk, n, AcceptUpdate(n, env, u).0, base)
  {
    var n' := AcceptUpdate(n, env, u).0;
    AppendedSlot(sk.key, SlotOf(n, sk.key), NewRoute(env, u));
    WithReceived(net, sk, n, n', NewRoute(env, u), base);
    if HasAnchor(n', sk) { ReceivedAnchor(net, sk, n, n', NewRoute(env, u)); }
  }

  ghost predicate ReceivePre(net: Net, sk: SourceKey, n: Node, u: Update, env: Env, base: U16) {
    && u.src.key == sk.key && NodeInv(net, sk, n) && WindowAt(net, sk, base)
    && SlotInWindow(SlotOf(n, sk.key), sk, base) && Fresh(n, sk, env.now)
    && (sk in n.srcs ==> InWindow(base, n.srcs[sk].seqno)) && env.cost(u.rid.neigh) >= 1
    && (u.src == sk && u.refmetric < INF ==>
          InWindow(base, u.seqno) && Vouched(net, sk, u.rid.neigh.node, Distance(u.seqno, u.refmetric)))
  }

  /** An update for another destination, or one that is ignored. */
  lemma ReceiveElsewhere(net: Net, sk: SourceKey, n: Node, u: Update, env: Env, base: U16)
    requires NodeInv(net, sk, n) && SlotInWindow(SlotOf(n, sk.key), sk, base) && Fresh(n, sk, env.now)
    requires u.src.key != sk.key || AcceptUpdate(n, env, u).1.Ignored?
    requires u.src == sk && u.refmetric < INF ==> InWindow(base, u.seqno)
    requires sk in n.srcs ==> InWindow(base, n.srcs[sk].seqno)
    ensures ReceiveEffect(net, sk, n, AcceptUpdate(n, env, u).0, base)
  {
    var n' := AcceptUpdate(n, env, u).0;
    assert SlotOf(n', sk.key) == SlotOf(n, sk.key);
    SameNodeInv(net, sk, n, n');
  }

  lemma ReceiveStep(net: Net, sk: SourceKey, i: nat, st: Step, base: U16)
    requires Inv(net, sk) && Admissible(net, i, st, sk) && st.Receive? && WindowAt(net, sk, base)
    ensures ReceiveEffect(net, sk, net.nodes[i], NodeAfter(net.nodes[i], st), base)
  {
    var n := net.nodes[i];
    var n' := NodeAfter(n, st);
    var u := UpdateOf(st.m, st.ifp, st.nexthop, st.interval);
    assert NodeInv(net, sk, n) && MessageInv(net, sk, st.m) && SlotInWindow(SlotOf(n, sk.key), sk, base);
    var outcome := AcceptUpdate(n, st.env, u).1;
    hide Inv, NodeInv, Vouched, SlotInWindow, WindowAt;
    if u.src.key != sk.key || outcome.Ignored? {
      ReceiveElsewhere(net, sk, n, u, st.env, base);
    } else if outcome.Changed? {
      ReceiveChanged(net, sk, n, u, st.env, base);
    } else {
      ReceiveInserted(net, sk, n, u, st.env, base);
    }
  }

  lemma SameNodeInv(net: Net, sk: SourceKey, n: Node, n': Node)
    requires NodeInv(net, sk, n) && n'.myid == n.myid && SlotOf(n', sk.key) == SlotOf(n, sk.key)
    requires sk in n.srcs ==> sk in n'.srcs && Fd(n', sk) == Fd(n, sk)
    ensures NodeInv(net, sk, n')
    ensures HasAnchor(n', sk) ==> sk in n.srcs
  {
    var s := SlotOf(n, sk.key);
    forall p | 0 <= p < |s| && s[p].src == sk ensures RouteInv(net, sk, n', s[p]) && sk in n.srcs {
      assert RouteInv(net, sk, n, s[p]);
    }
  }

  // ---- Sending ----

  /** update_source never worsens an entry that is not stale, and leaves it as
      good as the distance it is given. */
  lemma UpdatedSourceImproves(s: Source, d: Distance, now: int)
    requires s.time >= now - SOURCE_GC_TIME
    ensures var s' := UpdatedSource(s, d, now);
            && AsGood(FeasibilityDistance(s'), FeasibilityDistance(s))
            && (FeasibilityDistance(s') == FeasibilityDistance(s) || (FeasibilityDistance(s') == d && d.metric < INF))
            && (d.metric < INF ==> AsGood(FeasibilityDistance(s'), d))
            && s'.routeCount == s.routeCount
  {
    CompareAntisymmetric(s.seqno, d.seqno);
    if s.seqno != d.seqno { ModDistinctSmall(s.seqno, d.seqno); }
  }

  /** The advertised metric is strictly larger than the one received. */
  lemma SentMetricGrows(e: SendEnv, r: Route)
    requires r.cost >= 1 && SentMetric(e, r) < INF
    ensures r.refmetric < SentMetric(e, r)
  {
  }

  ghost predicate SendsRoute(n: Node, sk: SourceKey, k: Key, e: SendEnv) {
    var s := SlotOf(n, k);
    && s != [] && s[0].installed && s[0].src == sk && !e.suppressed
    && !(k in n.xroutes && n.xroutes[k].metric <= e.kernelMetric)
  }

  lemma SendStep(net: Net, sk: SourceKey, i: nat, k: Key, e: SendEnv, base: U16)
    requires Inv(net, sk) && i in net.nodes && WindowAt(net, sk, base) && Fresh(net.nodes[i], sk, e.now)
    requires TableOk(net.nodes[i].table)
    ensures var n := net.nodes[i];
            var n' := SendUpdate(n, k, e).0;
            && FdImproves(n, n', sk) && n'.myid == n.myid
            && (sk in n.srcs <==> sk in n'.srcs)
            && (sk in n'.srcs ==> InWindow(base, n'.srcs[sk].seqno))
            && SlotOf(n', sk.key) == SlotOf(n, sk.key)
            && NodeInv(net, sk, n')
  {
    var n := net.nodes[i];
    var n' := SendUpdate(n, k, e).0;
    var s := SlotOf(n, sk.key);
    assert NodeInv(net, sk, n) && SlotInWindow(s, sk, base);
    if !SendsRoute(n, sk, k, e) || k != sk.key {
      SendElsewhere(n, sk, k, e);
      SameNodeInv(net, sk, n, n');
    } else {
      var r := s[0];
      assert RouteInv(net, sk, n, r);
      var d := Distance(r.seqno, SentMetric(e, r));
      UpdatedSourceImproves(n.srcs[sk], d, e.now);
      if d.metric < INF { SentMetricGrows(e, r); }
      forall p | 0 <= p < |s| && s[p].src == sk ensures RouteInv(net, sk, n', s[p]) {
        assert RouteInv(net, sk, n, s[p]);
        if s[p].installed && s[p].anchored {
          assert p == 0;
          SentBelow(net, sk, n, n', r, d, base);
        }
      }
    }
  }

  /** After advertising, the successor is still strictly better. */
  lemma SentBelow(net: Net, sk: SourceKey, n: Node, n': Node, r: Route, d: Distance, base: U16)
    requires WindowAt(net, sk, base) && RouteInv(net, sk, n, r) && r.installed && r.anchored
    requires sk in n'.srcs && (Fd(n', sk) == Fd(n, sk) || Fd(n', sk) == d)
    requires d.seqno == r.seqno && (d.metric < INF ==> InWindow(base, d.seqno) && r.refmetric < d.metric)
    requires d.metric >= INF ==> Fd(n', sk) == Fd(n, sk)
    ensures Below(net, sk, r.rid.neigh.node, n')
  {
    var j := r.rid.neigh.node;
    if !Origin(net.nodes[j], sk) && Fd(n', sk) != Fd(n, sk) {
      BetterTransitive(base, Fd(net.nodes[j], sk), Advertised(r), d);
    }
  }

  lemma SendElsewhere(n: Node, sk: SourceKey, k: Key, e: SendEnv)
    requires TableOk(n.table) && (!SendsRoute(n, sk, k, e) || k != sk.key)
    ensures var n' := SendUpdate(n, k, e).0;
            && n'.myid == n.myid && SlotOf(n', sk.key) == SlotOf(n, sk.key)
            && (sk in n.srcs <==> sk in n'.srcs) && (sk in n.srcs ==> Fd(n', sk) == Fd(n, sk))
  {
    if k in n.table { assert SlotOk(k, n.table[k]); }
  }

  // ---- Every step keeps the invariant ----

  lemma WithSlotTable(n: Node, k: Key, s: seq<Route>)
    requires TableOk(n.table) && (s != [] ==> SlotOk(k, s))
    ensures TableOk(WithSlot(n, k, s).table)
  {
  }

  lemma ConsiderTable(n: Node, env: Env, k: Key, rid: RouteId)
    requires TableOk(n.table)
    ensures TableOk(ConsiderRoute(n, env, k, rid).table)
  {
    if Installs(n, env, k, rid) {
      PromoteOk(k, SlotOf(n, k), IndexOf(SlotOf(n, k), rid), SourceKey(0, k));
      WithSlotTable(n, k, Promote(SlotOf(n, k), IndexOf(SlotOf(n, k), rid)));
    }
  }

  lemma NodeAfterTable(n: Node, st: Step)
    requires TableOk(n.table)
    ensures TableOk(NodeAfter(n, st).table)
  {
    hide AcceptUpdate, ConsiderRoute;
    match st
    case Receive(m, ifp, nexthop, interval, env) => AcceptTable(n, env, UpdateOf(m, ifp, nexthop, interval));
    case Consider(k, rid, env) => ConsiderTable(n, env, k, rid);
    case SetCost(k, rid, cost, add) =>
      var s := SlotOf(n, k);
      var j := IndexOf(s, rid);
      if j < |s| { SetMetricTable(n, k, rid, s[j].refmetric, cost, add, s[j].seqno); }
    case Retract(k, rid, seqno) => SetMetricTable(n, k, rid, INF, INF, 0, seqno);
    case Unlink(k, rid) =>
      var s := SlotOf(n, k);
      var j := IndexOf(s, rid);
      if j < |s| {
        assert SlotOk(k, s);
        WithoutSlot(k, s, j);
        WithSlotTable(n, k, Without(s, j));
      }
    case Export(k, x, env) =>
      var s := SlotOf(n, k);
      if s != [] {
        assert SlotOk(k, s[0 := s[0].(installed := false)]);
        WithSlotTable(AddXroute(n, k, x).0, k, s[0 := s[0].(installed := false)]);
      }
    case _ =>
  }

  lemma SetMetricTable(n: Node, k: Key, rid: RouteId, refmetric: U16, cost: U16, add: U16, seqno: U16)
    requires TableOk(n.table)
    ensures TableOk(SetMetric(n, k, rid, refmetric, cost, add, seqno).table)
  {
    var s := SlotOf(n, k);
    var j := IndexOf(s, rid);
    if j < |s| {
      var s' := s[j := s[j].(refmetric := refmetric, cost := cost, add := add, seqno := seqno)];
      assert SlotOk(k, s');
      WithSlotTable(n, k, s');
    }
  }

  lemma AcceptTable(n: Node, env: Env, u: Update)
    requires TableOk(n.table)
    ensures TableOk(AcceptUpdate(n, env, u).0.table)
  {
    var k := u.src.key;
    var s := SlotOf(n, k);
    var j := IndexOf(s, u.rid);
    var n1 := EnsureSource(n, env.now, u.src, u.seqno);
    var feasible := Feasible(n1.srcs[u.src], env.now, Distance(u.seqno, u.refmetric));
    assert s != [] ==> SlotOk(k, s);
    if j < |s| {
      RevisedSlot(k, s, j, env, u, feasible);
      WithSlotTable(Retain(n1, u.src), k, s[j := Revised(s[j], env, u, feasible)]);
    } else {
      AppendedSlot(k, s, NewRoute(env, u));
      WithSlotTable(Retain(n1, u.src), k, s + [NewRoute(env, u)]);
    }
  }

  ghost predicate Tables(net: Net) {
    forall i :: i in net.nodes ==> TableOk(net.nodes[i].table)
  }

  lemma StepKeeps(net: Net, sk: SourceKey, i: nat, st: Step)
    requires Inv(net, sk) && Tables(net) && Admissible(net, i, st, sk) && Window(net, sk)
    ensures Inv(Apply(net, i, st), sk) && Tables(Apply(net, i, st))
  {
    var base: U16 :| WindowAt(net, sk, base);
    var n := net.nodes[i];
    var n' := NodeAfter(n, st);
    var net' := Apply(net, i, st);
    NodeAfterTable(n, st);
    if st.Receive? {
      ReceiveStep(net, sk, i, st, base);
    } else if st.Consider? {
      ConsiderStep(net, sk, i, st.k, st.rid, st.env, base);
    } else if st.Send? {
      SendStep(net, sk, i, st.k, st.e, base);
      SentMessage(net, sk, i, st.k, st.e);
    } else {
      QuietStep(net, sk, i, st);
      WeakenedKeeps(net, sk, i, n', base);
    }
    NodeChangeKeeps(net, net', sk, i, n', base);
  }

  /** What a node sends is vouched for by its new feasibility distance. */
  lemma SentMessage(net: Net, sk: SourceKey, i: nat, k: Key, e: SendEnv)
    requires Inv(net, sk) && Tables(net) && i in net.nodes && Fresh(net.nodes[i], sk, e.now)
    ensures var (n', m) := SendUpdate(net.nodes[i], k, e);
            m.Some? && m.value.src == sk && m.value.metric < INF ==>
              Origin(n', sk) || (sk in n'.srcs && AsGood(Fd(n', sk), Distance(m.value.seqno, m.value.metric)))
  {
    var n := net.nodes[i];
    var (n', m) := SendUpdate(n, k, e);
    if m.Some? && m.value.src == sk && m.value.metric < INF && !Origin(n, sk) {
      var s := SlotOf(n, k);
      assert SlotOk(k, s);
      assert NodeInv(net, sk, n);
      assert RouteInv(net, sk, n, s[0]);
      var d := Distance(s[0].seqno, SentMetric(e, s[0]));
      UpdatedSourceImproves(n.srcs[sk], d, e.now);
      assert d.metric <= m.value.metric;
    }
  }

  lemma RunKeeps(net: Net, steps: seq<(nat, Step)>, sk: SourceKey)
    requires Initial(net) && GoodRun(net, steps, sk)
    ensures Inv(Run(net, steps), sk) && Tables(Run(net, steps)) && Window(Run(net, steps), sk)
    decreases |steps|
  {
    if steps != [] {
      var pre := steps[..|steps| - 1];
      var last := steps[|steps| - 1];
      RunKeeps(net, pre, sk);
      StepKeeps(Run(net, pre), sk, last.0, last.1);
    }
  }

  // ---- Loop freedom ----

  lemma EdgeDescends(net: Net, sk: SourceKey, i: nat, j: nat)
    requires Inv(net, sk) && AnchoredEdge(net, sk, i, j)
    ensures i in net.nodes && !Origin(net.nodes[i], sk) && sk in net.nodes[i].srcs
    ensures Below(net, sk, j, net.nodes[i])
  {
    var s := SlotOf(net.nodes[i], sk.key);
    var p :| 0 <= p < |s| && Forwards(s[p], sk, j) && s[p].anchored;
    assert NodeInv(net, sk, net.nodes[i]);
    assert RouteInv(net, sk, net.nodes[i], s[p]);
  }

  /** Along a walk the feasibility distance strictly improves. */
  lemma {:induction false} WalkDescends(net: Net, sk: SourceKey, walk: seq<nat>, base: U16)
    requires Inv(net, sk) && WindowAt(net, sk, base) && |walk| >= 2
    requires forall p :: 0 <= p < |walk| - 1 ==> AnchoredEdge(net, sk, walk[p], walk[p + 1])
    ensures walk[0] in net.nodes && sk in net.nodes[walk[0]].srcs && !Origin(net.nodes[walk[0]], sk)
    ensures Below(net, sk, walk[|walk| - 1], net.nodes[walk[0]])
    decreases |walk|
  {
    var z := |walk| - 1;
    EdgeDescends(net, sk, walk[z - 1], walk[z]);
    if z > 1 {
      WalkDescends(net, sk, walk[..z], base);
      var a, b, c := walk[0], walk[z - 1], walk[z];
      if !Origin(net.nodes[c], sk) {
        BetterTransitive(base, Fd(net.nodes[c], sk), Fd(net.nodes[b], sk), Fd(net.nodes[a], sk));
      }
    }
  }

  lemma InvAcyclic(net: Net, sk: SourceKey, walk: seq<nat>)
    requires Inv(net, sk) && Window(net, sk)
    ensures !AnchoredCycle(net, sk, walk)
  {
    if AnchoredCycle(net, sk, walk) {
      var base: U16 :| WindowAt(net, sk, base);
      WalkDescends(net, sk, walk, base);
      var a := net.nodes[walk[0]];
      BetterTransitive(base, Fd(a, sk), Fd(a, sk), Fd(a, sk));
    }
  }

  /** Loop freedom: in every run of any number of nodes, forwarding to a source
      along routes that have been fed a feasible finite update has no cycle. */
  lemma LoopFreedom(net: Net, steps: seq<(nat, Step)>, sk: SourceKey, walk: seq<nat>)
    requires Initial(net) && GoodRun(net, steps, sk)
    ensures !AnchoredCycle(Run(net, steps), sk, walk)
  {
    RunKeeps(net, steps, sk);
    InvAcyclic(Run(net, steps), sk, walk);
  }
}

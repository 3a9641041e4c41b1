/** A run of three Babel nodes that meets every hypothesis of loop freedom and
    still ends in a forwarding loop, because a retracted route was installed
    and then revived by an unfeasible update.

    O exports a destination. A hears O over a link of cost 200, B hears both A
    and O over links of cost 96 and settles on O. A loses O and retracts, then
    learns the destination from B. B loses O; its only entry left is the
    retracted one through A, which it installs. A's next update is unfeasible
    for B, but B keeps the installed route and takes over its finite metric. */
module BabelRevival {
  import opened Options
  import opened Seqno
  import opened BabelTypes
  import opened BabelNode
  import opened BabelNetwork
  import opened BabelLoops

  const K := Key(7, 64)
  const SK := SourceKey(10, K)
  const O: nat := 0
  const A: nat := 1
  const B: nat := 2

  function EnvAt(costFromO: U16): Env {
    Env(0, (r: Route) => Metric(r), (g: Neigh) => if g.node == O then costFromO else 96,
        (sk: SourceKey, g: Neigh) => 0, (k: Key) => false, false)
  }

  const EA := EnvAt(200)
  const EB := EnvAt(96)
  const SE := SendEnv(0, 0, true, 256, false, true, 0)

  function Via(j: nat): RouteId { RouteId(Neigh(j, 0), 0) }

  function R(j: nat, refmetric: U16, cost: U16, installed: bool, anchored: bool): Route {
    Route(SK, refmetric, cost, 0, 0, Via(j), 0, 24, installed, anchored)
  }

  function Says(j: nat, metric: U16): Message { Message(j, Advert(SK, 0, metric)) }

  function Hear(m: Message, env: Env): Step { Receive(m, 0, 0, 400, env) }

  /** A node with one slot for K and one source entry. */
  function N(id: nat, s: seq<Route>, fd: U16, count: nat): Node {
    Node(id, 0, map[K := s], map[SK := Source(0, fd, 0, count)], map[])
  }

  function Blank(id: nat): Node { Node(id, 0, map[], map[], map[]) }

  function Exporter(): Node { Node(10, 0, map[], map[], map[K := Xroute(0, 0, 0)]) }

  function State(a: Node, b: Node, msgs: set<Message>): Net {
    Net(map[O := Exporter(), A := a, B := b], msgs)
  }

  function Start(): Net { State(Blank(11), Blank(12), {}) }

  // ---- Single steps on the kinds of node that occur ----

  lemma HearFirst(id: nat, j: nat, metric: U16, env: Env)
    requires id != 10 && metric < INF && (env == EA || env == EB)
    ensures NodeAfter(Blank(id), Hear(Says(j, metric), env)) ==
            N(id, [R(j, metric, env.cost(Neigh(j, 0)), false, false)], INF, 1)
  {
    var r := R(j, metric, env.cost(Neigh(j, 0)), false, false);
    assert [] + [r] == [r];
  }

  lemma HearSecond(id: nat, r: Route, fd: U16, j: nat, metric: U16, env: Env)
    requires id != 10 && metric < INF && (env == EA || env == EB) && r.rid != Via(j) && metric < fd
    ensures NodeAfter(N(id, [r], fd, 1), Hear(Says(j, metric), env)) ==
            N(id, [r, R(j, metric, env.cost(Neigh(j, 0)), false, false)], fd, 2)
  {
    assert [r][1..] == [];
    assert IndexOf([r], Via(j)) == 1;
    assert [r] + [R(j, metric, env.cost(Neigh(j, 0)), false, false)] == [r, R(j, metric, env.cost(Neigh(j, 0)), false, false)];
  }

  lemma InstallOnly(id: nat, r: Route, fd: U16, env: Env)
    requires (env == EA || env == EB) && !r.installed && r.src == SK && r.seqno == 0 && (r.refmetric >= INF || r.refmetric < fd)
    ensures NodeAfter(N(id, [r], fd, 1), Consider(K, r.rid, env)) == N(id, [Installed(r)], fd, 1)
  {
    assert [Installed(r)] + [r][1..] == [Installed(r)];
  }

  lemma SwitchToSecond(id: nat, r: Route, q: Route, fd: U16, count: nat, env: Env)
    requires (env == EA || env == EB) && r.installed && !q.installed && r.rid != q.rid
    requires q.src == SK && q.seqno == 0 && q.refmetric < fd && Metric(q) < Metric(r)
    ensures NodeAfter(N(id, [r, q], fd, count), Consider(K, q.rid, env)) ==
            N(id, [Installed(q), r.(installed := false)], fd, count)
  {
    var s := [r, q];
    assert s[1..] == [q];
    assert IndexOf(s, q.rid) == 1;
    assert Promote(s, 1) == [Installed(q), r.(installed := false)];
  }

  lemma SendHead(id: nat, s: seq<Route>, fd: U16, count: nat)
    requires s != [] && s[0].installed && s[0].src == SK && s[0].seqno == 0
    ensures var n := N(id, s, fd, count);
            var m := Metric(s[0]);
            && NodeAfter(n, Send(K, SE)) == N(id, s, if m < INF && m < fd then m else fd, count)
            && SendUpdate(n, K, SE).1 == Some(Advert(SK, 0, m))
  {
  }

  /** The route at position p after an update for it. */
  function Heard(r: Route, fd: U16, j: nat, metric: U16, env: Env): Route {
    var adopted := metric < INF && metric < fd;
    r.(refmetric := metric, cost := env.cost(Neigh(j, 0)), add := 0, seqno := 0, holdTime := 24,
       time := if adopted then 0 else r.time, anchored := adopted || r.anchored)
  }

  lemma HeardIsRevised(r: Route, fd: U16, j: nat, metric: U16, env: Env)
    requires (env == EA || env == EB) && r.src == SK
    ensures var u := UpdateOf(Says(j, metric), 0, 0, 400);
            Revised(r, env, u, Feasible(Source(0, fd, 0, 0), 0, Distance(0, metric))) == Heard(r, fd, j, metric, env)
  {
  }

  lemma HearIsAccept(n: Node, m: Message, env: Env)
    ensures NodeAfter(n, Hear(m, env)) == AcceptUpdate(n, env, UpdateOf(m, 0, 0, 400)).0
  {
    hide AcceptUpdate;
  }

  lemma RetainedOnce(id: nat, s: seq<Route>, s': seq<Route>, fd: U16, count: nat)
    ensures Retain(N(id, s, fd, count), SK).(table := map[K := s']) == N(id, s', fd, count + 1)
  {
  }

  lemma HearAgain(id: nat, s: seq<Route>, p: nat, fd: U16, count: nat, j: nat, metric: U16, env: Env)
    requires id != 10 && (env == EA || env == EB) && p < |s| && IndexOf(s, Via(j)) == p && s[p].src == SK
    ensures NodeAfter(N(id, s, fd, count), Hear(Says(j, metric), env)) ==
            N(id, s[p := Heard(s[p], fd, j, metric, env)], fd, count + 1)
  {
    var n, u := N(id, s, fd, count), UpdateOf(Says(j, metric), 0, 0, 400);
    var src, d := n.srcs[SK], Distance(0, metric);
    HearIsAccept(n, Says(j, metric), env);
    assert Feasible(src, 0, d) == Feasible(Source(0, fd, 0, 0), 0, d) && env.now == 0;
    RetainedOnce(id, s, s[p := Heard(s[p], fd, j, metric, env)], fd, count);
    HeardIsRevised(s[p], fd, j, metric, env);
    hide AcceptUpdate, Revised, Heard, NodeAfter, Retain, Feasible;
    AcceptAgain(n, env, u, s, p);
  }

  lemma AcceptAgain(n: Node, env: Env, u: Update, s: seq<Route>, p: nat)
    requires u.src == SK && n.myid != 10 && SK in n.srcs && !env.martian(K) && env.filter(SK, u.rid.neigh) < INF
    requires n.table == map[K := s] && p < |s| && IndexOf(s, u.rid) == p
    ensures var s' := s[p := Revised(s[p], env, u, Feasible(n.srcs[SK], env.now, Distance(u.seqno, u.refmetric)))];
            AcceptUpdate(n, env, u).0 == Retain(n, SK).(table := map[K := s'])
  {
    assert EnsureSource(n, env.now, SK, u.seqno) == n;
    assert SlotOf(n, K) == s;
  }

  lemma DropRef(id: nat, s: seq<Route>, fd: U16, count: nat)
    ensures NodeAfter(N(id, s, fd, count + 1), ReleaseRef(SK)) == N(id, s, fd, count)
  {
  }

  // ---- The run ----

  lemma Extend(steps: seq<(nat, Step)>, net: Net, i: nat, st: Step, net': Net)
    requires GoodRun(Start(), steps, SK) && Run(Start(), steps) == net
    requires Admissible(net, i, st, SK) && Apply(net, i, st) == net' && Window(net', SK)
    ensures GoodRun(Start(), steps + [(i, st)], SK) && Run(Start(), steps + [(i, st)]) == net'
  {
    var all := steps + [(i, st)];
    assert all[..|all| - 1] == steps;
  }

  /** All seqnos and times are 0. */
  predicate TameNode(n: Node) {
    && (SK in n.srcs ==> n.srcs[SK].seqno == 0 && n.srcs[SK].time == 0)
    && forall j :: 0 <= j < |SlotOf(n, K)| ==> SlotOf(n, K)[j].seqno == 0
  }

  lemma TameWindow(a: Node, b: Node, msgs: set<Message>)
    requires TameNode(a) && TameNode(b) && forall m :: m in msgs ==> m.adv.seqno == 0
    ensures Window(State(a, b, msgs), SK)
  {
    assert WindowAt(State(a, b, msgs), SK, 0);
  }

  /** The state of a good run between two steps. */
  ghost predicate At(steps: seq<(nat, Step)>, a: Node, b: Node, msgs: set<Message>) {
    && GoodRun(Start(), steps, SK) && Run(Start(), steps) == State(a, b, msgs)
    && TameNode(a) && TameNode(b) && forall m :: m in msgs ==> m.adv.seqno == 0
  }

  /** Node A takes a step that sends nothing. */
  lemma StepA(steps: seq<(nat, Step)>, a: Node, b: Node, msgs: set<Message>, st: Step, a': Node)
    requires At(steps, a, b, msgs) && !st.Send? && !st.Lose?
    requires Admissible(State(a, b, msgs), A, st, SK) && NodeAfter(a, st) == a' && TameNode(a')
    ensures At(steps + [(A, st)], a', b, msgs)
  {
    TameWindow(a', b, msgs);
    assert State(a, b, msgs).nodes[A := a'] == State(a', b, msgs).nodes;
    Extend(steps, State(a, b, msgs), A, st, State(a', b, msgs));
  }

  lemma StepB(steps: seq<(nat, Step)>, a: Node, b: Node, msgs: set<Message>, st: Step, b': Node)
    requires At(steps, a, b, msgs) && !st.Send? && !st.Lose?
    requires Admissible(State(a, b, msgs), B, st, SK) && NodeAfter(b, st) == b' && TameNode(b')
    ensures At(steps + [(B, st)], a, b', msgs)
  {
    TameWindow(a, b', msgs);
    assert State(a, b, msgs).nodes[B := b'] == State(a, b', msgs).nodes;
    Extend(steps, State(a, b, msgs), B, st, State(a, b', msgs));
  }

  lemma SendA(steps: seq<(nat, Step)>, id: nat, s: seq<Route>, fd: U16, count: nat, b: Node, msgs: set<Message>)
    requires At(steps, N(id, s, fd, count), b, msgs) && s != [] && s[0].installed && s[0].src == SK && s[0].seqno == 0
    ensures var m := Metric(s[0]);
            At(steps + [(A, Send(K, SE))], N(id, s, if m < INF && m < fd then m else fd, count), b, msgs + {Says(A, m)})
  {
    var a := N(id, s, fd, count);
    var m := Metric(s[0]);
    var a' := N(id, s, if m < INF && m < fd then m else fd, count);
    SendHead(id, s, fd, count);
    assert SlotOf(a', K) == SlotOf(a, K);
    TameWindow(a', b, msgs + {Says(A, m)});
    assert State(a, b, msgs).nodes[A := a'] == State(a', b, msgs).nodes;
    Extend(steps, State(a, b, msgs), A, Send(K, SE), State(a', b, msgs + {Says(A, m)}));
  }

  lemma SendB(steps: seq<(nat, Step)>, id: nat, s: seq<Route>, fd: U16, count: nat, a: Node, msgs: set<Message>)
    requires At(steps, a, N(id, s, fd, count), msgs) && s != [] && s[0].installed && s[0].src == SK && s[0].seqno == 0
    ensures var m := Metric(s[0]);
            At(steps + [(B, Send(K, SE))], a, N(id, s, if m < INF && m < fd then m else fd, count), msgs + {Says(B, m)})
  {
    var b := N(id, s, fd, count);
    var m := Metric(s[0]);
    var b' := N(id, s, if m < INF && m < fd then m else fd, count);
    SendHead(id, s, fd, count);
    assert SlotOf(b', K) == SlotOf(b, K);
    TameWindow(a, b', msgs + {Says(B, m)});
    assert State(a, b, msgs).nodes[B := b'] == State(a, b', msgs).nodes;
    Extend(steps, State(a, b, msgs), B, Send(K, SE), State(a, b', msgs + {Says(B, m)}));
  }

  lemma OriginSpeaks() returns (steps: seq<(nat, Step)>)
    ensures At(steps, Blank(11), Blank(12), {Says(O, 0)})
  {
    steps := [];
    TameWindow(Blank(11), Blank(12), {});
    TameWindow(Blank(11), Blank(12), {Says(O, 0)});
    assert Run(Start(), []) == Start();
    assert GoodRun(Start(), [], SK);
    var net := Start();
    assert net.nodes[O := Exporter()] == net.nodes;
    assert SendUpdate(Exporter(), K, SE) == (Exporter(), Some(Advert(SK, 0, 0)));
    Extend([], Start(), O, Send(K, SE), State(Blank(11), Blank(12), {Says(O, 0)}));
    steps := [] + [(O, Send(K, SE))];
  }

  /** A settles on O and says so; B settles on A, then on O, and says so. */
  lemma Settle() returns (steps: seq<(nat, Step)>, msgs: set<Message>)
    ensures At(steps, N(11, [R(O, 0, 200, true, true)], 200, 1),
               N(12, [R(O, 0, 96, true, true), R(A, 200, 96, false, true)], 96, 2), msgs)
    ensures Says(B, 96) in msgs
  {
    steps := OriginSpeaks();
    msgs := {Says(O, 0)};
    HearFirst(11, O, 0, EA);
    StepA(steps, Blank(11), Blank(12), msgs, Hear(Says(O, 0), EA), N(11, [R(O, 0, 200, false, false)], INF, 1));
    steps := steps + [(A, Hear(Says(O, 0), EA))];
    InstallOnly(11, R(O, 0, 200, false, false), INF, EA);
    StepA(steps, N(11, [R(O, 0, 200, false, false)], INF, 1), Blank(12), msgs, Consider(K, Via(O), EA),
          N(11, [R(O, 0, 200, true, true)], INF, 1));
    steps := steps + [(A, Consider(K, Via(O), EA))];
    SendA(steps, 11, [R(O, 0, 200, true, true)], INF, 1, Blank(12), msgs);
    steps := steps + [(A, Send(K, SE))];
    msgs := msgs + {Says(A, 200)};
    steps, msgs := SettleB(steps, msgs);
  }

  lemma SettleB(steps0: seq<(nat, Step)>, msgs0: set<Message>) returns (steps: seq<(nat, Step)>, msgs: set<Message>)
    requires At(steps0, N(11, [R(O, 0, 200, true, true)], 200, 1), Blank(12), msgs0)
    requires Says(O, 0) in msgs0 && Says(A, 200) in msgs0
    ensures At(steps, N(11, [R(O, 0, 200, true, true)], 200, 1),
               N(12, [R(O, 0, 96, true, true), R(A, 200, 96, false, true)], 96, 2), msgs)
    ensures Says(B, 96) in msgs
  {
    hide At;
    steps, msgs := steps0, msgs0;
    var a := N(11, [R(O, 0, 200, true, true)], 200, 1);
    HearFirst(12, A, 200, EB);
    StepB(steps, a, Blank(12), msgs, Hear(Says(A, 200), EB), N(12, [R(A, 200, 96, false, false)], INF, 1));
    steps := steps + [(B, Hear(Says(A, 200), EB))];
    InstallOnly(12, R(A, 200, 96, false, false), INF, EB);
    StepB(steps, a, N(12, [R(A, 200, 96, false, false)], INF, 1), msgs, Consider(K, Via(A), EB),
          N(12, [R(A, 200, 96, true, true)], INF, 1));
    steps := steps + [(B, Consider(K, Via(A), EB))];
    HearSecond(12, R(A, 200, 96, true, true), INF, O, 0, EB);
    StepB(steps, a, N(12, [R(A, 200, 96, true, true)], INF, 1), msgs, Hear(Says(O, 0), EB),
          N(12, [R(A, 200, 96, true, true), R(O, 0, 96, false, false)], INF, 2));
    steps := steps + [(B, Hear(Says(O, 0), EB))];
    steps, msgs := SwitchB(steps, msgs);
  }

  function A1(): Node { N(11, [R(O, 0, 200, true, true)], 200, 1) }

  function B1(): Node { N(12, [R(O, 0, 96, true, true), R(A, 200, 96, false, true)], 96, 2) }

  lemma SwitchB(steps0: seq<(nat, Step)>, msgs0: set<Message>) returns (steps: seq<(nat, Step)>, msgs: set<Message>)
    requires At(steps0, A1(), N(12, [R(A, 200, 96, true, true), R(O, 0, 96, false, false)], INF, 2), msgs0)
    ensures At(steps, A1(), B1(), msgs) && Says(B, 96) in msgs
  {
    steps, msgs := steps0, msgs0;
    var q := R(A, 200, 96, true, true);
    var s := [R(O, 0, 96, true, true), R(A, 200, 96, false, true)];
    SwitchToSecond(12, q, R(O, 0, 96, false, false), INF, 2, EB);
    StepB(steps, A1(), N(12, [q, R(O, 0, 96, false, false)], INF, 2), msgs, Consider(K, Via(O), EB), N(12, s, INF, 2));
    steps := steps + [(B, Consider(K, Via(O), EB))];
    SendB(steps, 12, s, INF, 2, A1(), msgs);
    steps := steps + [(B, Send(K, SE))];
    msgs := msgs + {Says(B, 96)};
  }

  function A2(): Node { N(11, [R(O, INF, INF, true, true)], 200, 1) }

  function B2(): Node { N(12, [R(O, 0, 96, true, true), R(A, INF, 96, false, true)], 96, 2) }

  /** A loses O and retracts; B takes note. */
  lemma ARetracts() returns (steps: seq<(nat, Step)>, msgs: set<Message>)
    ensures At(steps, A2(), B2(), msgs) && Says(B, 96) in msgs
  {
    hide At;
    steps, msgs := Settle();
    var dead := R(O, INF, INF, true, true);
    assert [R(O, 0, 200, true, true)][0 := dead] == [dead];
    StepA(steps, A1(), B1(), msgs, Retract(K, Via(O), 0), A2());
    steps := steps + [(A, Retract(K, Via(O), 0))];
    SendA(steps, 11, [dead], 200, 1, B1(), msgs);
    steps := steps + [(A, Send(K, SE))];
    msgs := msgs + {Says(A, INF)};
    var s := [R(O, 0, 96, true, true), R(A, 200, 96, false, true)];
    assert s[1..] == [R(A, 200, 96, false, true)];
    assert IndexOf(s, Via(A)) == 1;
    HearAgain(12, s, 1, 96, 2, A, INF, EB);
    var t := s[1 := R(A, INF, 96, false, true)];
    assert t == [R(O, 0, 96, true, true), R(A, INF, 96, false, true)];
    StepB(steps, A2(), B1(), msgs, Hear(Says(A, INF), EB), N(12, t, 96, 3));
    steps := steps + [(B, Hear(Says(A, INF), EB))];
    DropRef(12, t, 96, 2);
    StepB(steps, A2(), N(12, t, 96, 3), msgs, ReleaseRef(SK), B2());
    steps := steps + [(B, ReleaseRef(SK))];
  }

  function A3(): Node { N(11, [R(B, 96, 96, true, true), R(O, INF, INF, false, true)], 192, 2) }

  /** A learns the destination from B and advertises it. */
  lemma ASwitches() returns (steps: seq<(nat, Step)>, msgs: set<Message>)
    ensures At(steps, A3(), B2(), msgs) && Says(A, 192) in msgs
  {
    hide At;
    steps, msgs := ARetracts();
    var dead, r := R(O, INF, INF, true, true), R(B, 96, 96, false, false);
    HearSecond(11, dead, 200, B, 96, EA);
    StepA(steps, A2(), B2(), msgs, Hear(Says(B, 96), EA), N(11, [dead, r], 200, 2));
    steps := steps + [(A, Hear(Says(B, 96), EA))];
    SwitchToSecond(11, dead, r, 200, 2, EA);
    var s := [R(B, 96, 96, true, true), R(O, INF, INF, false, true)];
    StepA(steps, N(11, [dead, r], 200, 2), B2(), msgs, Consider(K, Via(B), EA), N(11, s, 200, 2));
    steps := steps + [(A, Consider(K, Via(B), EA))];
    SendA(steps, 11, s, 200, 2, B2(), msgs);
    steps := steps + [(A, Send(K, SE))];
    msgs := msgs + {Says(A, 192)};
  }

  function B3(): Node { N(12, [R(A, INF, 96, true, false)], 96, 1) }

  /** B loses O and installs the retracted route through A. */
  lemma BInstallsRetracted() returns (steps: seq<(nat, Step)>, msgs: set<Message>)
    ensures At(steps, A3(), B3(), msgs) && Says(A, 192) in msgs
  {
    hide At;
    steps, msgs := ASwitches();
    var dead := R(A, INF, 96, false, true);
    var s := [R(O, 0, 96, true, true), dead];
    assert Without(s, 0) == [dead];
    StepB(steps, A3(), B2(), msgs, Unlink(K, Via(O)), N(12, [dead], 96, 2));
    steps := steps + [(B, Unlink(K, Via(O)))];
    DropRef(12, [dead], 96, 1);
    StepB(steps, A3(), N(12, [dead], 96, 2), msgs, ReleaseRef(SK), N(12, [dead], 96, 1));
    steps := steps + [(B, ReleaseRef(SK))];
    InstallOnly(12, dead, 96, EB);
    assert InstallsRetracted(N(12, [dead], 96, 1), Consider(K, Via(A), EB), SK);
    StepB(steps, A3(), N(12, [dead], 96, 1), msgs, Consider(K, Via(A), EB), B3());
    steps := steps + [(B, Consider(K, Via(A), EB))];
  }

  /** B4 forwards to A although A's update was unfeasible. */
  function B4(): Node { N(12, [R(A, 192, 96, true, false)], 96, 1) }

  lemma BRevives() returns (steps: seq<(nat, Step)>, msgs: set<Message>)
    ensures At(steps, A3(), B4(), msgs)
  {
    steps, msgs := BInstallsRetracted();
    var s := [R(A, INF, 96, true, false)];
    HearAgain(12, s, 0, 96, 1, A, 192, EB);
    var t := s[0 := R(A, 192, 96, true, false)];
    assert t == [R(A, 192, 96, true, false)];
    StepB(steps, A3(), B3(), msgs, Hear(Says(A, 192), EB), N(12, t, 96, 2));
    steps := steps + [(B, Hear(Says(A, 192), EB))];
    DropRef(12, t, 96, 1);
    StepB(steps, A3(), N(12, t, 96, 2), msgs, ReleaseRef(SK), B4());
    steps := steps + [(B, ReleaseRef(SK))];
  }

  /** Loop freedom of the whole graph fails: an admissible run from the initial
      state after which A forwards to B and B forwards to A. */
  lemma RevivedRouteLoops() returns (net: Net, steps: seq<(nat, Step)>)
    ensures Initial(net) && GoodRun(net, steps, SK)
    ensures Cycle(Run(net, steps), SK, [A, B, A])
  {
    var msgs;
    steps, msgs := BRevives();
    net := Start();
    var end := Run(net, steps);
    assert Forwards(SlotOf(end.nodes[A], K)[0], SK, B);
    assert Forwards(SlotOf(end.nodes[B], K)[0], SK, A);
    assert Edge(end, SK, A, B) && Edge(end, SK, B, A);
  }
}

/** Two BFD sessions over a network that loses, duplicates, delays and reorders
    packets. */
module BfdNetwork {
  import opened Bfd

  /** The two sessions and every packet ever sent to each. A packet that is
      never received is lost, one received twice is duplicated. */
  datatype Net = Net(a: Session, b: Session, toA: set<Packet>, toB: set<Packet>)

  ghost function AsSet(ps: seq<Packet>): set<Packet> { set p | p in ps }

  /** An event at a (side) or at b. */
  ghost function Step(n: Net, atA: bool, e: Event): Net {
    if atA then
      var (a, out) := Act(n.a, e);
      n.(a := a, toB := n.toB + AsSet(out))
    else
      var (b, out) := Act(n.b, e);
      n.(b := b, toA := n.toA + AsSet(out))
  }

  /** A packet can be received only if it was sent. */
  predicate Possible(n: Net, atA: bool, e: Event) {
    e.Receive? ==> e.p in if atA then n.toA else n.toB
  }

  ghost function Run(n: Net, steps: seq<(bool, Event)>): Net
    decreases |steps|
  {
    if steps == [] then n
    else
      var m := Run(n, steps[..|steps| - 1]);
      Step(m, steps[|steps| - 1].0, steps[|steps| - 1].1)
  }

  ghost predicate Runs(n: Net, steps: seq<(bool, Event)>)
    decreases |steps|
  {
    steps == [] || (
      && Runs(n, steps[..|steps| - 1])
      && Possible(Run(n, steps[..|steps| - 1]), steps[|steps| - 1].0, steps[|steps| - 1].1))
  }

  function Start(ida: nat, idb: nat, pa: bool, pb: bool): Net {
    Net(Fresh(ida, pa), Fresh(idb, pb), {}, {})
  }

  // ---- Invariant ----

  predicate Rising(st: State) { st == Init || st == Up }

  /** What holds of a session s whose peer is t. */
  predicate SideOk(s: Session, t: Session) {
    && s.my != 0 && (s.remote == 0 || s.remote == t.my)
    && (Rising(s.state) ==> s.remote == t.my && s.heard)
    && (s.state == Up ==> t.heard)
    && (s.told == StatusUp <==> s.state == Up)
  }

  /** What holds of a packet that s sent to t. */
  predicate PacketOk(p: Packet, s: Session, t: Session) {
    && p.my == s.my && (p.your == 0 || p.your == t.my)
    && (Rising(p.state) ==> s.heard)
    && !(p.poll && p.final)
  }

  ghost predicate Inv(n: Net) {
    && SideOk(n.a, n.b) && SideOk(n.b, n.a)
    && (forall p :: p in n.toB ==> PacketOk(p, n.a, n.b))
    && (forall p :: p in n.toA ==> PacketOk(p, n.b, n.a))
  }

  lemma SndOk(s: Session, t: Session, final: bool, p: Packet)
    requires s.my != 0 && (s.remote == 0 || s.remote == t.my) && (Rising(s.state) ==> s.heard) && p in Snd(s, final)
    ensures PacketOk(p, s, t)
  {
  }

  /** What an event keeps of a session, and what holds of what it sends. */
  ghost predicate Kept(s: Session, t: Session, res: (Session, seq<Packet>)) {
    && res.0.my == s.my && (s.heard ==> res.0.heard) && SideOk(res.0, t)
    && (forall p :: p in res.1 ==> PacketOk(p, res.0, t))
  }

  lemma SessUpOk(s: Session, t: Session)
    requires s.my != 0 && s.remote == t.my && s.heard && t.heard
    ensures Kept(s, t, SessUp(s))
  {
  }

  lemma SessDnOk(s: Session, t: Session)
    requires s.my != 0 && (s.told == StatusUp <==> s.state == Up)
    ensures Kept(s, t, SessDn(s))
  {
  }

  lemma HandleOk(s: Session, t: Session, n: State)
    requires SideOk(s, t) && s.remote == t.my && s.heard && (Rising(n) ==> t.heard)
    ensures Kept(s, t, Handle(s, n))
  {
    hide SessUp, SessDn;
    if t.heard { SessUpOk(s, t); }
    SessDnOk(s, t);
  }

  lemma RecvOk(s: Session, t: Session, p: Packet)
    requires SideOk(s, t) && SideOk(t, s) && PacketOk(p, t, s)
    ensures Kept(s, t, Recv(s, p))
  {
    if Accepts(s, p) {
      var s0 := s.(remote := p.my, heard := true);
      HandleOk(s0, t, p.state);
      hide Handle;
      var (s1, out) := Handle(s0, p.state);
      var s2 := if s1.polling && p.final then s1.(polling := false) else s1;
      forall q | q in Snd(s2, true) ensures PacketOk(q, s2, t) { SndOk(s2, t, true, q); }
    }
  }

  lemma ShutdownOk(s: Session, t: Session, on: bool)
    requires SideOk(s, t)
    ensures Kept(s, t, SetShutdown(s, on))
  {
  }

  /** One event keeps what holds of a session and of what it sends. */
  lemma ActOk(s: Session, t: Session, e: Event)
    requires SideOk(s, t) && SideOk(t, s) && (e.Receive? ==> PacketOk(e.p, t, s))
    ensures Kept(s, t, Act(s, e))
  {
    hide SessUp, SessDn, Recv, SetShutdown;
    match e
    case Receive(p) => RecvOk(s, t, p);
    case DetectTimer => SessDnOk(s, t);
    case TransmitTimer =>
    case Shutdown(on) => ShutdownOk(s, t, on);
    case Passive(_) =>
    case Enable =>
    case Disable => SessDnOk(s.(open := false), t);
  }

  lemma StepOk(n: Net, atA: bool, e: Event)
    requires Inv(n) && Possible(n, atA, e)
    ensures Inv(Step(n, atA, e))
  {
    if atA {
      ActOk(n.a, n.b, e);
    } else {
      ActOk(n.b, n.a, e);
    }
    hide Act;
  }

  lemma {:induction false} RunOk(n: Net, steps: seq<(bool, Event)>)
    requires Inv(n) && Runs(n, steps)
    ensures Inv(Run(n, steps))
    decreases |steps|
  {
    if steps != [] {
      RunOk(n, steps[..|steps| - 1]);
      StepOk(Run(n, steps[..|steps| - 1]), steps[|steps| - 1].0, steps[|steps| - 1].1);
    }
  }

  /** In every run, with any configuration changes: a session in Init or Up holds
      its peer's non-zero discriminator, and a session is Up only if the peer has
      processed one of its packets. */
  lemma Handshake(ida: nat, idb: nat, pa: bool, pb: bool, steps: seq<(bool, Event)>)
    requires ida != 0 && idb != 0 && Runs(Start(ida, idb, pa, pb), steps)
    ensures var n := Run(Start(ida, idb, pa, pb), steps);
            && (Rising(n.a.state) ==> n.a.remote == idb) && (Rising(n.b.state) ==> n.b.remote == ida)
            && (n.a.state == Up ==> n.a.heard && n.b.heard) && (n.b.state == Up ==> n.a.heard && n.b.heard)
  {
    RunOk(Start(ida, idb, pa, pb), steps);
    SameIds(Start(ida, idb, pa, pb), steps);
  }

  lemma ActId(s: Session, e: Event)
    ensures Act(s, e).0.my == s.my
  {
    if e.Receive? { assert Handle(s.(remote := e.p.my, heard := true), e.p.state).0.my == s.my; }
  }

  lemma {:induction false} SameIds(n: Net, steps: seq<(bool, Event)>)
    ensures Run(n, steps).a.my == n.a.my && Run(n, steps).b.my == n.b.my
    decreases |steps|
  {
    if steps != [] {
      SameIds(n, steps[..|steps| - 1]);
      hide Act;
      ActId(Run(n, steps[..|steps| - 1]).a, steps[|steps| - 1].1);
      ActId(Run(n, steps[..|steps| - 1]).b, steps[|steps| - 1].1);
    }
  }

  /** In every run the clients' last news is Up exactly when the session is. */
  lemma ClientsView(ida: nat, idb: nat, pa: bool, pb: bool, steps: seq<(bool, Event)>)
    requires ida != 0 && idb != 0 && Runs(Start(ida, idb, pa, pb), steps)
    ensures var n := Run(Start(ida, idb, pa, pb), steps);
            (n.a.told == StatusUp <==> n.a.state == Up) && (n.b.told == StatusUp <==> n.b.state == Up)
  {
    RunOk(Start(ida, idb, pa, pb), steps);
  }

  // ---- Who can come up ----

  /** No change of configuration. */
  predicate Protocol(e: Event) { e.Receive? || e.DetectTimer? || e.TransmitTimer? }

  predicate Quiet(s: Session) { s.passive && s.remote == 0 }

  /** Nothing but a packet makes a passive session speak. */
  lemma QuietStays(s: Session, e: Event)
    requires Quiet(s) && !e.Receive? && (e.Passive? ==> e.on)
    ensures Quiet(Act(s, e).0) && Act(s, e).1 == []
  {
  }

  ghost predicate Silent(n: Net) {
    n.toA == {} && n.toB == {} && Quiet(n.a) && Quiet(n.b)
  }

  /** Two passive sessions that stay passive never send anything. */
  lemma {:induction false} PassiveSilence(ida: nat, idb: nat, steps: seq<(bool, Event)>)
    requires Runs(Start(ida, idb, true, true), steps)
    requires forall i :: 0 <= i < |steps| && steps[i].1.Passive? ==> steps[i].1.on
    ensures Silent(Run(Start(ida, idb, true, true), steps))
    decreases |steps|
  {
    if steps != [] {
      var pre, last := steps[..|steps| - 1], steps[|steps| - 1];
      PassiveSilence(ida, idb, pre);
      var n := Run(Start(ida, idb, true, true), pre);
      assert Possible(n, last.0, last.1);
      hide Act;
      QuietStays(if last.0 then n.a else n.b, last.1);
    }
  }
}

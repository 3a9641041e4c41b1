/** Which pairs of BFD sessions can come up, and what administrative shutdown
    is worth. */
module BfdRuns {
  import opened Bfd
  import opened BfdNetwork

  // ---- Reaching Up ----

  /** One more step of a run. */
  lemma Extend(n: Net, steps: seq<(bool, Event)>, m: Net, atA: bool, e: Event)
    requires Runs(n, steps) && Run(n, steps) == m && Possible(m, atA, e)
    ensures Runs(n, steps + [(atA, e)]) && Run(n, steps + [(atA, e)]) == Step(m, atA, e)
  {
    var more := steps + [(atA, e)];
    assert more[..|more| - 1] == steps;
  }

  /** b in Init once it has heard of a. */
  function HeardOf(id: nat, peer: nat, passive: bool): Session {
    Fresh(id, passive).(remote := peer, state := Init, heard := true)
  }

  function IsUp(id: nat, peer: nat, passive: bool): Session {
    Fresh(id, passive).(remote := peer, state := Up, polling := true, told := StatusUp, heard := true)
  }

  function Hello(ida: nat): Packet { Packet(ida, 0, Down, false, false) }

  function Answer(ida: nat, idb: nat): Packet { Packet(idb, ida, Init, false, false) }

  lemma SaysHello(ida: nat)
    ensures Act(Fresh(ida, false), TransmitTimer) == (Fresh(ida, false), [Hello(ida)])
  {
  }

  lemma HearsHello(ida: nat, idb: nat, pb: bool)
    requires ida != 0
    ensures Act(Fresh(idb, pb), Receive(Hello(ida))).0 == HeardOf(idb, ida, pb)
  {
  }

  lemma Answers(ida: nat, idb: nat, pb: bool)
    requires ida != 0
    ensures Act(HeardOf(idb, ida, pb), TransmitTimer) == (HeardOf(idb, ida, pb), [Answer(ida, idb)])
  {
  }

  lemma InSet(p: Packet)
    ensures p in AsSet([p])
  {
  }

  /** a speaks first, b answers: the packet that lets a come up is on its way. */
  lemma FirstHalf(ida: nat, idb: nat, pb: bool) returns (steps: seq<(bool, Event)>, n: Net)
    requires ida != 0 && idb != 0
    ensures Runs(Start(ida, idb, false, pb), steps) && Run(Start(ida, idb, false, pb), steps) == n
    ensures forall i :: 0 <= i < |steps| ==> Protocol(steps[i].1)
    ensures n.a == Fresh(ida, false) && n.b == HeardOf(idb, ida, pb) && Packet(idb, ida, Init, false, false) in n.toA
  {
    var start := Start(ida, idb, false, pb);
    var hello := Hello(ida);
    SaysHello(ida);
    HearsHello(ida, idb, pb);
    Answers(ida, idb, pb);
    InSet(hello);
    InSet(Answer(ida, idb));
    hide Act, AsSet;
    steps, n := [], start;
    Extend(start, steps, n, true, TransmitTimer);
    n, steps := Step(n, true, TransmitTimer), steps + [(true, TransmitTimer)];
    assert n.a == Fresh(ida, false) && hello in n.toB;
    Extend(start, steps, n, false, Receive(hello));
    n, steps := Step(n, false, Receive(hello)), steps + [(false, Receive(hello))];
    assert n.b == HeardOf(idb, ida, pb);
    Extend(start, steps, n, false, TransmitTimer);
    n, steps := Step(n, false, TransmitTimer), steps + [(false, TransmitTimer)];
  }

  /** An active session brings both sides up. */
  lemma Completes(ida: nat, idb: nat, pb: bool) returns (steps: seq<(bool, Event)>)
    requires ida != 0 && idb != 0
    ensures Runs(Start(ida, idb, false, pb), steps)
    ensures forall i :: 0 <= i < |steps| ==> Protocol(steps[i].1)
    ensures var n := Run(Start(ida, idb, false, pb), steps); n.a.state == Up && n.b.state == Up
  {
    var start := Start(ida, idb, false, pb);
    var answer, poll := Packet(idb, ida, Init, false, false), Packet(ida, idb, Up, true, false);
    var n;
    steps, n := FirstHalf(ida, idb, pb);
    Extend(start, steps, n, true, Receive(answer));
    n, steps := Step(n, true, Receive(answer)), steps + [(true, Receive(answer))];
    assert poll in AsSet([poll] + []) && n.a == IsUp(ida, idb, false) && poll in n.toB;
    Extend(start, steps, n, false, Receive(poll));
    n, steps := Step(n, false, Receive(poll)), steps + [(false, Receive(poll))];
  }

  // ---- Both ends are alike ----

  function Swap(n: Net): Net { Net(n.b, n.a, n.toB, n.toA) }

  function SwapSteps(steps: seq<(bool, Event)>): (r: seq<(bool, Event)>)
    ensures |r| == |steps| && forall i :: 0 <= i < |steps| ==> r[i] == (!steps[i].0, steps[i].1)
  {
    seq(|steps|, i requires 0 <= i < |steps| => (!steps[i].0, steps[i].1))
  }

  lemma {:induction false} SwapRun(n: Net, steps: seq<(bool, Event)>)
    requires Runs(n, steps)
    ensures Runs(Swap(n), SwapSteps(steps)) && Run(Swap(n), SwapSteps(steps)) == Swap(Run(n, steps))
    decreases |steps|
  {
    if steps != [] {
      var pre := steps[..|steps| - 1];
      hide Act;
      SwapRun(n, pre);
      assert SwapSteps(steps)[..|steps| - 1] == SwapSteps(pre);
    }
  }

  /** Some run of the protocol alone brings a session up. */
  ghost predicate CanComeUp(start: Net) {
    exists steps :: ComesUp(start, steps)
  }

  ghost predicate ComesUp(start: Net, steps: seq<(bool, Event)>) {
    && Runs(start, steps) && (forall i :: 0 <= i < |steps| ==> Protocol(steps[i].1))
    && (Run(start, steps).a.state == Up || Run(start, steps).b.state == Up)
  }

  /** A pair of sessions can come up exactly when one of them is active. */
  lemma ComesUpExactly(ida: nat, idb: nat, pa: bool, pb: bool)
    requires ida != 0 && idb != 0
    ensures CanComeUp(Start(ida, idb, pa, pb)) <==> !(pa && pb)
  {
    if !pa {
      var steps := Completes(ida, idb, pb);
      assert ComesUp(Start(ida, idb, pa, pb), steps);
    } else if !pb {
      var steps := Completes(idb, ida, pa);
      SwapRun(Start(idb, ida, false, pa), steps);
      assert ComesUp(Start(ida, idb, pa, pb), SwapSteps(steps));
    } else {
      forall steps ensures !ComesUp(Start(ida, idb, true, true), steps) {
        NeverUp(ida, idb, steps);
      }
    }
  }

  lemma NeverUp(ida: nat, idb: nat, steps: seq<(bool, Event)>)
    requires ida != 0 && idb != 0
    ensures !ComesUp(Start(ida, idb, true, true), steps)
  {
    if Runs(Start(ida, idb, true, true), steps) && forall i :: 0 <= i < |steps| ==> Protocol(steps[i].1) {
      PassiveSilence(ida, idb, steps);
      RunOk(Start(ida, idb, true, true), steps);
    }
  }

  // ---- Administrative shutdown ----

  /** A session that is shut down stays in AdmDown. */
  predicate ShutHolds(s: Session) { s.shutdown ==> s.state == AdmDown }

  /** Exactly one event breaks it: disabling a session that is shut down. */
  lemma ShutBreaksExactly(s: Session, e: Event)
    requires ShutHolds(s)
    ensures ShutHolds(Act(s, e).0) <==> !(e.Disable? && s.shutdown)
  {
    if e.Receive? {
      var s0 := s.(remote := e.p.my, heard := true);
      assert Handle(s0, e.p.state).0.shutdown == s.shutdown;
    }
  }

  /** The step disables a session that is shut down. */
  predicate DisablesShut(n: Net, atA: bool, e: Event) {
    e.Disable? && (if atA then n.a else n.b).shutdown
  }

  lemma {:induction false} ShutHoldsInRun(n: Net, steps: seq<(bool, Event)>)
    requires ShutHolds(n.a) && ShutHolds(n.b) && Runs(n, steps)
    requires forall i :: 0 <= i < |steps| ==> !DisablesShut(Run(n, steps[..i]), steps[i].0, steps[i].1)
    ensures ShutHolds(Run(n, steps).a) && ShutHolds(Run(n, steps).b)
    decreases |steps|
  {
    if steps != [] {
      var k := |steps| - 1;
      var pre, last := steps[..k], steps[k];
      forall i | 0 <= i < |pre| ensures !DisablesShut(Run(n, pre[..i]), pre[i].0, pre[i].1) {
        assert pre[..i] == steps[..i] && pre[i] == steps[i];
      }
      ShutHoldsInRun(n, pre);
      var m := Run(n, pre);
      assert !DisablesShut(m, last.0, last.1);
      hide Act;
      ShutBreaksExactly(if last.0 then m.a else m.b, last.1);
    }
  }

  lemma ShutThenUp(ida: nat, idb: nat)
    requires ida != 0 && idb != 0
    ensures var s1 := Act(Fresh(ida, false), Shutdown(true)).0;
            var s2 := Act(Act(s1, Disable).0, Enable).0;
            var s3 := Act(s2, Receive(Answer(ida, idb))).0;
            s3.shutdown && s3.state == Up && s3.told == StatusUp && !TimersRun(s3)
  {
  }

  /** A run in which a session is shut down, loses and regains its interface, and
      then comes up again while still marked as shut down, without a detection
      timer to take it down. */
  lemma ShutSessionComesUp(ida: nat, idb: nat) returns (steps: seq<(bool, Event)>)
    requires ida != 0 && idb != 0
    ensures Runs(Start(ida, idb, false, false), steps)
    ensures var a := Run(Start(ida, idb, false, false), steps).a;
            a.shutdown && a.state == Up && a.told == StatusUp && !TimersRun(a)
  {
    var start := Start(ida, idb, false, false);
    var answer := Answer(ida, idb);
    var n;
    steps, n := FirstHalf(ida, idb, false);
    ShutThenUp(ida, idb);
    hide Act, AsSet;
    Extend(start, steps, n, true, Shutdown(true));
    n, steps := Step(n, true, Shutdown(true)), steps + [(true, Shutdown(true))];
    Extend(start, steps, n, true, Disable);
    n, steps := Step(n, true, Disable), steps + [(true, Disable)];
    Extend(start, steps, n, true, Enable);
    n, steps := Step(n, true, Enable), steps + [(true, Enable)];
    assert answer in n.toA;
    Extend(start, steps, n, true, Receive(answer));
    n, steps := Step(n, true, Receive(answer)), steps + [(true, Receive(answer))];
  }
}

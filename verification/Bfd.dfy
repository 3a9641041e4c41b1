/** A software BFD session (bfdd/bfd.c, bfdd/bfd_packet.c; sections 6.2 and
    6.8.6 of RFC 5880): what each event does to it and what it sends. */
module Bfd {
  datatype State = AdmDown | Down | Init | Up

  /** What clients were last told. */
  datatype Status = StatusDown | StatusAdminDown | StatusUp

  datatype Packet = Packet(my: nat, your: nat, state: State, poll: bool, final: bool)

  /** struct bfd_session. `heard` is a history variable that no decision reads:
      a packet of the peer has been processed. */
  datatype Session = Session(
    my: nat, remote: nat, state: State, polling: bool, passive: bool, shutdown: bool, open: bool,
    told: Status, heard: bool)

  function Fresh(my: nat, passive: bool): Session {
    Session(my, 0, Down, false, passive, false, true, StatusDown, false)
  }

  /** ptm_bfd_snd; without a socket nothing leaves. */
  function Snd(s: Session, final: bool): (ps: seq<Packet>) {
    if !s.open || (s.remote == 0 && s.passive) then []
    else [Packet(s.my, s.remote, s.state, !final && s.polling, final)]
  }

  /** ptm_bfd_notify */
  function Notified(s: Session, st: State): Session {
    s.(told := match st
               case Up => StatusUp
               case AdmDown => StatusAdminDown
               case _ => if s.shutdown then StatusAdminDown else StatusDown)
  }

  /** ptm_bfd_sess_up */
  function SessUp(s: Session): (res: (Session, seq<Packet>)) {
    var s1 := s.(state := Up, polling := true);
    (Notified(s1, Up), Snd(s1, false))
  }

  /** ptm_bfd_sess_dn */
  function SessDn(s: Session): (res: (Session, seq<Packet>)) {
    var s1 := s.(remote := 0, state := Down, polling := false);
    (if s.state == Up then Notified(s1, Down) else s1, Snd(s1, false))
  }

  /** bs_state_handler and its per-state handlers */
  function Handle(s: Session, n: State): (res: (Session, seq<Packet>)) {
    match (s.state, n)
    case (Down, Down) =>
      var s1 := s.(state := Init);
      (s1, if s.passive then Snd(s1, false) else [])
    case (Down, Init) => SessUp(s)
    case (Init, AdmDown) => SessDn(s)
    case (Init, Init) => SessUp(s)
    case (Init, Up) => SessUp(s)
    case (Up, AdmDown) => SessDn(s)
    case (Up, Down) => SessDn(s)
    case _ => (s, [])
  }

  /** The tests of bfd_recv_cb that concern the discriminators. */
  predicate Accepts(s: Session, p: Packet) {
    && p.my != 0
    && (p.your != 0 ==> p.your == s.my)
    && (p.your == 0 ==> s.state == Down || s.state == AdmDown)
  }

  /** The control-packet part of bfd_recv_cb. */
  function Recv(s: Session, p: Packet): (res: (Session, seq<Packet>)) {
    if !Accepts(s, p) then (s, [])
    else
      var (s1, out) := Handle(s.(remote := p.my, heard := true), p.state);
      var s2 := if s1.polling && p.final then s1.(polling := false) else s1;
      (s2, out + if p.poll then Snd(s2, true) else [])
  }

  /** bfd_set_shutdown */
  function SetShutdown(s: Session, on: bool): (res: (Session, seq<Packet>)) {
    var was := s.state != Up && s.shutdown;
    if on == was then (s, [])
    else if on then
      var s1 := s.(shutdown := true, state := AdmDown);
      (Notified(s1, AdmDown), Snd(s1, false))
    else (Notified(s.(shutdown := false, state := Down), Down), [])
  }

  /** What can happen to a session. */
  datatype Event =
    | Receive(p: Packet)
    | DetectTimer
    | TransmitTimer
    | Shutdown(on: bool)
    | Passive(on: bool)
    | Enable
    | Disable

  /** Timers are not armed on a session that is shut down or has no socket. */
  predicate TimersRun(s: Session) { !s.shutdown && s.open }

  /** One event: bfd_recv_cb, bfd_recvtimer_cb, bfd_xmt_cb, bfd_set_shutdown,
      bfd_set_passive_mode, bfd_session_enable or bfd_session_disable. */
  function Act(s: Session, e: Event): (res: (Session, seq<Packet>)) {
    match e
    case Receive(p) => Recv(s, p)
    case DetectTimer => if TimersRun(s) && (s.state == Init || s.state == Up) then SessDn(s) else (s, [])
    case TransmitTimer => if TimersRun(s) then (s, Snd(s, false)) else (s, [])
    case Shutdown(on) => SetShutdown(s, on)
    case Passive(on) => (s.(passive := on), [])
    case Enable => (s.(open := true), [])
    case Disable => SessDn(s.(open := false))
  }

  class BfdSession {
    const my: nat
    var remote: nat
    var state: State
    var polling: bool
    var passive: bool
    var shutdown: bool
    var open: bool
    var told: Status
    var out: seq<Packet>
    ghost var heard: bool

    ghost function Value(): Session
      reads this
    {
      Session(my, remote, state, polling, passive, shutdown, open, told, heard)
    }

    constructor (id: nat, p: bool)
      ensures Value() == Fresh(id, p) && out == []
    {
      my, remote, state, polling, passive := id, 0, Down, false, p;
      shutdown, open, told, out, heard := false, true, StatusDown, [], false;
    }

    method Send(final: bool)
      modifies this`out
      ensures out == old(out) + Snd(Value(), final)
    {
      if remote == 0 && passive {
        return;
      }
      if open {
        out := out + [Packet(my, remote, state, !final && polling, final)];
      }
    }

    method Notify(st: State)
      modifies this`told
      ensures Value() == Notified(old(Value()), st)
    {
      match st
      case Up => told := StatusUp;
      case AdmDown => told := StatusAdminDown;
      case _ => told := if shutdown then StatusAdminDown else StatusDown;
    }

    method GoUp()
      modifies this
      ensures Value() == SessUp(old(Value())).0 && out == old(out) + SessUp(old(Value())).1
    {
      state := Up;
      polling := true;
      Send(false);
      Notify(state);
    }

    method GoDown()
      modifies this
      ensures Value() == SessDn(old(Value())).0 && out == old(out) + SessDn(old(Value())).1
    {
      var was := state;
      remote := 0;
      state := Down;
      polling := false;
      if open {
        Send(false);
      }
      if was == Up {
        Notify(Down);
      }
    }

    method HandleState(n: State)
      modifies this
      ensures Value() == Handle(old(Value()), n).0 && out == old(out) + Handle(old(Value()), n).1
    {
      match state {
        case AdmDown =>
        case Down =>
          if n == Down {
            state := Init;
            if passive {
              Send(false);
            }
          } else if n == Init {
            GoUp();
          }
        case Init =>
          if n == AdmDown {
            GoDown();
          } else if n == Init || n == Up {
            GoUp();
          }
        case Up =>
          if n == AdmDown || n == Down {
            GoDown();
          }
      }
    }

    method Receive(p: Packet)
      modifies this
      ensures Value() == Recv(old(Value()), p).0 && out == old(out) + Recv(old(Value()), p).1
    {
      if p.my == 0 || (p.your != 0 && p.your != my) {
        return;
      }
      if p.your == 0 && state != Down && state != AdmDown {
        return;
      }
      remote := p.my;
      heard := true;
      HandleState(p.state);
      if polling && p.final {
        polling := false;
      }
      if p.poll {
        Send(true);
      }
    }

    method DetectTimerExpires()
      modifies this
      ensures Value() == Act(old(Value()), DetectTimer).0 && out == old(out) + Act(old(Value()), DetectTimer).1
    {
      if shutdown || !open {
        return;
      }
      if state == Init || state == Up {
        GoDown();
      }
    }

    method SetShutdownTo(on: bool)
      modifies this
      ensures Value() == SetShutdown(old(Value()), on).0 && out == old(out) + SetShutdown(old(Value()), on).1
    {
      var was := if state == Up then false else shutdown;
      if on {
        if was {
          return;
        }
        shutdown := true;
        state := AdmDown;
        Notify(state);
        if open {
          Send(false);
        }
      } else {
        if !was {
          return;
        }
        shutdown := false;
        state := Down;
        Notify(state);
      }
    }

    method DisableSession()
      modifies this
      ensures Value() == Act(old(Value()), Disable).0 && out == old(out) + Act(old(Value()), Disable).1
    {
      open := false;
      GoDown();
    }
  }
}

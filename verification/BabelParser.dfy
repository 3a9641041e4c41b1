/** The receiving side of babeld/message.c: one pass checks a packet, a second
    one interprets it with running state. */
module BabelParser {
  import opened Options
  import opened Bytes
  import opened BabelWire
  import opened BabelRoundTrip

  /** The packet has a Babel header and a body that fits and is well formed. */
  predicate Examined(packet: seq<Byte>) {
    && |packet| >= 4 && packet[0] == 42 && packet[1] == 2
    && Word(packet[2], packet[3]) + 4 <= |packet|
    && WellFormed(Body(packet))
  }

  function Body(packet: seq<Byte>): (b: seq<Byte>)
    requires |packet| >= 4 && Word(packet[2], packet[3]) + 4 <= |packet|
  {
    packet[4..4 + Word(packet[2], packet[3])]
  }

  /** babel_packet_examin */
  method Examin(packet: seq<Byte>) returns (bodylen: Option<nat>)
    ensures bodylen.Some? <==> Examined(packet)
    ensures bodylen.Some? ==> bodylen.value == Word(packet[2], packet[3])
  {
    if |packet| < 4 || packet[0] != 42 || packet[1] != 2 {
      return None;
    }
    var n := Word(packet[2], packet[3]);
    if n + 4 > |packet| {
      return None;
    }
    ghost var b := Body(packet);
    var i := 0;
    while i < n
      invariant 0 <= i <= n
      invariant WellFormed(b) == WellFormed(b[i..])
    {
      var kind := packet[4 + i];
      assert b[i..][0] == kind;
      if kind == PAD1 {
        assert b[i..][1..] == b[i + 1..];
        i := i + 1;
        continue;
      }
      if i + 2 > n {
        return None;
      }
      var len: int := packet[4 + i + 1];
      assert b[i..][1] == len;
      if i + len + 2 > n {
        return None;
      }
      if len < MinLength(kind) {
        return None;
      }
      assert b[i..][len + 2..] == b[i + len + 2..];
      i := i + len + 2;
    }
    return Some(n);
  }

  /** parse_packet, as far as updates and what they depend on are concerned. */
  method ParsePacket(rx: Receiver, packet: seq<Byte>) returns (events: seq<Event>)
    ensures events == if LinkLocal(rx.from) && Examined(packet)
                      then ParseBody(rx, Start(rx), Body(packet)).1 else []
  {
    if !LinkLocal(rx.from) {
      return [];
    }
    var bodylen := Examin(packet);
    if bodylen.None? {
      return [];
    }
    events := Interpret(rx, packet[4..4 + bodylen.value]);
  }

  /** One turn of the parser's loop. */
  lemma Turn(rx: Receiver, d: Decoder, b: seq<Byte>, i: nat)
    requires i < |b| && WellFormed(b[i..])
    ensures b[i] == PAD1 ==> WellFormed(b[i + 1..]) && ParseBody(rx, d, b[i..]) == ParseBody(rx, d, b[i + 1..])
    ensures b[i] != PAD1 ==>
              && i + 1 < |b| && i + b[i + 1] + 2 <= |b|
              && var j: int := i + b[i + 1] + 2;
                 var t := Tlv(b[i], b[i + 2..j]);
                 && TlvOk(t) && WellFormed(b[j..])
                 && ParseBody(rx, d, b[i..]).1 == Step(rx, d, t).1 + ParseBody(rx, Step(rx, d, t).0, b[j..]).1
  {
    hide Step;
    var rest := b[i..];
    if b[i] == PAD1 {
      assert rest[1..] == b[i + 1..];
    } else {
      assert rest[1] == b[i + 1];
      var len: int := b[i + 1];
      assert rest[len + 2..] == b[i + len + 2..] && rest[2..len + 2] == b[i + 2..i + len + 2];
    }
  }

  /** The loop of parse_packet over a body that has passed examination. */
  method Interpret(rx: Receiver, b: seq<Byte>) returns (events: seq<Event>)
    requires WellFormed(b)
    ensures events == ParseBody(rx, Start(rx), b).1
  {
    hide Step, Start, ParseBody, WellFormed;
    var d := Start(rx);
    events := [];
    var i := 0;
    assert b[0..] == b;
    while i < |b|
      invariant 0 <= i <= |b| && WellFormed(b[i..])
      invariant ParseBody(rx, Start(rx), b).1 == events + ParseBody(rx, d, b[i..]).1
    {
      Turn(rx, d, b, i);
      if b[i] == PAD1 {
        i := i + 1;
        continue;
      }
      var len: int := b[i + 1];
      var (d', es) := Step(rx, d, Tlv(b[i], b[i + 2..i + len + 2]));
      d := d';
      events := events + es;
      i := i + len + 2;
    }
    Done(rx, d, b);
  }

  lemma Done(rx: Receiver, d: Decoder, b: seq<Byte>)
    ensures WellFormed(b[|b|..]) && ParseBody(rx, d, b[|b|..]) == (d, [])
  {
  }

  /** The packet that carries a body. */
  function Packet(body: seq<Byte>): (p: seq<Byte>)
    requires |body| < 65536
  {
    [42, 2] + Short(|body|) + body
  }

  lemma PacketBody(body: seq<Byte>)
    requires |body| < 65536
    ensures var p := Packet(body);
            |p| >= 4 && p[0] == 42 && p[1] == 2 && Word(p[2], p[3]) + 4 <= |p| && Body(p) == body
  {
    WordOfShort(|body|);
  }

  /** A packet made of any items passes examination and is read back exactly. */
  lemma PacketDelivers(rx: Receiver, items: seq<Item>)
    requires ItemsOk(items) && LinkLocal(rx.from) && |Flatten(EncodeAll(FRESH, items).1)| < 65536
    ensures var p := Packet(Flatten(EncodeAll(FRESH, items).1));
            Examined(p) && ParseBody(rx, Start(rx), Body(p)).1 == Meanings(rx, items)
  {
    var body := Flatten(EncodeAll(FRESH, items).1);
    var p := Packet(body);
    RoundTrip(rx, items);
    hide EncodeAll, Flatten, WellFormed, ParseBody, Meanings;
    PacketBody(body);
  }
}

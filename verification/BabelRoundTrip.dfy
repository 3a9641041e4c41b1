/** Whatever a sender put into a packet, the receiver reads out of it. */
module BabelRoundTrip {
  import opened Options
  import opened Seqno
  import opened Bytes
  import opened BabelWire

  lemma ParseOne(rx: Receiver, d: Decoder, t: Tlv)
    requires TlvOk(t)
    ensures TlvsOk([t]) && ParseTlvs(rx, d, [t]) == Step(rx, d, t)
  {
    var (d1, events) := Step(rx, d, t);
    assert [t][1..] == [] && ParseTlvs(rx, d1, []) == (d1, []);
    assert events + [] == events;
  }

  /** A Next Hop TLV, left out when the receiver has that next hop already. */
  lemma NhParses(rx: Receiver, d: Decoder, nh: seq<Byte>, needed: bool)
    requires |nh| == 4 && (!needed ==> d.v4Nh == Some(Mapped(nh)))
    ensures var ts := if needed then [Tlv(NH, [1, 0] + nh)] else [];
            TlvsOk(ts) && ParseTlvs(rx, d, ts) == (d.(v4Nh := Some(Mapped(nh))), [])
  {
    if needed {
      var p := [1, 0] + nh;
      assert p[2..] == nh && nh[..4] == nh;
      assert V4_PREFIX + nh + Zeros(0) == Mapped(nh);
      assert NetworkPrefix(1, -1, 0, p[2..], None) == Some((4, Mapped(nh)));
      ParseOne(rx, d, Tlv(NH, p));
    }
  }

  lemma IdParses(rx: Receiver, d: Decoder, id: seq<Byte>, needed: bool)
    requires |id| == 8
    ensures var ts := if needed then [Tlv(ROUTER_ID, [0, 0] + id)] else [];
            TlvsOk(ts) && ParseTlvs(rx, d, ts) == (if needed then d.(id := Some(id)) else d, [])
  {
    if needed {
      assert ([0, 0] + id)[2..10] == id;
      ParseOne(rx, d, Tlv(ROUTER_ID, [0, 0] + id));
    }
  }

  lemma WildcardParses(rx: Receiver, d: Decoder, seqno: U16)
    ensures var t := WildcardTlv(seqno);
            ParseTlvs(rx, d, [t]) == (d.(id := Some(Zeros(8))), [RetractAll])
  {
    var p := [0, 0x40, 0, 0] + Short(0xFFFF) + Short(seqno) + Short(0xFFFF);
    assert |p| == 10 && p[0] == 0 && p[1] == 0x40 && p[2] == 0 && p[3] == 0 && p[8] == 255 && p[9] == 255;
    assert MaskPrefix(Zeros(16), 0) == Zeros(16);
    assert NetworkPrefix(0, 0, 0, p[10..], d.v6Prefix) == Some((0, Zeros(16)));
    assert Zeros(16)[8..] == Zeros(8);
    ParseOne(rx, d, Tlv(UPDATE, p));
  }

  /** Three groups of TLVs, one after the other. */
  lemma ParseThree(rx: Receiver, d: Decoder, a: seq<Tlv>, b: seq<Tlv>, c: seq<Tlv>, d1: Decoder, d2: Decoder)
    requires TlvsOk(a) && TlvsOk(b) && TlvsOk(c)
    requires ParseTlvs(rx, d, a) == (d1, []) && ParseTlvs(rx, d1, b) == (d2, [])
    ensures TlvsOk(a + b + c) && ParseTlvs(rx, d, a + b + c) == ParseTlvs(rx, d2, c)
  {
    ParseConcat(rx, d, a, b);
    ParseConcat(rx, d, a + b, c);
    assert [] + ParseTlvs(rx, d2, c).1 == ParseTlvs(rx, d2, c).1;
  }

  lemma AnnounceParses(rx: Receiver, e: Encoder, d: Decoder, it: Item)
    requires it.Announce? && ItemOk(it) && InStep(rx, e, d)
    ensures var (e', ts) := Encode(e, it);
            var (d', events) := ParseTlvs(rx, d, ts);
            InStep(rx, e', d') && events == Meaning(rx, it)
  {
    var v4, newId := IsV4(it.prefix, it.plen), e.id != Some(it.id);
    var noted, inPrefix, omit := Noted(e, it), InPrefix(e, it), Omit(e, it);
    var upd := UpdateTlv(it, Flags(e, it), omit);
    var d1 := if v4 then d.(v4Nh := Some(Mapped(it.nh))) else d;
    var d2 := if newId && !inPrefix then d1.(id := Some(it.id)) else d1;
    if v4 { NhParses(rx, d, it.nh, e.nh != Some(it.nh)); } else if it.plen < 96 { ShortIsNotMapped(it.prefix, it.plen); }
    hide Step, Masked, UpdateTlv, Mapped;
    IdParses(rx, d1, it.id, newId && !inPrefix);
    ParseOne(rx, d2, upd);
    ParseThree(rx, d, NhPart(e, it), IdPart(e, it), [upd], d1, d2);
    AnnounceStep(rx, d2, it, noted, inPrefix, omit);
  }

  lemma AnnounceStep(rx: Receiver, d: Decoder, it: Item, noted: bool, inPrefix: bool, omit: nat)
    requires it.Announce? && ItemOk(it)
    requires var v4 := IsV4(it.prefix, it.plen);
             && (v4 ==> !noted && !inPrefix && omit == 0 && d.v4Nh == Some(Mapped(it.nh)))
             && (!v4 ==> omit <= it.plen / 8)
    requires omit > 0 ==> d.v6Prefix.Some? && !V4Mapped(d.v6Prefix.value) && d.v6Prefix.value[..omit] == it.prefix[..omit]
    requires if inPrefix then it.prefix[8..] == it.id else d.id == Some(it.id)
    requires d.v6Nh == Some(rx.from)
    ensures var flags := (if noted then 0x80 else 0) + if inPrefix then 0x40 else 0;
            Step(rx, d, UpdateTlv(it, flags, omit)) ==
            (d.(id := Some(it.id), v6Prefix := if noted then Some(it.prefix) else d.v6Prefix), Meaning(rx, it))
  {
    hide UpdateStep, Meaning;
    UpdateParses(rx, d, it, noted, inPrefix, omit);
  }

  /** One item: the receiver gets its meaning and stays in step. */
  lemma ItemParses(rx: Receiver, e: Encoder, d: Decoder, it: Item)
    requires ItemOk(it) && InStep(rx, e, d)
    ensures var (e', ts) := Encode(e, it);
            var (d', events) := ParseTlvs(rx, d, ts);
            InStep(rx, e', d') && events == Meaning(rx, it)
  {
    match it
    case Announce(_, _, _, _, _, _, _, _) => AnnounceParses(rx, e, d, it);
    case Wildcard(seqno) => WildcardParses(rx, d, seqno);
    case Other(t) => ParseOne(rx, d, t);
  }

  function Meanings(rx: Receiver, items: seq<Item>): seq<Event>
    requires ItemsOk(items)
  {
    if items == [] then [] else Meanings(rx, items[..|items| - 1]) + Meaning(rx, items[|items| - 1])
  }

  lemma {:induction false} ItemsParse(rx: Receiver, e: Encoder, d: Decoder, items: seq<Item>)
    requires ItemsOk(items) && InStep(rx, e, d)
    ensures var (e', ts) := EncodeAll(e, items);
            var (d', events) := ParseTlvs(rx, d, ts);
            InStep(rx, e', d') && events == Meanings(rx, items)
    decreases |items|
  {
    if items != [] {
      var pre, it := items[..|items| - 1], items[|items| - 1];
      ItemsParse(rx, e, d, pre);
      var (e1, ts) := EncodeAll(e, pre);
      var d1 := ParseTlvs(rx, d, ts).0;
      hide InStep, Encode, Meaning, ItemOk;
      ItemParses(rx, e1, d1, it);
      ParseConcat(rx, d, ts, Encode(e1, it).1);
    }
  }

  predicate LinkLocal(a: Address) { a[..8] == [0xFE, 0x80, 0, 0, 0, 0, 0, 0] }

  /** The packet body made of any sequence of items is well formed, and parsing
      it yields the items' meanings, whatever was left out of it. */
  lemma RoundTrip(rx: Receiver, items: seq<Item>)
    requires ItemsOk(items) && LinkLocal(rx.from)
    ensures var body := Flatten(EncodeAll(FRESH, items).1);
            WellFormed(body) && ParseBody(rx, Start(rx), body).1 == Meanings(rx, items)
  {
    assert rx.from[..8][0] == 0xFE && rx.from[..12][0] == 0xFE;
    ItemsParse(rx, FRESH, Start(rx), items);
    ParseFlatten(rx, Start(rx), EncodeAll(FRESH, items).1);
  }
}

/** Babel's update codec (babeld/message.c; section 4.5 of RFC 8966). The
    encoder leaves out whatever the packet already told the receiver; the
    parser rebuilds it from running state. */
module BabelWire {
  import opened Options
  import opened Seqno
  import opened BabelTypes
  import opened Bytes

  const PAD1: Byte := 0
  const ROUTER_ID: Byte := 6
  const NH: Byte := 7
  const UPDATE: Byte := 8

  // ---- TLVs ----

  datatype Tlv = Tlv(kind: Byte, payload: seq<Byte>)

  /** tlv_min_length */
  function MinLength(kind: Byte): nat {
    if kind == 2 || kind == 4 || kind == 5 then 6
    else if kind == 3 || kind == NH || kind == 9 then 2
    else if kind == ROUTER_ID || kind == UPDATE then 10
    else if kind == 10 then 14
    else 0
  }

  predicate TlvOk(t: Tlv) {
    t.kind != PAD1 && MinLength(t.kind) <= |t.payload| < 256
  }

  function TlvBytes(t: Tlv): (b: seq<Byte>)
    requires TlvOk(t)
  {
    [t.kind, |t.payload|] + t.payload
  }

  predicate TlvsOk(ts: seq<Tlv>) { forall i :: 0 <= i < |ts| ==> TlvOk(ts[i]) }

  function Flatten(ts: seq<Tlv>): (b: seq<Byte>)
    requires TlvsOk(ts)
  {
    if ts == [] then [] else TlvBytes(ts[0]) + Flatten(ts[1..])
  }

  /** What babel_packet_examin demands of a packet body. */
  predicate WellFormed(b: seq<Byte>) {
    || b == []
    || (b[0] == PAD1 && WellFormed(b[1..]))
    || (b[0] != PAD1 && |b| >= 2 && b[1] + 2 <= |b| && MinLength(b[0]) <= b[1] && WellFormed(b[b[1] + 2..]))
  }

  // ---- The receiver ----

  /** The running state of parse_packet. */
  datatype Decoder = Decoder(
    id: Option<seq<Byte>>, v4Prefix: Option<Address>, v6Prefix: Option<Address>,
    v4Nh: Option<Address>, v6Nh: Option<Address>)

  /** What the parser reads besides the packet: the sender's address, whether
      the interface has an IPv4 address, and whether it is far away. */
  datatype Receiver = Receiver(from: Address, ipv4: bool, faraway: bool)

  datatype Event =
    | Learnt(id: Option<seq<Byte>>, prefix: Address, plen: nat, seqno: U16, metric: U16,
            interval: U16, nh: Address, channels: seq<Byte>)
    | RetractAll

  function Start(rx: Receiver): Decoder {
    if V4Mapped(rx.from) then Decoder(None, None, None, Some(rx.from), None)
    else Decoder(None, None, None, None, Some(rx.from))
  }

  /** network_prefix with a non-negative result: bytes used and the prefix.
      A negative plen asks for a whole address. */
  function NetworkPrefix(ae: Byte, plen: int, omitted: Byte, p: seq<Byte>, dp: Option<Address>): Option<(nat, Address)>
    requires plen >= -1
  {
    var pb := if plen >= 0 then PrefixBytes(plen) else if ae == 1 then 4 else 16;
    var bits := if plen < 0 then 128 else if ae == 1 then plen + 96 else plen;
    if pb > 16 then None
    else if ae == 0 then Some((0, MaskPrefix(Zeros(16), bits)))
    else if ae == 1 then
      if omitted > pb || pb > 4 || |p| < pb - omitted || (omitted != 0 && (dp.None? || !V4Mapped(dp.value))) then None
      else
        var start := if omitted == 0 then V4_PREFIX else dp.value[..12 + omitted];
        Some((pb - omitted, MaskPrefix(start + p[..pb - omitted] + Zeros(4 - pb), bits)))
    else if ae == 2 then
      if omitted > pb || |p| < pb - omitted || (omitted != 0 && (dp.None? || V4Mapped(dp.value))) then None
      else
        var start := if omitted == 0 then [] else dp.value[..omitted];
        Some((pb - omitted, MaskPrefix(start + p[..pb - omitted] + Zeros(16 - pb), bits)))
    else if ae == 3 then
      if pb < 8 || |p| < pb - 8 then None
      else Some((pb - 8, MaskPrefix([0xFE, 0x80] + Zeros(6) + p[..pb - 8] + Zeros(16 - pb), bits)))
    else None
  }

  /** parse_update_subtlv: whether the update is to be ignored, and the channels. */
  function SubTlvs(a: seq<Byte>, channels: seq<Byte>): (bool, seq<Byte>)
    decreases |a|
  {
    if a == [] then (false, channels)
    else if a[0] == 0 then SubTlvs(a[1..], channels)
    else if |a| < 2 || a[1] + 2 > |a| then (false, channels)
    else if a[0] >= 128 then (true, channels)
    else if a[0] == 2 then
      var n := Min(a[1], 8);
      if 0 in a[2..2 + n] then (false, channels) else SubTlvs(a[n + 2..], a[2..2 + n])
    else SubTlvs(a[a[1] + 2..], channels)
  }

  /** channels[0] before the sub-TLVs are read. */
  function DefaultChannels(rx: Receiver, metric: U16): seq<Byte> {
    if rx.faraway || metric < 256 then [] else [255]
  }

  predicate Flag80(flags: Byte) { flags >= 128 }

  predicate Flag40(flags: Byte) { flags / 64 % 2 == 1 }

  function NotePrefix(d: Decoder, ae: Byte, flags: Byte, prefix: Address): Decoder {
    if !Flag80(flags) then d
    else if ae == 1 then d.(v4Prefix := Some(prefix)) else d.(v6Prefix := Some(prefix))
  }

  function NoteId(d: Decoder, ae: Byte, flags: Byte, prefix: Address): Decoder {
    if !Flag40(flags) then d
    else if ae == 1 then d.(id := Some(Zeros(4) + prefix[12..])) else d.(id := Some(prefix[8..]))
  }

  function NextHop(rx: Receiver, d: Decoder, ae: Byte): Option<Address> {
    if ae == 1 then if rx.ipv4 then d.v4Nh else None
    else if d.v6Nh.Some? then d.v6Nh
    else Some(rx.from)
  }

  /** The fixed part of an Update TLV. */
  datatype Header = Header(ae: Byte, flags: Byte, plen: Byte, omitted: Byte, interval: U16, seqno: U16, metric: U16)

  /** An update whose prefix has been rebuilt; `sub` are its sub-TLVs. */
  function Accept(rx: Receiver, d: Decoder, h: Header, prefix: Address, sub: seq<Byte>): (Decoder, seq<Event>) {
    var d2 := NoteId(NotePrefix(d, h.ae, h.flags, prefix), h.ae, h.flags, prefix);
    (d2,
     if h.ae == 0 then if h.metric < INF || h.plen != 0 || h.omitted != 0 then [] else [RetractAll]
     else if h.metric < INF && d2.id.None? then []
     else
       match NextHop(rx, d2, h.ae)
       case None => []
       case Some(nh) =>
         var (ignore, channels) := if rx.faraway then (false, []) else SubTlvs(sub, DefaultChannels(rx, h.metric));
         if ignore then []
         else [Learnt(d2.id, prefix, h.plen + (if h.ae == 1 then 96 else 0), h.seqno, h.metric, h.interval, nh, channels)])
  }

  /** The Update branch of parse_packet. */
  function UpdateStep(rx: Receiver, d: Decoder, p: seq<Byte>): (Decoder, seq<Event>)
    requires |p| >= 10
  {
    var ae, flags, plen, omitted := p[0], p[1], p[2], p[3];
    var interval, seqno, metric := Word(p[4], p[5]), Word(p[6], p[7]), Word(p[8], p[9]);
    if ae > 3 then (d, [])
    else
      var dp := if ae == 1 then d.v4Prefix else d.v6Prefix;
      var rebuilt: Option<(nat, Address)> :=
        if omitted != 0 && dp.None? then None else NetworkPrefix(ae, plen, omitted, p[10..], dp);
      match rebuilt
      case None => (if Flag80(flags) then d.(v4Prefix := None, v6Prefix := None) else d, [])
      case Some((n, prefix)) =>
        Accept(rx, d, Header(ae, flags, plen, omitted, interval, seqno, metric), prefix, p[Min(10 + n, |p|)..])
  }

  /** The NH branch: anything but a full IPv4 or link-local address clears both. */
  function NhStep(d: Decoder, p: seq<Byte>): Decoder
    requires |p| >= 2
  {
    match if p[0] == 1 || p[0] == 3 then NetworkPrefix(p[0], -1, 0, p[2..], None) else None
    case None => d.(v4Nh := None, v6Nh := None)
    case Some((_, nh)) => if p[0] == 1 then d.(v4Nh := Some(nh)) else d.(v6Nh := Some(nh))
  }

  /** One TLV; the kinds that touch neither the running state nor the routes
      are handled elsewhere. */
  function Step(rx: Receiver, d: Decoder, t: Tlv): (Decoder, seq<Event>)
    requires TlvOk(t)
  {
    if t.kind == ROUTER_ID then (d.(id := Some(t.payload[2..10])), [])
    else if t.kind == NH then (NhStep(d, t.payload), [])
    else if t.kind == UPDATE then UpdateStep(rx, d, t.payload)
    else (d, [])
  }

  /** The loop of parse_packet over a body that has passed examination. */
  function ParseBody(rx: Receiver, d: Decoder, b: seq<Byte>): (Decoder, seq<Event>)
    requires WellFormed(b)
    decreases |b|
  {
    if b == [] then (d, [])
    else if b[0] == PAD1 then ParseBody(rx, d, b[1..])
    else
      var len: int := b[1];
      var n := len + 2;
      var (d1, events) := Step(rx, d, Tlv(b[0], b[2..n]));
      var (d2, more) := ParseBody(rx, d1, b[n..]);
      (d2, events + more)
  }

  function ParseTlvs(rx: Receiver, d: Decoder, ts: seq<Tlv>): (Decoder, seq<Event>)
    requires TlvsOk(ts)
    decreases |ts|
  {
    if ts == [] then (d, [])
    else
      var (d1, events) := Step(rx, d, ts[0]);
      var (d2, more) := ParseTlvs(rx, d1, ts[1..]);
      (d2, events + more)
  }

  /** Cutting a body made of TLVs finds those TLVs again. */
  lemma {:induction false} ParseFlatten(rx: Receiver, d: Decoder, ts: seq<Tlv>)
    requires TlvsOk(ts)
    ensures WellFormed(Flatten(ts)) && ParseBody(rx, d, Flatten(ts)) == ParseTlvs(rx, d, ts)
    decreases |ts|
  {
    if ts != [] {
      var t, rest := ts[0], Flatten(ts[1..]);
      var b := Flatten(ts);
      var n := |t.payload| + 2;
      assert b[n..] == rest && b[2..n] == t.payload && b[0] == t.kind && b[1] == |t.payload|;
      ParseFlatten(rx, Step(rx, d, t).0, ts[1..]);
    }
  }

  lemma {:induction false} FlattenConcat(a: seq<Tlv>, b: seq<Tlv>)
    requires TlvsOk(a) && TlvsOk(b)
    ensures TlvsOk(a + b) && Flatten(a + b) == Flatten(a) + Flatten(b)
  {
    if a == [] {
      assert a + b == b;
    } else {
      hide TlvBytes, TlvOk;
      FlattenConcat(a[1..], b);
      assert (a + b)[1..] == a[1..] + b;
      assert TlvBytes(a[0]) + (Flatten(a[1..]) + Flatten(b)) == TlvBytes(a[0]) + Flatten(a[1..]) + Flatten(b);
    }
  }

  lemma {:induction false} ParseConcat(rx: Receiver, d: Decoder, a: seq<Tlv>, b: seq<Tlv>)
    requires TlvsOk(a) && TlvsOk(b)
    ensures TlvsOk(a + b)
    ensures var (d1, events) := ParseTlvs(rx, d, a);
            var (d2, more) := ParseTlvs(rx, d1, b);
            ParseTlvs(rx, d, a + b) == (d2, events + more)
    decreases |a|
  {
    if a == [] {
      assert a + b == b;
      assert [] + ParseTlvs(rx, d, b).1 == ParseTlvs(rx, d, b).1;
    } else {
      hide Step, TlvOk;
      var (d1, events) := Step(rx, d, a[0]);
      ParseConcat(rx, d1, a[1..], b);
      assert (a + b)[1..] == a[1..] + b;
      var (d2, more) := ParseTlvs(rx, d1, a[1..]);
      var last := ParseTlvs(rx, d2, b).1;
      assert events + (more + last) == events + more + last;
    }
  }

  // ---- The sender ----

  /** The have_buffered_* fields of an interface. */
  datatype Encoder = Encoder(id: Option<seq<Byte>>, nh: Option<seq<Byte>>, prefix: Option<Address>)

  const FRESH := Encoder(None, None, None)

  /** What is put into the send buffer: an update as really_send_update sends
      it (nh is the interface's IPv4 address), a wildcard retraction, or a TLV
      of another kind. */
  datatype Item =
    | Announce(id: seq<Byte>, prefix: Address, plen: nat, seqno: U16, metric: U16,
               interval: U16, nh: seq<Byte>, channels: Option<seq<Byte>>)
    | Wildcard(seqno: U16)
    | Other(tlv: Tlv)

  predicate ItemOk(it: Item) {
    match it
    case Announce(id, prefix, plen, _, _, _, nh, channels) =>
      && |id| == 8 && plen <= 128 && Masked(prefix, plen) && |nh| == 4
      && (channels.Some? ==> |channels.value| <= 8 && 0 !in channels.value)
    case Wildcard(_) => true
    case Other(t) => TlvOk(t) && t.kind != ROUTER_ID && t.kind != NH && t.kind != UPDATE
  }

  predicate ItemsOk(items: seq<Item>) { forall i :: 0 <= i < |items| ==> ItemOk(items[i]) }

  /** The loop that computes omit. */
  function Common(a: seq<Byte>, b: seq<Byte>, n: nat): (k: nat)
    requires n <= |a| && n <= |b|
    ensures k <= n && a[..k] == b[..k] && forall i :: 0 <= i < k ==> a[i] == b[i]
    ensures k < n ==> a[k] != b[k]
  {
    if n == 0 then 0
    else
      var k := Common(a, b, n - 1);
      if k == n - 1 && a[k] == b[k] then n else k
  }

  predicate IsV4(prefix: Address, plen: nat) { plen >= 96 && V4Mapped(prefix) }

  function SubTlv(channels: Option<seq<Byte>>): (b: seq<Byte>)
    requires channels.Some? ==> |channels.value| <= 8
  {
    if channels.None? then [] else [2, |channels.value|] + channels.value
  }

  function Ae(it: Item): Byte
    requires it.Announce?
  {
    if IsV4(it.prefix, it.plen) then 1 else 2
  }

  /** The prefix length as it is sent. */
  function Bits(it: Item): (n: nat)
    requires it.Announce? && it.plen <= 128
    ensures n <= (if IsV4(it.prefix, it.plen) then 32 else 128)
  {
    if IsV4(it.prefix, it.plen) then it.plen - 96 else it.plen
  }

  /** The prefix bytes that are sent when `omit` of them are left out. */
  function Shown(it: Item, omit: nat): (b: seq<Byte>)
    requires it.Announce? && it.plen <= 128 && omit <= if IsV4(it.prefix, it.plen) then 0 else it.plen / 8
    ensures |b| == PrefixBytes(Bits(it)) - omit
  {
    if IsV4(it.prefix, it.plen) then it.prefix[12..12 + PrefixBytes(Bits(it))]
    else it.prefix[omit..PrefixBytes(Bits(it))]
  }

  /** The Update TLV. */
  function UpdateTlv(it: Item, flags: Byte, omit: nat): (t: Tlv)
    requires it.Announce? && ItemOk(it) && omit <= if IsV4(it.prefix, it.plen) then 0 else it.plen / 8
    ensures TlvOk(t) && |t.payload| <= 36
  {
    Tlv(UPDATE, [Ae(it), flags, Bits(it), omit]
        + Short(it.interval) + Short(it.seqno) + Short(it.metric) + (Shown(it, omit) + SubTlv(it.channels)))
  }

  function WildcardTlv(seqno: U16): (t: Tlv)
    ensures TlvOk(t)
  {
    Tlv(UPDATE, [0, 0x40, 0, 0] + Short(0xFFFF) + Short(seqno) + Short(0xFFFF))
  }

  /** How many leading bytes of the prefix the receiver has already. */
  function Omit(e: Encoder, it: Item): (n: nat)
    requires it.Announce? && ItemOk(it)
    ensures n <= if IsV4(it.prefix, it.plen) then 0 else it.plen / 8
  {
    if IsV4(it.prefix, it.plen) || e.prefix.None? then 0 else Common(e.prefix.value, it.prefix, it.plen / 8)
  }

  /** The prefix becomes the one that later updates refer to. */
  predicate Noted(e: Encoder, it: Item)
    requires it.Announce?
  {
    !IsV4(it.prefix, it.plen) && (e.prefix.None? || it.plen >= 48)
  }

  /** The prefix carries the router-id. */
  predicate InPrefix(e: Encoder, it: Item)
    requires it.Announce?
  {
    e.id != Some(it.id) && !IsV4(it.prefix, it.plen) && it.plen == 128 && it.prefix[8..] == it.id
  }

  function Flags(e: Encoder, it: Item): Byte
    requires it.Announce?
  {
    (if Noted(e, it) then 0x80 else 0) + if InPrefix(e, it) then 0x40 else 0
  }

  function NhPart(e: Encoder, it: Item): (ts: seq<Tlv>)
    requires it.Announce? && ItemOk(it)
    ensures TlvsOk(ts)
  {
    if IsV4(it.prefix, it.plen) && e.nh != Some(it.nh) then [Tlv(NH, [1, 0] + it.nh)] else []
  }

  function IdPart(e: Encoder, it: Item): (ts: seq<Tlv>)
    requires it.Announce? && ItemOk(it)
    ensures TlvsOk(ts)
  {
    if e.id != Some(it.id) && !InPrefix(e, it) then [Tlv(ROUTER_ID, [0, 0] + it.id)] else []
  }

  /** really_send_update after its filters, send_wildcard_retraction, or one
      other TLV: the new buffered state and the TLVs written. */
  function Encode(e: Encoder, it: Item): (res: (Encoder, seq<Tlv>))
    requires ItemOk(it)
    ensures TlvsOk(res.1)
  {
    match it
    case Other(t) => (e, [t])
    case Wildcard(seqno) =>
      (e.(id := None), [WildcardTlv(seqno)])
    case Announce(id, prefix, plen, _, _, _, nh, _) =>
      (Encoder(Some(id), if IsV4(prefix, plen) then Some(nh) else e.nh, if Noted(e, it) then Some(prefix) else e.prefix),
       NhPart(e, it) + IdPart(e, it) + [UpdateTlv(it, Flags(e, it), Omit(e, it))])
  }

  function EncodeAll(e: Encoder, items: seq<Item>): (res: (Encoder, seq<Tlv>))
    requires ItemsOk(items)
    ensures TlvsOk(res.1)
    decreases |items|
  {
    if items == [] then (e, [])
    else
      var (e1, ts) := EncodeAll(e, items[..|items| - 1]);
      var (e2, more) := Encode(e1, items[|items| - 1]);
      (e2, ts + more)
  }

  // ---- Round trip ----

  function Mapped(ip: seq<Byte>): (a: Address)
    requires |ip| == 4
  {
    V4_PREFIX + ip
  }

  /** What the receiver should make of an item. */
  function Meaning(rx: Receiver, it: Item): seq<Event>
    requires ItemOk(it)
  {
    match it
    case Other(_) => []
    case Wildcard(_) => [RetractAll]
    case Announce(id, prefix, plen, seqno, metric, interval, nh, channels) =>
      var v4 := IsV4(prefix, plen);
      if v4 && !rx.ipv4 then []
      else [Learnt(Some(id), prefix, plen, seqno, metric, interval, if v4 then Mapped(nh) else rx.from,
                   if rx.faraway then [] else if channels.Some? then channels.value else DefaultChannels(rx, metric))]
  }

  /** The receiver knows whatever the sender counts on. */
  predicate InStep(rx: Receiver, e: Encoder, d: Decoder) {
    && (e.id.Some? ==> d.id == e.id)
    && (e.nh.Some? ==> |e.nh.value| == 4 && d.v4Nh == Some(Mapped(e.nh.value)))
    && (e.prefix.Some? ==> d.v6Prefix == e.prefix && !V4Mapped(e.prefix.value))
    && d.v6Nh == Some(rx.from)
  }

  lemma Layout(h: seq<Byte>, a: seq<Byte>, b: seq<Byte>, c: seq<Byte>, t: seq<Byte>)
    requires |h| == 4 && |a| == 2 && |b| == 2 && |c| == 2
    ensures var p := h + a + b + c + t;
            && p[0] == h[0] && p[1] == h[1] && p[2] == h[2] && p[3] == h[3]
            && p[4] == a[0] && p[5] == a[1] && p[6] == b[0] && p[7] == b[1] && p[8] == c[0] && p[9] == c[1]
            && p[10..] == t
  {
  }

  lemma UpdatePayload(it: Item, flags: Byte, omit: nat)
    requires it.Announce? && ItemOk(it) && omit <= if IsV4(it.prefix, it.plen) then 0 else it.plen / 8
    ensures var p := UpdateTlv(it, flags, omit).payload;
            && |p| >= 10 && p[0] == Ae(it) && p[1] == flags && p[2] == Bits(it) && p[3] == omit
            && Word(p[4], p[5]) == it.interval && Word(p[6], p[7]) == it.seqno && Word(p[8], p[9]) == it.metric
            && p[10..] == Shown(it, omit) + SubTlv(it.channels)
  {
    WordOfShort(it.interval);
    WordOfShort(it.seqno);
    WordOfShort(it.metric);
    hide Short, Word, Shown, SubTlv, Ae, Bits, Masked, IsV4;
    Layout([Ae(it), flags, Bits(it), omit], Short(it.interval), Short(it.seqno), Short(it.metric),
           Shown(it, omit) + SubTlv(it.channels));
  }

  /** The parser rebuilds an IPv6 prefix whose first bytes were left out. */
  lemma RebuildV6(prefix: Address, plen: nat, omit: nat, more: seq<Byte>, dp: Option<Address>)
    requires plen <= 128 && Masked(prefix, plen) && omit <= plen / 8
    requires omit > 0 ==> dp.Some? && !V4Mapped(dp.value) && dp.value[..omit] == prefix[..omit]
    ensures NetworkPrefix(2, plen, omit, prefix[omit..PrefixBytes(plen)] + more, dp) ==
            Some((PrefixBytes(plen) - omit, prefix))
  {
    var pb := PrefixBytes(plen);
    var p := prefix[omit..pb] + more;
    var start := if omit == 0 then [] else dp.value[..omit];
    hide MaskPrefix, V4Mapped, Zeros;
    assert start == prefix[..omit];
    Rejoin(prefix, omit, pb, more);
    MaskReads(start + p[..pb - omit] + Zeros(16 - pb), prefix, plen);
  }

  lemma Rejoin(prefix: Address, omit: nat, pb: nat, more: seq<Byte>)
    requires omit <= pb <= 16
    ensures var whole := prefix[..omit] + (prefix[omit..pb] + more)[..pb - omit] + Zeros(16 - pb);
            |whole| == 16 && whole[..pb] == prefix[..pb]
  {
  }

  lemma RebuildV4(prefix: Address, plen: nat, more: seq<Byte>, dp: Option<Address>)
    requires plen <= 128 && Masked(prefix, plen) && IsV4(prefix, plen)
    ensures NetworkPrefix(1, plen - 96, 0, prefix[12..12 + PrefixBytes(plen - 96)] + more, dp) ==
            Some((PrefixBytes(plen - 96), prefix))
  {
    var pb := PrefixBytes(plen - 96);
    var p := prefix[12..12 + pb] + more;
    hide MaskPrefix;
    assert p[..pb] == prefix[12..12 + pb];
    var whole := V4_PREFIX + p[..pb] + Zeros(4 - pb);
    assert PrefixBytes(plen) == 12 + pb;
    assert whole[..12 + pb] == prefix[..12] + prefix[12..12 + pb] == prefix[..12 + pb];
    MaskReads(whole, prefix, plen);
  }

  lemma SubTlvOf(channels: Option<seq<Byte>>, def: seq<Byte>)
    requires channels.Some? ==> |channels.value| <= 8 && 0 !in channels.value
    ensures SubTlvs(SubTlv(channels), def) == (false, if channels.Some? then channels.value else def)
  {
    if channels.Some? {
      var a := SubTlv(channels);
      var n := |channels.value|;
      assert a[2..2 + n] == channels.value && a[n + 2..] == [];
      assert SubTlvs(a[n + 2..], channels.value) == (false, channels.value);
    }
  }

  /** The Update TLV alone, once the receiver knows the rest. */
  lemma UpdateParses(rx: Receiver, d: Decoder, it: Item, noted: bool, inPrefix: bool, omit: nat)
    requires it.Announce? && ItemOk(it)
    requires var v4 := IsV4(it.prefix, it.plen);
             && (v4 ==> !noted && !inPrefix && omit == 0 && d.v4Nh == Some(Mapped(it.nh)))
             && (!v4 ==> omit <= it.plen / 8)
    requires omit > 0 ==> d.v6Prefix.Some? && !V4Mapped(d.v6Prefix.value) && d.v6Prefix.value[..omit] == it.prefix[..omit]
    requires if inPrefix then it.prefix[8..] == it.id else d.id == Some(it.id)
    requires d.v6Nh == Some(rx.from)
    ensures var flags := (if noted then 0x80 else 0) + if inPrefix then 0x40 else 0;
            UpdateStep(rx, d, UpdateTlv(it, flags, omit).payload) ==
            (d.(id := Some(it.id), v6Prefix := if noted then Some(it.prefix) else d.v6Prefix), Meaning(rx, it))
  {
    var flags := (if noted then 0x80 else 0) + if inPrefix then 0x40 else 0;
    hide Accept, UpdateStep, UpdateTlv, Meaning, Masked;
    UpdateAccepted(rx, d, it, flags, omit);
    AcceptMeans(rx, d, it, noted, inPrefix, omit);
  }

  function HeaderOf(it: Item, flags: Byte, omit: nat): Header
    requires it.Announce? && ItemOk(it) && omit <= 16
  {
    Header(Ae(it), flags, Bits(it), omit, it.interval, it.seqno, it.metric)
  }

  lemma UpdateAccepted(rx: Receiver, d: Decoder, it: Item, flags: Byte, omit: nat)
    requires it.Announce? && ItemOk(it)
    requires omit <= (if IsV4(it.prefix, it.plen) then 0 else it.plen / 8)
    requires omit > 0 ==> d.v6Prefix.Some? && !V4Mapped(d.v6Prefix.value) && d.v6Prefix.value[..omit] == it.prefix[..omit]
    ensures UpdateStep(rx, d, UpdateTlv(it, flags, omit).payload) ==
            Accept(rx, d, HeaderOf(it, flags, omit), it.prefix, SubTlv(it.channels))
  {
    var p := UpdateTlv(it, flags, omit).payload;
    UpdatePayload(it, flags, omit);
    Rebuild(it, d, omit);
    AeKinds(it);
    hide Accept, UpdateTlv, NetworkPrefix, SubTlv, IsV4, Masked, Short, Word, V4Mapped, Ae, Bits, Shown;
    PayloadTail(p, Shown(it, omit), SubTlv(it.channels));
  }

  lemma AeKinds(it: Item)
    requires it.Announce?
    ensures Ae(it) == 1 || Ae(it) == 2
  {
  }

  lemma PayloadTail(p: seq<Byte>, a: seq<Byte>, b: seq<Byte>)
    requires |p| >= 10 && p[10..] == a + b
    ensures p[10 + |a|..] == b
  {
    assert p[10 + |a|..] == p[10..][|a|..];
  }

  lemma Rebuild(it: Item, d: Decoder, omit: nat)
    requires it.Announce? && ItemOk(it)
    requires omit <= (if IsV4(it.prefix, it.plen) then 0 else it.plen / 8)
    requires omit > 0 ==> d.v6Prefix.Some? && !V4Mapped(d.v6Prefix.value) && d.v6Prefix.value[..omit] == it.prefix[..omit]
    ensures NetworkPrefix(Ae(it), Bits(it), omit, Shown(it, omit) + SubTlv(it.channels),
                          if Ae(it) == 1 then d.v4Prefix else d.v6Prefix) ==
            Some((PrefixBytes(Bits(it)) - omit, it.prefix))
  {
    hide NetworkPrefix, SubTlv, Masked, V4Mapped;
    if IsV4(it.prefix, it.plen) {
      RebuildV4(it.prefix, it.plen, SubTlv(it.channels), d.v4Prefix);
    } else {
      RebuildV6(it.prefix, it.plen, omit, SubTlv(it.channels), d.v6Prefix);
    }
  }

  lemma AcceptMeans(rx: Receiver, d: Decoder, it: Item, noted: bool, inPrefix: bool, omit: nat)
    requires it.Announce? && ItemOk(it) && omit <= 16
    requires IsV4(it.prefix, it.plen) ==> !noted && !inPrefix && d.v4Nh == Some(Mapped(it.nh))
    requires if inPrefix then it.prefix[8..] == it.id else d.id == Some(it.id)
    requires d.v6Nh == Some(rx.from)
    ensures var flags := (if noted then 0x80 else 0) + if inPrefix then 0x40 else 0;
            Accept(rx, d, HeaderOf(it, flags, omit), it.prefix, SubTlv(it.channels)) ==
            (d.(id := Some(it.id), v6Prefix := if noted then Some(it.prefix) else d.v6Prefix), Meaning(rx, it))
  {
    SubTlvOf(it.channels, DefaultChannels(rx, it.metric));
  }
}

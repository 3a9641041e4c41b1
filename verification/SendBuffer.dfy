/** The send buffer of an interface (babeld/message.c). Updates wait in a queue;
    flushing the buffer flushes the queue into it, and filling the buffer may
    flush it. */
module SendBuffer {
  import opened Options
  import opened Seqno
  import opened BabelTypes
  import opened Bytes
  import opened BabelWire
  import opened BabelRoundTrip
  import opened BabelParser

  /** A destination in buffered_updates. */
  datatype Destination = Destination(prefix: Address, plen: nat)

  type Pending = d: Destination | d.plen <= 128 && Masked(d.prefix, d.plen) witness NOWHERE

  const NOWHERE := Destination(Zeros(16), 128)

  /** One call of really_send_update; `add` is what the output filter says. */
  datatype Outgoing = Outgoing(
    id: seq<Byte>, prefix: Address, plen: nat, seqno: U16, metric: U16, add: nat, channels: Option<seq<Byte>>)

  predicate OutgoingOk(o: Outgoing) {
    && |o.id| == 8 && o.plen <= 128 && Masked(o.prefix, o.plen)
    && (o.channels.Some? ==> |o.channels.value| <= 8 && 0 !in o.channels.value)
  }

  /** A body taken out of the buffer; the token bucket may have dropped it. */
  datatype Flushed = Flushed(body: seq<Byte>, sent: bool)

  /** The state an update is sent in. */
  datatype Link = Link(up: bool, ipv4: Option<seq<Byte>>, interval: U16)

  /** What becomes of a call of really_send_update. */
  function Admitted(l: Link, o: Outgoing): (items: seq<Item>) {
    if !l.up || o.add >= INF || (IsV4(o.prefix, o.plen) && l.ipv4.None?) then []
    else [Announce(o.id, o.prefix, o.plen, o.seqno, Min(o.metric + o.add, INF), l.interval,
                   if l.ipv4.Some? then l.ipv4.value else Zeros(4), o.channels)]
  }

  function AdmittedAll(l: Link, os: seq<Outgoing>): (items: seq<Item>) {
    if os == [] then [] else AdmittedAll(l, os[..|os| - 1]) + Admitted(l, os[|os| - 1])
  }

  function Concat(groups: seq<seq<Item>>): (items: seq<Item>) {
    if groups == [] then [] else Concat(groups[..|groups| - 1]) + groups[|groups| - 1]
  }

  /** The body that holds a group of items. */
  ghost predicate Carries(f: Flushed, group: seq<Item>) {
    ItemsOk(group) && f.body == Flatten(EncodeAll(FRESH, group).1) && |f.body| < 65536
  }

  /** What has been sent: all items in order, those of each body that was taken
      out of the buffer, and those still in it. */
  datatype Book = Book(history: seq<Item>, groups: seq<seq<Item>>, items: seq<Item>)

  /** Every body taken out of the buffer carries one group of whole items, the
      buffer holds the rest, and no item is lost, repeated or reordered. */
  ghost predicate Consistent(k: Book, log: seq<Flushed>, e: Encoder, contents: seq<Byte>) {
    && ItemsOk(k.items) && k.history == Concat(k.groups) + k.items
    && |log| == |k.groups| && (forall i :: 0 <= i < |log| ==> Carries(log[i], k.groups[i]))
    && (e, contents) == (EncodeAll(FRESH, k.items).0, Flatten(EncodeAll(FRESH, k.items).1))
  }

  lemma ConsistentStart()
    ensures Consistent(Book([], [], []), [], FRESH, [])
  {
  }

  function Added(k: Book, it: Item): Book { Book(k.history + [it], k.groups, k.items + [it]) }

  lemma ConsistentAdd(k: Book, log: seq<Flushed>, e: Encoder, contents: seq<Byte>, it: Item)
    requires Consistent(k, log, e, contents) && ItemOk(it)
    ensures Consistent(Added(k, it), log, Encode(e, it).0, contents + Flatten(Encode(e, it).1))
  {
    OneMore(k.items, it);
    hide Carries, ItemOk, Encode, Flatten, EncodeAll;
  }

  /** Taking the contents out closes a group. */
  lemma ConsistentFlush(k: Book, log: seq<Flushed>, e: Encoder, contents: seq<Byte>, f: Flushed)
    requires Consistent(k, log, e, contents) && f.body == contents && |contents| < 65536
    ensures Consistent(Book(k.history, k.groups + [k.items], []), log + [f], FRESH, [])
  {
    assert Carries(f, k.items);
    assert (k.groups + [k.items])[..|k.groups|] == k.groups;
    assert EncodeAll(FRESH, []) == (FRESH, []);
    hide Carries, ItemsOk, Flatten, Encode;
  }

  /** An empty buffer holds no items. */
  lemma ConsistentEmpty(k: Book, log: seq<Flushed>, e: Encoder)
    requires Consistent(k, log, e, [])
    ensures k.items == [] && e == FRESH
  {
    NoItems(k.items);
  }

  // ---- Sizes ----

  lemma OneTlv(t: Tlv)
    requires TlvOk(t)
    ensures TlvsOk([t]) && Flatten([t]) == TlvBytes(t) && |Flatten([t])| == |t.payload| + 2
  {
    assert [t][1..] == [];
    assert TlvBytes(t) + [] == TlvBytes(t);
  }

  /** The bytes of one item: the parts really_send_update writes in turn. */
  lemma AnnounceBytes(e: Encoder, it: Item)
    requires it.Announce? && ItemOk(it)
    ensures var upd := UpdateTlv(it, Flags(e, it), Omit(e, it));
            && Flatten(Encode(e, it).1) == Flatten(NhPart(e, it)) + Flatten(IdPart(e, it)) + TlvBytes(upd)
            && |Flatten(NhPart(e, it))| <= 8 && |Flatten(IdPart(e, it))| <= 12 && |TlvBytes(upd)| <= 38
  {
    var upd := UpdateTlv(it, Flags(e, it), Omit(e, it));
    OneTlv(upd);
    FlattenConcat(NhPart(e, it), IdPart(e, it));
    FlattenConcat(NhPart(e, it) + IdPart(e, it), [upd]);
    OneTlv(Tlv(NH, [1, 0] + it.nh));
    OneTlv(Tlv(ROUTER_ID, [0, 0] + it.id));
  }

  lemma ItemBytes(e: Encoder, it: Item)
    requires ItemOk(it)
    ensures |Flatten(Encode(e, it).1)| >= 2
  {
    match it
    case Announce(_, _, _, _, _, _, _, _) => AnnounceBytes(e, it);
    case Wildcard(_) => OneTlv(Encode(e, it).1[0]);
    case Other(t) => OneTlv(t);
  }

  /** One more item in the buffer. */
  lemma OneMore(items: seq<Item>, it: Item)
    requires ItemsOk(items) && ItemOk(it)
    ensures ItemsOk(items + [it])
    ensures var (e, ts) := EncodeAll(FRESH, items);
            var (e', more) := Encode(e, it);
            && EncodeAll(FRESH, items + [it]) == (e', ts + more)
            && Flatten(ts + more) == Flatten(ts) + Flatten(more)
  {
    assert (items + [it])[..|items|] == items;
    FlattenConcat(EncodeAll(FRESH, items).1, Encode(EncodeAll(FRESH, items).0, it).1);
  }

  lemma SomeBytes(items: seq<Item>)
    requires ItemsOk(items) && items != []
    ensures |Flatten(EncodeAll(FRESH, items).1)| >= 2
  {
    var pre, it := items[..|items| - 1], items[|items| - 1];
    OneMore(pre, it);
    assert pre + [it] == items;
    ItemBytes(EncodeAll(FRESH, pre).0, it);
  }

  lemma NoItems(items: seq<Item>)
    requires ItemsOk(items) && Flatten(EncodeAll(FRESH, items).1) == []
    ensures items == []
  {
    if items != [] { SomeBytes(items); }
  }

  /** The loop that finds how many leading bytes to leave out. */
  method CountCommon(a: seq<Byte>, b: seq<Byte>, n: nat) returns (k: nat)
    requires n <= |a| && n <= |b|
    ensures k == Common(a, b, n)
  {
    k := 0;
    while k < n && a[k] == b[k]
      invariant k <= n && forall i :: 0 <= i < k ==> a[i] == b[i]
    {
      k := k + 1;
    }
  }

  ghost predicate PlanOk(plan: seq<Pending> -> seq<Outgoing>) {
    forall q, i :: 0 <= i < |plan(q)| ==> OutgoingOk(plan(q)[i])
  }

  lemma PlannedOk(plan: seq<Pending> -> seq<Outgoing>, q: seq<Pending>)
    requires PlanOk(plan)
    ensures forall i :: 0 <= i < |plan(q)| ==> OutgoingOk(plan(q)[i])
  {
  }

  lemma HeadSizes(e: Encoder, it: Item)
    requires it.Announce? && ItemOk(it)
    ensures |Flatten(NhPart(e, it))| <= 8 && |Flatten(IdPart(e, it))| <= 12
    ensures var e' := e.(nh := if IsV4(it.prefix, it.plen) then Some(it.nh) else e.nh);
            IdPart(e', it) == IdPart(e, it) && InPrefix(e', it) == InPrefix(e, it)
  {
    AnnounceBytes(e, it);
  }

  lemma PartsMake(e: Encoder, it: Item, start: seq<Byte>)
    requires it.Announce? && ItemOk(it)
    ensures start + (Flatten(NhPart(e, it)) + Flatten(IdPart(e, it))) + TlvBytes(UpdateTlv(it, Flags(e, it), Omit(e, it))) ==
            start + Flatten(Encode(e, it).1)
    ensures Encode(e, it).0 == Encoder(Some(it.id), if IsV4(it.prefix, it.plen) then Some(it.nh) else e.nh,
                                       if Noted(e, it) then Some(it.prefix) else e.prefix)
  {
    AnnounceBytes(e, it);
    hide Flatten, TlvBytes, NhPart, IdPart, UpdateTlv, Omit, Flags;
    Associate(start, Flatten(NhPart(e, it)) + Flatten(IdPart(e, it)), TlvBytes(UpdateTlv(it, Flags(e, it), Omit(e, it))));
  }

  lemma Associate(a: seq<Byte>, b: seq<Byte>, c: seq<Byte>)
    ensures a + b + c == a + (b + c)
  {
  }

  method MakeUpdate(ghost e: Encoder, it: Item, omit: nat, noted: bool, inPrefix: bool) returns (t: Tlv)
    requires it.Announce? && ItemOk(it) && omit == Omit(e, it) && noted == Noted(e, it) && inPrefix == InPrefix(e, it)
    ensures t == UpdateTlv(it, Flags(e, it), Omit(e, it)) && TlvOk(t) && |t.payload| <= 36
  {
    var flags: Byte := 0;
    if noted {
      flags := flags + 0x80;
    }
    if inPrefix {
      flags := flags + 0x40;
    }
    t := UpdateTlv(it, flags, omit);
  }

  /** The prefix part of really_send_update. */
  method ChooseOmit(e: Encoder, it: Item) returns (omit: nat, noted: bool)
    requires it.Announce? && ItemOk(it)
    ensures omit == Omit(e, it) && noted == Noted(e, it)
  {
    omit, noted := 0, false;
    if !IsV4(it.prefix, it.plen) {
      if e.prefix.Some? {
        omit := CountCommon(e.prefix.value, it.prefix, it.plen / 8);
      }
      noted := e.prefix.None? || it.plen >= 48;
    }
  }

  class Interface {
    const sendbuf: array<Byte>
    const updateInterval: U16
    /** What flushupdates would make of a queue now: sorted, looked up in the
        tables. The rest of the daemon changes it whenever it changes those. */
    var plan: seq<Pending> -> seq<Outgoing>
    var buffered: nat
    /** buffered_id, buffered_nh and buffered_prefix with their have flags */
    var state: Encoder
    var queue: seq<Pending>
    var up: bool
    var ipv4: Option<seq<Byte>>
    var log: seq<Flushed>
    ghost var book: Book

    function LinkState(): Link
      reads this
    {
      Link(up, ipv4, (updateInterval + 5) / 10)
    }

    function Contents(): seq<Byte>
      requires buffered <= sendbuf.Length
      reads this, sendbuf
    {
      sendbuf[..buffered]
    }

    ghost predicate Shape()
      reads this
    {
      && 64 <= sendbuf.Length < 65536 && buffered <= sendbuf.Length
      && (ipv4.Some? ==> |ipv4.value| == 4) && PlanOk(plan)
    }

    ghost predicate Valid()
      reads this, sendbuf
    {
      Shape() && Consistent(book, log, state, Contents())
    }

    constructor (mtu: nat, interval: U16, plan: seq<Pending> -> seq<Outgoing>)
      requires mtu < 65536 && PlanOk(plan)
      ensures Valid() && buffered == 0 && book.history == [] && queue == [] && !up
    {
      sendbuf := new Byte[(if mtu < 128 then 128 else mtu) - 4 - 60];
      updateInterval := interval;
      this.plan := plan;
      buffered, state := 0, FRESH;
      queue, up, ipv4, log := [], false, None, [];
      book := Book([], [], []);
      new;
      ConsistentStart();
    }

    // ---- Writing bytes ----

    /** accumulate_bytes, also for single bytes and shorts */
    method Accumulate(b: seq<Byte>)
      requires buffered + |b| <= sendbuf.Length
      modifies this`buffered, sendbuf
      ensures buffered == old(buffered) + |b| && Contents() == old(Contents()) + b
    {
      var i := 0;
      while i < |b|
        invariant i <= |b| && buffered == old(buffered) + i
        invariant sendbuf[..buffered] == old(sendbuf[..buffered]) + b[..i]
      {
        sendbuf[buffered] := b[i];
        buffered := buffered + 1;
        i := i + 1;
      }
    }

    // ---- Flushing ----

    /** What flushing a queue adds to the history. */
    function Due(q: seq<Pending>): (its: seq<Item>)
      reads this
    {
      if q == [] || !up then [] else AdmittedAll(LinkState(), plan(q))
    }

    function Depth(): nat
      reads this
    {
      if queue == [] then 0 else 1
    }

    /** flushbuf */
    method FlushBuf()
      requires Valid()
      modifies this, sendbuf
      ensures Valid() && buffered == 0 && state == FRESH && queue == [] && unchanged(this`up, this`ipv4, this`plan)
      ensures book.items == [] && book.history == old(book.history) + old(Due(queue))
      decreases Depth(), 3
    {
      hide Consistent, PlanOk;
      FlushUpdates();
      if buffered > 0 {
        var allowed := *;
        var f := Flushed(sendbuf[..buffered], allowed);
        ConsistentFlush(book, log, state, sendbuf[..buffered], f);
        log := log + [f];
        book := Book(book.history, book.groups + [book.items], []);
      } else {
        ConsistentEmpty(book, log, state);
      }
      buffered := 0;
      state := FRESH;
    }

    /** flushupdates: the queue is detached before anything is sent. */
    method FlushUpdates()
      requires Valid()
      modifies this, sendbuf
      ensures Valid() && queue == [] && unchanged(this`up, this`ipv4, this`plan)
      ensures book.history == old(book.history) + old(Due(queue))
      decreases Depth(), 2
    {
      hide Consistent, Admitted;
      if queue == [] {
        return;
      }
      var outs := plan(queue);
      PlannedOk(plan, queue);
      hide PlanOk;
      queue := [];
      if !up {
        return;
      }
      var i := 0;
      while i < |outs|
        invariant 0 <= i <= |outs| && Valid() && queue == [] && unchanged(this`up, this`ipv4, this`plan)
        invariant book.history == old(book.history) + AdmittedAll(LinkState(), outs[..i])
      {
        ReallySendUpdate(outs[i]);
        assert outs[..i + 1][..i] == outs[..i];
        i := i + 1;
      }
      assert outs[..i] == outs;
    }

    /** ensure_space */
    method EnsureSpace(space: nat)
      requires Valid() && queue == [] && space <= 64
      modifies this, sendbuf
      ensures Valid() && queue == [] && sendbuf.Length - buffered >= space && unchanged(this`up, this`ipv4, this`plan)
      ensures book.history == old(book.history)
      decreases Depth(), 4
    {
      hide Consistent, PlanOk;
      if sendbuf.Length - buffered < space {
        FlushBuf();
      }
    }

    /** start_message: room is made by flushing only if there is none. */
    method StartMessage(kind: Byte, len: Byte)
      requires Shape() && len + 2 <= 64 && (sendbuf.Length - buffered < len + 2 ==> Valid())
      modifies this, sendbuf
      ensures Shape() && unchanged(this`up, this`ipv4, this`plan)
      ensures if old(sendbuf.Length - buffered) >= len + 2
              then Contents() == old(Contents()) + [kind, len]
                   && unchanged(this`queue, this`state, this`log, this`book)
              else Contents() == [kind, len] && queue == [] && state == FRESH
                   && Consistent(book, log, FRESH, []) && book.history == old(book.history) + old(Due(queue))
      decreases Depth(), 4
    {
      hide Consistent, PlanOk;
      if sendbuf.Length - buffered < len + 2 {
        FlushBuf();
        assert sendbuf[..0] == [];
      }
      Accumulate([kind]);
      Accumulate([len]);
    }

    /** A message for which there is room. */
    method Append(t: Tlv)
      requires Shape() && TlvOk(t) && |t.payload| <= 36 && sendbuf.Length - buffered >= |t.payload| + 2
      modifies this, sendbuf
      ensures Shape() && Contents() == old(Contents()) + TlvBytes(t)
      ensures unchanged(this`queue, this`up, this`ipv4, this`plan, this`state, this`log, this`book)
      decreases Depth(), 5
    {
      hide Consistent, PlanOk;
      StartMessage(t.kind, |t.payload|);
      Accumulate(t.payload);
    }

    // ---- Updates ----

    /** really_send_update: all TLVs of one update end up in one body. */
    method ReallySendUpdate(o: Outgoing)
      requires Valid() && queue == [] && OutgoingOk(o)
      modifies this, sendbuf
      ensures Valid() && queue == [] && unchanged(this`up, this`ipv4, this`plan)
      ensures book.history == old(book.history) + Admitted(LinkState(), o)
      decreases Depth(), 10
    {
      hide Consistent, PlanOk;
      if !up || o.add >= INF {
        return;
      }
      EnsureSpace(20 + 12 + 28);
      if IsV4(o.prefix, o.plen) && ipv4.None? {
        return;
      }
      WriteAnnounce(Admitted(LinkState(), o)[0]);
    }

    /** really_send_update from the point where there is room for the worst
        case: no flush can happen between its TLVs. */
    method WriteAnnounce(it: Item)
      requires Valid() && it.Announce? && ItemOk(it) && sendbuf.Length - buffered >= 60
      modifies this, sendbuf
      ensures Valid() && unchanged(this`queue, this`up, this`ipv4, this`plan, this`log)
      ensures book == Added(old(book), it)
      decreases Depth(), 9
    {
      hide Consistent, PlanOk, ItemOk, Encode, Flatten;
      ConsistentAdd(book, log, state, sendbuf[..buffered], it);
      WriteParts(it);
      book := Added(book, it);
    }

    /** The parts of one update: the buffer gets its TLVs, the interface the
        new running state. */
    method WriteParts(it: Item)
      requires Shape() && it.Announce? && ItemOk(it) && sendbuf.Length - buffered >= 60
      modifies this, sendbuf
      ensures Shape() && Contents() == old(Contents()) + Flatten(Encode(old(state), it).1)
      ensures state == Encode(old(state), it).0
      ensures unchanged(this`queue, this`up, this`ipv4, this`plan, this`log, this`book)
      decreases Depth(), 8
    {
      hide Flatten, NhPart, IdPart, TlvBytes, UpdateTlv, ItemOk, Noted, InPrefix, IsV4, PlanOk, Encode, Omit;
      ghost var e, start := state, sendbuf[..buffered];
      var omit, noted := ChooseOmit(state, it);
      var inPrefix := WriteHead(it);
      var upd := MakeUpdate(e, it, omit, noted, inPrefix);
      Append(upd);
      if noted {
        state := state.(prefix := Some(it.prefix));
      }
      PartsMake(e, it, start);
    }

    method WriteHead(it: Item) returns (inPrefix: bool)
      requires Shape() && it.Announce? && ItemOk(it) && sendbuf.Length - buffered >= 60
      modifies this, sendbuf
      ensures Shape() && sendbuf.Length - buffered >= 38
      ensures Contents() == old(Contents()) + (Flatten(NhPart(old(state), it)) + Flatten(IdPart(old(state), it)))
      ensures inPrefix == InPrefix(old(state), it)
      ensures state == Encoder(Some(it.id), if IsV4(it.prefix, it.plen) then Some(it.nh) else old(state).nh, old(state).prefix)
      ensures unchanged(this`queue, this`up, this`ipv4, this`plan, this`log, this`book)
      decreases Depth(), 7
    {
      HeadSizes(state, it);
      hide Flatten, NhPart, IdPart, ItemOk, InPrefix, IsV4, PlanOk;
      WriteNh(it);
      inPrefix := WriteId(it);
    }

    /** The Next Hop part of really_send_update. */
    method WriteNh(it: Item)
      requires Shape() && it.Announce? && ItemOk(it) && sendbuf.Length - buffered >= 60
      modifies this, sendbuf
      ensures Shape() && Contents() == old(Contents()) + Flatten(NhPart(old(state), it))
      ensures state == old(state).(nh := if IsV4(it.prefix, it.plen) then Some(it.nh) else old(state).nh)
      ensures unchanged(this`queue, this`up, this`ipv4, this`plan, this`log, this`book)
      decreases Depth(), 6
    {
      if IsV4(it.prefix, it.plen) && state.nh != Some(it.nh) {
        OneTlv(Tlv(NH, [1, 0] + it.nh));
        Append(Tlv(NH, [1, 0] + it.nh));
        state := state.(nh := Some(it.nh));
      }
    }

    /** The router-id part; the flag says that the prefix carries it. */
    method WriteId(it: Item) returns (inPrefix: bool)
      requires Shape() && it.Announce? && ItemOk(it) && sendbuf.Length - buffered >= 52
      modifies this, sendbuf
      ensures Shape() && Contents() == old(Contents()) + Flatten(IdPart(old(state), it))
      ensures inPrefix == InPrefix(old(state), it) && state == old(state).(id := Some(it.id))
      ensures unchanged(this`queue, this`up, this`ipv4, this`plan, this`log, this`book)
      decreases Depth(), 6
    {
      inPrefix := false;
      if state.id != Some(it.id) {
        if !IsV4(it.prefix, it.plen) && it.plen == 128 && it.prefix[8..] == it.id {
          inPrefix := true;
        } else {
          OneTlv(Tlv(ROUTER_ID, [0, 0] + it.id));
          Append(Tlv(ROUTER_ID, [0, 0] + it.id));
        }
        state := state.(id := Some(it.id));
      }
    }

    // ---- Other senders ----

    /** A TLV that is sent as it is: start_message may flush first. */
    method Send(t: Tlv, it: Item)
      requires Valid() && ItemOk(it) && TlvOk(t) && |t.payload| <= 62
      requires forall e :: Encode(e, it).1 == [t]
      modifies this, sendbuf
      ensures Valid() && unchanged(this`up, this`ipv4, this`plan) && exists e :: state == Encode(e, it).0
      ensures if old(sendbuf.Length - buffered) >= |t.payload| + 2
              then queue == old(queue) && log == old(log) && book.history == old(book.history) + [it]
              else queue == [] && book.history == old(book.history) + old(Due(queue)) + [it]
    {
      hide Consistent, PlanOk, ItemOk, Encode;
      OneTlv(t);
      ghost var fits := sendbuf.Length - buffered >= |t.payload| + 2;
      ghost var start := if fits then sendbuf[..buffered] else [];
      StartMessage(t.kind, |t.payload|);
      Accumulate(t.payload);
      assert Contents() == start + TlvBytes(t);
      ConsistentAdd(book, log, state, start, it);
      state := Encode(state, it).0;
      book := Added(book, it);
    }

    /** send_wildcard_retraction */
    method SendWildcardRetraction(myseqno: U16)
      requires Valid()
      modifies this, sendbuf
      ensures Valid() && unchanged(this`up, this`ipv4, this`plan)
      ensures if !up then book == old(book) && queue == old(queue)
              else if old(sendbuf.Length - buffered) >= 12
              then queue == old(queue) && log == old(log) && book.history == old(book.history) + [Wildcard(myseqno)]
              else queue == [] && book.history == old(book.history) + old(Due(queue)) + [Wildcard(myseqno)]
      ensures up ==> state.id == None
    {
      if !up {
        return;
      }
      Send(WildcardTlv(myseqno), Wildcard(myseqno));
    }

    /** Hellos, requests and the like. */
    method SendOther(t: Tlv)
      requires Valid() && ItemOk(Other(t)) && |t.payload| <= 62
      modifies this, sendbuf
      ensures Valid() && unchanged(this`up, this`ipv4, this`plan)
      ensures if old(sendbuf.Length - buffered) >= |t.payload| + 2
              then queue == old(queue) && log == old(log) && book.history == old(book.history) + [Other(t)]
              else queue == [] && book.history == old(book.history) + old(Due(queue)) + [Other(t)]
    {
      Send(t, Other(t));
    }

    /** buffer_update */
    method BufferUpdate(p: Pending, capacity: nat)
      requires Valid()
      modifies this, sendbuf
      ensures Valid() && unchanged(this`up, this`ipv4, this`plan)
      ensures if |old(queue)| > 0 && |old(queue)| >= capacity
              then queue == [p] && book.history == old(book.history) + old(Due(queue))
              else queue == old(queue) + [p] && book == old(book)
    {
      hide Consistent, PlanOk;
      if |queue| > 0 && |queue| >= capacity {
        FlushUpdates();
      }
      queue := queue + [p];
    }

    /** The up-period starts: the buffer is empty and nothing is remembered. */
    method InterfaceUp()
      requires Valid()
      modifies this`up
      ensures Valid() && up
    {
      up := true;
    }

    /** The tables change: the same queue may be answered differently. */
    method SetPlan(plan: seq<Pending> -> seq<Outgoing>)
      requires Valid() && PlanOk(plan)
      modifies this`plan
      ensures Valid() && this.plan == plan
    {
      this.plan := plan;
    }

    /** The interface gets another IPv4 address; the next update will say so. */
    method SetAddress(address: Option<seq<Byte>>)
      requires Valid() && (address.Some? ==> |address.value| == 4)
      modifies this`ipv4
      ensures Valid() && ipv4 == address
    {
      ipv4 := address;
    }
  }

  // ---- What the neighbours get ----

  /** The body makes a packet that passes examination. */
  predicate Readable(f: Flushed) { |f.body| < 65536 && Examined(Packet(f.body)) }

  function Read(rx: Receiver, f: Flushed): seq<Event>
    requires Readable(f)
  {
    ParseBody(rx, Start(rx), Body(Packet(f.body))).1
  }

  /** Every packet is accepted and read as the items that went into it. */
  lemma Delivered(k: Book, log: seq<Flushed>, e: Encoder, contents: seq<Byte>, rx: Receiver, i: nat)
    requires Consistent(k, log, e, contents) && i < |log| && LinkLocal(rx.from)
    ensures ItemsOk(k.groups[i]) && Readable(log[i]) && Read(rx, log[i]) == Meanings(rx, k.groups[i])
  {
    assert Carries(log[i], k.groups[i]);
    PacketDelivers(rx, k.groups[i]);
  }

  predicate AllReadable(log: seq<Flushed>) { forall i :: 0 <= i < |log| ==> Readable(log[i]) }

  /** What a neighbour learns that gets every packet. */
  function Learnt(rx: Receiver, log: seq<Flushed>): seq<Event>
    requires AllReadable(log)
  {
    if log == [] then [] else Learnt(rx, log[..|log| - 1]) + Read(rx, log[|log| - 1])
  }

  lemma {:induction false} MeaningsConcat(rx: Receiver, a: seq<Item>, b: seq<Item>)
    requires ItemsOk(a) && ItemsOk(b)
    ensures ItemsOk(a + b) && Meanings(rx, a + b) == Meanings(rx, a) + Meanings(rx, b)
    decreases |b|
  {
    if b == [] {
      assert a + b == a;
    } else {
      var pre, it := b[..|b| - 1], b[|b| - 1];
      MeaningsConcat(rx, a, pre);
      assert (a + b)[..|a + b| - 1] == a + pre;
    }
  }

  lemma {:induction false} LearntSoFar(rx: Receiver, k: Book, log: seq<Flushed>, e: Encoder, contents: seq<Byte>, n: nat)
    requires Consistent(k, log, e, contents) && n <= |log| && LinkLocal(rx.from)
    ensures AllReadable(log[..n]) && ItemsOk(Concat(k.groups[..n]))
    ensures Learnt(rx, log[..n]) == Meanings(rx, Concat(k.groups[..n]))
  {
    hide Readable, Read, ItemOk, Carries, Learnt, Meanings;
    if n > 0 {
      LearntSoFar(rx, k, log, e, contents, n - 1);
      Delivered(k, log, e, contents, rx, n - 1);
      assert k.groups[..n][..n - 1] == k.groups[..n - 1] && log[..n][..n - 1] == log[..n - 1];
      LearntMore(rx, log[..n], k.groups[..n]);
    } else {
      NothingLearnt(rx);
      assert log[..0] == [] && k.groups[..0] == [];
    }
  }

  lemma NothingLearnt(rx: Receiver)
    ensures AllReadable([]) && ItemsOk(Concat([])) && Learnt(rx, []) == Meanings(rx, Concat([]))
  {
  }

  lemma ReadableSnoc(log: seq<Flushed>)
    requires log != [] && AllReadable(log[..|log| - 1]) && Readable(log[|log| - 1])
    ensures AllReadable(log)
  {
    hide Readable;
  }

  lemma LearntMore(rx: Receiver, log: seq<Flushed>, groups: seq<seq<Item>>)
    requires |log| == |groups| && log != []
    requires var n := |log| - 1;
             && AllReadable(log[..n]) && ItemsOk(Concat(groups[..n]))
             && Learnt(rx, log[..n]) == Meanings(rx, Concat(groups[..n]))
             && ItemsOk(groups[n]) && Readable(log[n]) && Read(rx, log[n]) == Meanings(rx, groups[n])
    ensures AllReadable(log) && ItemsOk(Concat(groups)) && Learnt(rx, log) == Meanings(rx, Concat(groups))
  {
    ReadableSnoc(log);
    hide Readable, Read, ItemOk, Meanings, AllReadable;
    MeaningsConcat(rx, Concat(groups[..|log| - 1]), groups[|log| - 1]);
  }

  /** Over a whole up-period, split into packets anyhow: a neighbour that gets
      every packet learns exactly what was sent, in order. */
  lemma AllDelivered(rx: Receiver, k: Book, log: seq<Flushed>, e: Encoder, contents: seq<Byte>)
    requires Consistent(k, log, e, contents) && k.items == [] && LinkLocal(rx.from)
    ensures ItemsOk(k.history) && AllReadable(log)
    ensures Learnt(rx, log) == Meanings(rx, k.history)
  {
    LearntSoFar(rx, k, log, e, contents, |log|);
    assert k.groups[..|log|] == k.groups && log[..|log|] == log;
    assert k.history == Concat(k.groups);
  }
}

/** flushupdates end to end (babeld/message.c): from a node's tables and a queue
    of destinations to what a neighbour learns. */
module UpdateFlush {
  import opened Options
  import opened Seqno
  import opened BabelTypes
  import opened BabelNode
  import opened Bytes
  import opened SortedSlots
  import opened BabelWire
  import opened BabelRoundTrip
  import opened UpdateQueue
  import opened SendBuffer

  /** What flushupdates reads besides the tables: clock and configuration, which
      routes interfere or are held back by split horizon, the channels of a
      route and the output filter. */
  datatype Output = Output(
    now: int, kernelMetric: nat, diversity: bool, diversityFactor: nat, interferes: Route -> bool,
    held: Route -> bool, channels: Route -> seq<Byte>, add: (nat, Key) -> nat)

  ghost predicate OutputOk(cfg: Output) {
    forall r :: |cfg.channels(r)| <= 8 && 0 !in cfg.channels(r)
  }

  // ---- Router-ids as bytes ----

  function BytesOf(x: nat, n: nat): (b: seq<Byte>)
    ensures |b| == n
  {
    if n == 0 then [] else
    PowPositive(n - 1);
    [x / Pow256(n - 1) % 256] + BytesOf(x % Pow256(n - 1), n - 1)
  }

  lemma PowPositive(n: nat)
    ensures Pow256(n) > 0
  {
  }

  /** A router-id of 8 bytes survives. */
  lemma {:induction false} ValueOfBytes(x: nat, n: nat)
    requires x < Pow256(n)
    ensures Value(BytesOf(x, n)) == x
    decreases n
  {
    if n > 0 {
      PowPositive(n - 1);
      var w := Pow256(n - 1);
      Quotient256(x, w);
      ValueOfBytes(x % w, n - 1);
      var b := BytesOf(x, n);
      assert b[0] == x / w && b[1..] == BytesOf(x % w, n - 1);
    }
  }

  lemma Quotient256(x: nat, w: nat)
    requires w > 0 && x < 256 * w
    ensures 0 <= x / w < 256 && x / w % 256 == x / w && x / w * w + x % w == x
  {
    var y := x / w;
    assert y * w <= x;
    assert y >= 256 ==> y * w >= 256 * w;
  }

  // ---- What the tables say about a destination ----

  function KeyOf(d: Destination): Key { Key(Value(d.prefix), d.plen) }

  function InstalledAt(n: Node, k: Key): Option<Route> {
    var s := SlotOf(n, k);
    if s != [] && s[0].installed then Some(s[0]) else None
  }

  /** The export is announced rather than the route. */
  predicate Exported(n: Node, cfg: Output, k: Key) {
    k in n.xroutes && (InstalledAt(n, k).None? || n.xroutes[k].metric <= cfg.kernelMetric)
  }

  /** The router-id the queue is sorted by. */
  function SortId(n: Node, k: Key): (id: seq<Byte>)
    ensures |id| == 8
  {
    BytesOf(if InstalledAt(n, k).Some? then InstalledAt(n, k).value.src.id else n.myid, 8)
  }

  function EntryFor(n: Node, d: Destination): Entry { Entry(SortId(n, KeyOf(d)), d.prefix, d.plen) }

  function Entries(n: Node, q: seq<Pending>): (s: seq<Entry>)
    ensures EntriesOk(s) && |s| == |q| && forall i :: 0 <= i < |s| ==> s[i] == EntryFor(n, q[i])
  {
    seq(|q|, i requires 0 <= i < |q| => EntryFor(n, q[i]))
  }

  function DestinationOf(e: Entry): Destination { Destination(e.prefix, e.plen) }

  function FateAt(n: Node, cfg: Output, k: Key): Fate {
    if Exported(n, cfg, k) then Announced
    else if InstalledAt(n, k).None? then Missing
    else if cfg.held(InstalledAt(n, k).value) then Held
    else Announced
  }

  function FateOf(n: Node, cfg: Output): Entry -> Fate {
    (e: Entry) => FateAt(n, cfg, KeyOf(DestinationOf(e)))
  }

  /** The router-id that is sent with the destination. */
  function SentId(n: Node, cfg: Output, k: Key): nat {
    if Exported(n, cfg, k) || InstalledAt(n, k).None? then n.myid else InstalledAt(n, k).value.src.id
  }

  function EnvAt(n: Node, cfg: Output, k: Key, up: bool): SendEnv {
    var r := InstalledAt(n, k);
    SendEnv(cfg.now, cfg.kernelMetric, r.Some? && cfg.interferes(r.value), cfg.diversityFactor,
            r.Some? && cfg.held(r.value), up, cfg.add(SentId(n, cfg, k), k))
  }

  /** The call of really_send_update for a destination that is not held back. */
  function OutAt(n: Node, cfg: Output, d: Destination): Outgoing {
    var k := KeyOf(d);
    var id, add := BytesOf(SentId(n, cfg, k), 8), cfg.add(SentId(n, cfg, k), k);
    if Exported(n, cfg, k) then
      Outgoing(id, d.prefix, d.plen, n.myseqno, n.xroutes[k].metric, add, if cfg.diversity then Some([]) else None)
    else if InstalledAt(n, k).Some? then
      var r := InstalledAt(n, k).value;
      Outgoing(id, d.prefix, d.plen, r.seqno, SentMetric(EnvAt(n, cfg, k, true), r), add,
               if cfg.diversity then Some(cfg.channels(r)) else None)
    else
      Outgoing(id, d.prefix, d.plen, n.myseqno, INF, add, None)
  }

  function Outs(n: Node, cfg: Output, s: seq<Entry>): (os: seq<Outgoing>)
    ensures |os| == |s|
  {
    if s == [] then [] else Outs(n, cfg, s[..|s| - 1]) + [OutAt(n, cfg, DestinationOf(s[|s| - 1]))]
  }

  /** The entries of the sorted queue for which something is sent. */
  function SentFor(n: Node, cfg: Output, q: seq<Pending>): (s: seq<Entry>) {
    Sent(Ordered(Entries(n, q)), FateOf(n, cfg), [])
  }

  /** What flushupdates makes of a queue. */
  function PlanFor(n: Node, cfg: Output, q: seq<Pending>): (os: seq<Outgoing>) {
    Outs(n, cfg, SentFor(n, cfg, q))
  }

  // ---- One call is one advertisement of the node model ----

  /** What really_send_update is called with is what the node model advertises. */
  lemma OutIsAdvert(n: Node, cfg: Output, d: Destination, up: bool)
    requires TableOk(n.table)
    ensures var k, o := KeyOf(d), OutAt(n, cfg, d);
            SendUpdate(n, k, EnvAt(n, cfg, k, up)).1 ==
            if !up || o.add >= INF || FateAt(n, cfg, k).Held? then None
            else Some(Advert(SourceKey(SentId(n, cfg, k), k), o.seqno, Min(o.metric + o.add, INF)))
  {
    var k := KeyOf(d);
    var s := SlotOf(n, k);
    if s != [] { assert SlotOk(k, s) && s[0].src == SourceKey(s[0].src.id, k); }
    hide Value, BytesOf;
  }

  /** What one call tells a neighbour. */
  function News(rx: Receiver, l: Link, o: Outgoing): (es: seq<Event>)
    requires ItemsOk(Admitted(l, o))
    ensures |es| <= 1
  {
    if Admitted(l, o) == [] then [] else Meaning(rx, Admitted(l, o)[0])
  }

  /** What a neighbour should learn about a destination: the advertisement of the
      node model, if the address family can be used on both sides. */
  function Told(rx: Receiver, l: Link, n: Node, cfg: Output, d: Destination): (es: seq<Event>) {
    var k := KeyOf(d);
    match SendUpdate(n, k, EnvAt(n, cfg, k, l.up)).1
    case None => []
    case Some(adv) =>
      var v4 := IsV4(d.prefix, d.plen);
      var channels := OutAt(n, cfg, d).channels;
      if v4 && (l.ipv4.None? || |l.ipv4.value| != 4 || !rx.ipv4) then []
      else [Event.Learnt(Some(BytesOf(adv.src.id, 8)), d.prefix, d.plen, adv.seqno, adv.metric, l.interval,
                         if v4 then Mapped(l.ipv4.value) else rx.from,
                         if rx.faraway then [] else if channels.Some? then channels.value else DefaultChannels(rx, adv.metric))]
  }

  predicate LinkOk(l: Link) { l.ipv4.Some? ==> |l.ipv4.value| == 4 }

  lemma OutOk(n: Node, cfg: Output, d: Pending)
    requires OutputOk(cfg)
    ensures OutgoingOk(OutAt(n, cfg, d))
  {
  }

  lemma AdmittedOk(l: Link, o: Outgoing)
    requires LinkOk(l) && OutgoingOk(o)
    ensures ItemsOk(Admitted(l, o))
  {
  }

  lemma NewsIsTold(rx: Receiver, l: Link, n: Node, cfg: Output, d: Pending)
    requires TableOk(n.table) && OutputOk(cfg) && LinkOk(l) && !FateAt(n, cfg, KeyOf(d)).Held?
    ensures ItemsOk(Admitted(l, OutAt(n, cfg, d))) && News(rx, l, OutAt(n, cfg, d)) == Told(rx, l, n, cfg, d)
  {
    OutOk(n, cfg, d);
    AdmittedOk(l, OutAt(n, cfg, d));
    OutIsAdvert(n, cfg, d, l.up);
    OutFields(n, cfg, d);
    hide OutAt, SendUpdate, BytesOf, Value, Masked, IsV4, OutgoingOk;
  }

  lemma OutFields(n: Node, cfg: Output, d: Destination)
    ensures var o := OutAt(n, cfg, d);
            o.prefix == d.prefix && o.plen == d.plen && o.id == BytesOf(SentId(n, cfg, KeyOf(d)), 8)
  {
  }

  // ---- The plan ----

  /** Entries as flushupdates makes them. */
  predicate Looked(n: Node, e: Entry) {
    EntryOk(e) && Masked(e.prefix, e.plen) && e == EntryFor(n, DestinationOf(e))
  }

  predicate AllLooked(n: Node, s: seq<Entry>) { forall e :: e in s ==> Looked(n, e) }

  lemma EntriesLooked(n: Node, q: seq<Pending>)
    ensures AllLooked(n, Ordered(Entries(n, q))) && Ready(Ordered(Entries(n, q))) && OneId(Ordered(Entries(n, q)))
    ensures multiset(Ordered(Entries(n, q))) == multiset(Entries(n, q))
  {
    var s, t := Entries(n, q), Ordered(Entries(n, q));
    OrderedReady(s);
    forall e | e in t ensures Looked(n, e) {
      assert e in multiset(t) && e in multiset(s);
      var i :| 0 <= i < |s| && s[i] == e;
    }
    hide EntryFor, Ordered, Entries, Ready;
    forall i, j | 0 <= i < |t| && 0 <= j < |t| && Same(t[i], t[j]) ensures t[i] == t[j] {
      assert t[i] in t && t[j] in t;
      assert DestinationOf(t[i]) == DestinationOf(t[j]);
    }
  }

  lemma SentLooked(n: Node, cfg: Output, q: seq<Pending>)
    ensures AllLooked(n, SentFor(n, cfg, q))
    ensures forall e :: e in SentFor(n, cfg, q) ==> !FateOf(n, cfg)(e).Held?
  {
    EntriesLooked(n, q);
    forall e | e in SentFor(n, cfg, q) ensures Looked(n, e) && !FateOf(n, cfg)(e).Held? {
      SentTwiceExactly(Ordered(Entries(n, q)), FateOf(n, cfg), e);
    }
  }

  lemma {:induction false} OutsOk(n: Node, cfg: Output, s: seq<Entry>)
    requires OutputOk(cfg) && AllLooked(n, s)
    ensures forall i :: 0 <= i < |s| ==> OutgoingOk(Outs(n, cfg, s)[i])
  {
    if s != [] {
      var pre, e := s[..|s| - 1], s[|s| - 1];
      assert forall x :: x in pre ==> x in s;
      OutsOk(n, cfg, pre);
      assert e in s && Looked(n, e);
      OutOk(n, cfg, DestinationOf(e));
    }
  }

  /** The plan can be given to an interface. */
  lemma PlanForOk(n: Node, cfg: Output)
    requires OutputOk(cfg)
    ensures PlanOk((q: seq<Pending>) => PlanFor(n, cfg, q))
  {
    var plan := (q: seq<Pending>) => PlanFor(n, cfg, q);
    forall q: seq<Pending>, i | 0 <= i < |plan(q)| ensures OutgoingOk(plan(q)[i]) {
      SentLooked(n, cfg, q);
      OutsOk(n, cfg, SentFor(n, cfg, q));
    }
  }

  // ---- How often a destination is sent ----

  /** The copies of a destination in the queue. */
  function Queued(q: seq<Pending>, d: Destination): (m: nat) {
    if q == [] then 0 else Queued(q[..|q| - 1], d) + if q[|q| - 1] == d then 1 else 0
  }

  lemma {:induction false} CopiesConcat(a: seq<Entry>, b: seq<Entry>, e: Entry)
    ensures Copies(a + b, e) == Copies(a, e) + Copies(b, e)
  {
    if a == [] {
      assert a + b == b;
    } else {
      assert (a + b)[1..] == a[1..] + b;
      CopiesConcat(a[1..], b, e);
    }
  }

  lemma CopiesSnoc(s: seq<Entry>, e: Entry)
    requires s != []
    ensures Copies(s, e) == Copies(s[..|s| - 1], e) + if s[|s| - 1] == e then 1 else 0
  {
    var pre, x := s[..|s| - 1], s[|s| - 1];
    assert s == pre + [x] && [x][1..] == [];
    CopiesConcat(pre, [x], e);
  }

  lemma {:induction false} EntriesCopies(n: Node, q: seq<Pending>, d: Destination)
    ensures Copies(Entries(n, q), EntryFor(n, d)) == Queued(q, d)
    decreases |q|
  {
    if q != [] {
      var pre := q[..|q| - 1];
      EntriesSnoc(n, q, d);
      hide EntryFor, Copies, Entries;
      EntriesCopies(n, pre, d);
      CopiesSnoc(Entries(n, q), EntryFor(n, d));
    }
  }

  lemma EntriesSnoc(n: Node, q: seq<Pending>, d: Destination)
    requires q != []
    ensures var k := |q| - 1;
            && Entries(n, q)[..k] == Entries(n, q[..k]) && Entries(n, q)[k] == EntryFor(n, q[k])
            && (EntryFor(n, q[k]) == EntryFor(n, d) <==> q[k] == d)
  {
    hide SortId;
  }

  /** An announced destination is sent once, a held one never, and one without a
      route is retracted as often as it was queued. */
  lemma SentAsOften(n: Node, cfg: Output, q: seq<Pending>, d: Destination)
    ensures Copies(SentFor(n, cfg, q), EntryFor(n, d)) == Times(FateAt(n, cfg, KeyOf(d)), Queued(q, d), false)
  {
    var s, e := Ordered(Entries(n, q)), EntryFor(n, d);
    EntriesLooked(n, q);
    assert [] + s == s;
    SentTimes(s, FateOf(n, cfg), [], e);
    EntriesCopies(n, q, d);
    CopiesCount(s, e);
    CopiesCount(Entries(n, q), e);
    assert FateOf(n, cfg)(e) == FateAt(n, cfg, KeyOf(d));
  }

  // ---- What a neighbour learns ----

  /** The events about one destination. */
  function About(es: seq<Event>, d: Destination): (r: seq<Event>) {
    if es == [] then []
    else
      var x := es[|es| - 1];
      About(es[..|es| - 1], d) + if x.Learnt? && x.prefix == d.prefix && x.plen == d.plen then [x] else []
  }

  function Repeat(es: seq<Event>, m: nat): (r: seq<Event>) {
    if m == 0 then [] else Repeat(es, m - 1) + es
  }

  lemma AboutSome(es: seq<Event>, more: seq<Event>, d: Destination)
    requires |more| <= 1
    ensures About(es + more, d) == About(es, d) + About(more, d)
  {
    if more == [] {
      assert es + more == es;
    } else {
      assert (es + more)[..|es|] == es && more[..0] == [];
    }
  }

  lemma NewsAbout(rx: Receiver, l: Link, o: Outgoing, d: Destination)
    requires ItemsOk(Admitted(l, o))
    ensures About(News(rx, l, o), d) == if o.prefix == d.prefix && o.plen == d.plen then News(rx, l, o) else []
  {
    var es := News(rx, l, o);
    if es != [] { assert es == [es[0]] && es[..0] == []; }
  }

  lemma OneMeaning(rx: Receiver, items: seq<Item>, l: Link, o: Outgoing)
    requires ItemsOk(items) && ItemsOk(Admitted(l, o))
    ensures ItemsOk(items + Admitted(l, o))
    ensures Meanings(rx, items + Admitted(l, o)) == Meanings(rx, items) + News(rx, l, o)
  {
    var more := Admitted(l, o);
    hide Admitted, Meaning, ItemOk;
    MeaningsConcat(rx, items, more);
    if more == [] {
      assert Meanings(rx, items) + [] == Meanings(rx, items);
    } else {
      assert more == [more[0]] by { OneItem(l, o); }
      assert more[..0] == [] && [] + Meaning(rx, more[0]) == Meaning(rx, more[0]);
    }
  }

  lemma OneItem(l: Link, o: Outgoing)
    ensures |Admitted(l, o)| <= 1
  {
  }

  lemma {:induction false} SentAbout(rx: Receiver, l: Link, n: Node, cfg: Output, s: seq<Entry>, d: Pending)
    requires OutputOk(cfg) && LinkOk(l) && AllLooked(n, s)
    ensures ItemsOk(Admitted(l, OutAt(n, cfg, d))) && ItemsOk(AdmittedAll(l, Outs(n, cfg, s)))
    ensures About(Meanings(rx, AdmittedAll(l, Outs(n, cfg, s))), d) ==
            Repeat(News(rx, l, OutAt(n, cfg, d)), Copies(s, EntryFor(n, d)))
  {
    OutOk(n, cfg, d);
    AdmittedOk(l, OutAt(n, cfg, d));
    if s != [] {
      var pre, e := s[..|s| - 1], s[|s| - 1];
      assert AllLooked(n, pre) by { assert forall x :: x in pre ==> x in s; }
      SentAbout(rx, l, n, cfg, pre, d);
      assert Looked(n, e) by { assert e in s; }
      SentMore(rx, l, n, cfg, pre, e, d);
      assert Outs(n, cfg, s)[..|s| - 1] == Outs(n, cfg, pre);
      CopiesSnoc(s, EntryFor(n, d));
    }
  }

  /** One more entry. */
  lemma SentMore(rx: Receiver, l: Link, n: Node, cfg: Output, pre: seq<Entry>, e: Entry, d: Pending)
    requires OutputOk(cfg) && LinkOk(l) && Looked(n, e)
    requires ItemsOk(AdmittedAll(l, Outs(n, cfg, pre))) && ItemsOk(Admitted(l, OutAt(n, cfg, d)))
    ensures var items, o := AdmittedAll(l, Outs(n, cfg, pre)), OutAt(n, cfg, DestinationOf(e));
            && ItemsOk(items + Admitted(l, o))
            && About(Meanings(rx, items + Admitted(l, o)), d) ==
               About(Meanings(rx, items), d) + if e == EntryFor(n, d) then News(rx, l, OutAt(n, cfg, d)) else []
  {
    var items, o := AdmittedAll(l, Outs(n, cfg, pre)), OutAt(n, cfg, DestinationOf(e));
    OutOk(n, cfg, DestinationOf(e));
    AdmittedOk(l, o);
    OutFields(n, cfg, DestinationOf(e));
    assert e == EntryFor(n, d) <==> DestinationOf(e) == d;
    hide OutAt, EntryFor, Outs, AdmittedAll, Admitted, News, OutgoingOk, EntryOk, Masked, Looked, ItemOk, Meanings, About;
    OneMeaning(rx, items, l, o);
    AboutSome(Meanings(rx, items), News(rx, l, o), d);
    NewsAbout(rx, l, o, d);
  }

  /** From the tables to the neighbour: about every destination a flush of the
      queue tells exactly what the node model advertises for it, once if there is
      something to announce, never if split horizon holds it back or it was not
      queued, and once per copy if it has to be retracted. */
  lemma NeighbourLearns(rx: Receiver, l: Link, n: Node, cfg: Output, q: seq<Pending>, d: Pending)
    requires TableOk(n.table) && OutputOk(cfg) && LinkOk(l)
    ensures ItemsOk(AdmittedAll(l, PlanFor(n, cfg, q)))
    ensures About(Meanings(rx, AdmittedAll(l, PlanFor(n, cfg, q))), d) ==
            Repeat(Told(rx, l, n, cfg, d), Times(FateAt(n, cfg, KeyOf(d)), Queued(q, d), false))
  {
    SentLooked(n, cfg, q);
    SentAbout(rx, l, n, cfg, SentFor(n, cfg, q), d);
    SentAsOften(n, cfg, q, d);
    hide SentFor, Outs, Told, EntryFor, Meanings, About, AdmittedAll, Copies;
    if FateAt(n, cfg, KeyOf(d)).Held? {
      assert Repeat(Told(rx, l, n, cfg, d), 0) == [];
    } else {
      NewsIsTold(rx, l, n, cfg, d);
    }
  }

  // ---- The node after a flush ----

  /** The sends of a flush, one after the other. */
  function AfterSends(n: Node, cfg: Output, up: bool, s: seq<Entry>): (n': Node) {
    if s == [] then n
    else
      var k := KeyOf(DestinationOf(s[|s| - 1]));
      SendUpdate(AfterSends(n, cfg, up, s[..|s| - 1]), k, EnvAt(n, cfg, k, up)).0
  }

  /** Sending changes feasibility distances only, so that the order of the queue
      does not matter to what is advertised: the i-th send of a flush advertises
      what it would have advertised first. */
  lemma {:induction false} SendsIndependent(n: Node, cfg: Output, up: bool, s: seq<Entry>, k: Key)
    requires NodeOk(n)
    ensures var n' := AfterSends(n, cfg, up, s);
            && NodeOk(n') && n' == n.(srcs := n'.srcs)
            && SendUpdate(n', k, EnvAt(n', cfg, k, up)).1 == SendUpdate(n, k, EnvAt(n, cfg, k, up)).1
  {
    if s != [] {
      var pre := s[..|s| - 1];
      var q := KeyOf(DestinationOf(s[|s| - 1]));
      SendsIndependent(n, cfg, up, pre, k);
      SendUpdateKeeps(AfterSends(n, cfg, up, pre), q, EnvAt(n, cfg, q, up));
      OnlySources(AfterSends(n, cfg, up, pre), q, EnvAt(n, cfg, q, up));
      hide NodeOkHolding, SendUpdate, EnvAt;
    }
    hide NodeOkHolding;
    SameAdvert(n, AfterSends(n, cfg, up, s), cfg, k, up);
  }

  lemma OnlySources(n: Node, k: Key, e: SendEnv)
    ensures var n' := SendUpdate(n, k, e).0; n' == n.(srcs := n'.srcs)
  {
  }

  lemma SameAdvert(n: Node, n': Node, cfg: Output, k: Key, up: bool)
    requires n' == n.(srcs := n'.srcs)
    ensures SendUpdate(n', k, EnvAt(n', cfg, k, up)).1 == SendUpdate(n, k, EnvAt(n, cfg, k, up)).1
  {
  }

  // ---- The interface ----

  /** A flush with the tables as they are. */
  method FlushTables(ifc: Interface, n: Node, cfg: Output)
    requires ifc.Valid() && OutputOk(cfg)
    modifies ifc, ifc.sendbuf
    ensures ifc.Valid() && ifc.queue == [] && ifc.book.items == [] && unchanged(ifc`up, ifc`ipv4)
    ensures ifc.book.history == old(ifc.book.history) +
            if old(ifc.queue) == [] || !ifc.up then [] else AdmittedAll(ifc.LinkState(), PlanFor(n, cfg, old(ifc.queue)))
  {
    PlanForOk(n, cfg);
    ifc.SetPlan((q: seq<Pending>) => PlanFor(n, cfg, q));
    ifc.FlushBuf();
  }

  /** After such a flush a neighbour that gets every packet has learnt what was
      sent before and the news of this queue. */
  lemma FlushDelivers(rx: Receiver, was: seq<Item>, k: Book, log: seq<Flushed>, e: Encoder, contents: seq<Byte>,
                      l: Link, n: Node, cfg: Output, q: seq<Pending>, d: Pending)
    requires Consistent(k, log, e, contents) && k.items == [] && LinkLocal(rx.from) && ItemsOk(was)
    requires k.history == was + AdmittedAll(l, PlanFor(n, cfg, q))
    requires TableOk(n.table) && OutputOk(cfg) && LinkOk(l)
    ensures AllReadable(log) && ItemsOk(AdmittedAll(l, PlanFor(n, cfg, q)))
    ensures var news := Meanings(rx, AdmittedAll(l, PlanFor(n, cfg, q)));
            && SendBuffer.Learnt(rx, log) == Meanings(rx, was) + news
            && About(news, d) == Repeat(Told(rx, l, n, cfg, d), Times(FateAt(n, cfg, KeyOf(d)), Queued(q, d), false))
  {
    AllDelivered(rx, k, log, e, contents);
    NeighbourLearns(rx, l, n, cfg, q, d);
    hide Consistent, PlanFor, Meanings, AdmittedAll, About, Told, ItemOk;
    MeaningsConcat(rx, was, AdmittedAll(l, PlanFor(n, cfg, q)));
  }
}

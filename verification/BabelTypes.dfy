/** The records of babeld's routing tables, and one node's state in its
    simplest form: a map from destination to the ordered list of its routes. */
module BabelTypes {
  import opened Options
  import opened Seqno

  const SOURCE_GC_TIME := 200

  /** A destination: 16-byte address read as a big-endian number, and length. */
  datatype Key = Key(prefix: nat, plen: nat)

  /** A source is a destination as originated by one router. */
  datatype SourceKey = SourceKey(id: nat, key: Key)

  /** A neighbour: the peer router and the interface it is heard on. */
  datatype Neigh = Neigh(node: nat, ifp: nat)

  /** What tells the routes of one slot apart. */
  datatype RouteId = RouteId(neigh: Neigh, nexthop: nat)

  /** struct babel_route. `anchored` is a history variable that no decision
      reads: the installed route has been finite and feasible under its current
      source at some time since it was installed. */
  datatype Route = Route(
    src: SourceKey, refmetric: U16, cost: U16, add: U16, seqno: U16, rid: RouteId,
    time: int, holdTime: nat, installed: bool, anchored: bool)

  /** struct source */
  datatype Source = Source(seqno: U16, metric: U16, time: int, routeCount: nat)

  /** struct xroute without its key */
  datatype Xroute = Xroute(metric: U16, ifindex: nat, proto: int)

  type Table = map<Key, seq<Route>>

  datatype Node = Node(
    myid: nat, myseqno: U16, table: Table,
    srcs: map<SourceKey, Source>, xroutes: map<Key, Xroute>)

  /** What a node reads from outside its tables during one operation: the clock,
      the (randomised) smoothed metric of a route, link costs, filters and
      configuration. */
  datatype Env = Env(
    now: int, smoothed: Route -> nat, cost: Neigh -> U16,
    filter: (SourceKey, Neigh) -> U16, martian: Key -> bool, keepUnfeasible: bool)

  /** An update as handed to update_route. */
  datatype Update = Update(src: SourceKey, seqno: U16, refmetric: U16, interval: U16, rid: RouteId)

  function Min(a: int, b: int): int { if a <= b then a else b }

  function Max(a: int, b: int): int { if a <= b then b else a }

  /** route_metric */
  function Metric(r: Route): (m: U16) {
    Min(r.refmetric + r.cost + r.add, INF)
  }

  /** route_metric_noninterfering */
  function MetricNoninterfering(r: Route, diversityFactor: nat): (m: U16) {
    Min(Max(r.refmetric + (diversityFactor * r.cost + 128) / 256 + r.add, r.refmetric + 1), INF)
  }

  function Advertised(r: Route): Distance { Distance(r.seqno, r.refmetric) }

  function FeasibilityDistance(s: Source): Distance { Distance(s.seqno, s.metric) }

  function SlotOf(n: Node, k: Key): (s: seq<Route>) {
    if k in n.table then n.table[k] else []
  }

  /** Stores a slot; an emptied slot leaves the table. */
  function WithSlot(n: Node, k: Key, s: seq<Route>): (n': Node) {
    n.(table := if s == [] then n.table - {k} else n.table[k := s])
  }

  function IndexOf(s: seq<Route>, rid: RouteId): (j: nat)
    ensures j <= |s|
    ensures j < |s| ==> s[j].rid == rid
    ensures forall i :: 0 <= i < j ==> s[i].rid != rid
  {
    if s == [] || s[0].rid == rid then 0 else 1 + IndexOf(s[1..], rid)
  }

  /** The number of routes in a slot that point to a source. */
  function Count(s: seq<Route>, sk: SourceKey): (c: nat) {
    if s == [] then 0 else (if s[0].src == sk then 1 else 0) + Count(s[1..], sk)
  }

  lemma CountConcat(a: seq<Route>, b: seq<Route>, sk: SourceKey)
    ensures Count(a + b, sk) == Count(a, sk) + Count(b, sk)
  {
    if a == [] {
      assert a + b == b;
    } else {
      assert (a + b)[1..] == a[1..] + b;
      CountConcat(a[1..], b, sk);
    }
  }

  lemma CountAppend(s: seq<Route>, r: Route, sk: SourceKey)
    ensures Count(s + [r], sk) == Count(s, sk) + if r.src == sk then 1 else 0
  {
    CountConcat(s, [r], sk);
  }

  /** Replacing one element. */
  lemma CountUpdate(s: seq<Route>, j: nat, r: Route, sk: SourceKey)
    requires j < |s|
    ensures Count(s[j := r], sk) ==
            Count(s, sk) - (if s[j].src == sk then 1 else 0) + (if r.src == sk then 1 else 0)
  {
    assert s == s[..j] + [s[j]] + s[j + 1..];
    assert s[j := r] == s[..j] + [r] + s[j + 1..];
    CountConcat(s[..j] + [s[j]], s[j + 1..], sk);
    CountConcat(s[..j] + [r], s[j + 1..], sk);
    CountConcat(s[..j], [s[j]], sk);
    CountConcat(s[..j], [r], sk);
  }

  lemma CountRemove(s: seq<Route>, j: nat, sk: SourceKey)
    requires j < |s|
    ensures Count(Without(s, j), sk) == Count(s, sk) - if s[j].src == sk then 1 else 0
  {
    assert s == s[..j] + [s[j]] + s[j + 1..];
    CountConcat(s[..j] + [s[j]], s[j + 1..], sk);
    CountConcat(s[..j], [s[j]], sk);
    CountConcat(s[..j], s[j + 1..], sk);
  }

  lemma CountPositive(s: seq<Route>, sk: SourceKey)
    ensures Count(s, sk) > 0 <==> exists j :: 0 <= j < |s| && s[j].src == sk
  {
    if s != [] {
      CountPositive(s[1..], sk);
      if Count(s[1..], sk) > 0 {
        var j :| 0 <= j < |s[1..]| && s[1..][j].src == sk;
        assert s[j + 1].src == sk;
      }
      if j :| 0 <= j < |s| && s[j].src == sk {
        assert j == 0 || s[1..][j - 1].src == sk;
      }
    }
  }

  function Without(s: seq<Route>, j: nat): (r: seq<Route>)
    requires j < |s|
  {
    s[..j] + s[j + 1..]
  }

  // ---- Invariants ----

  /** One destination's list: non-empty, one key, one route per neighbour and
      next hop, and at most one installed route, at the head. */
  predicate SlotOk(k: Key, s: seq<Route>) {
    && s != []
    && (forall j :: 0 <= j < |s| ==> s[j].src.key == k)
    && (forall j :: 0 < j < |s| ==> !s[j].installed)
    && (forall i, j :: 0 <= i < j < |s| ==> s[i].rid != s[j].rid)
  }

  ghost predicate TableOk(t: Table) {
    forall k :: k in t ==> SlotOk(k, t[k])
  }

  predicate Known(s: seq<Route>, srcs: map<SourceKey, Source>) {
    forall j :: 0 <= j < |s| ==> s[j].src in srcs
  }

  /** The counter of a source is the number of routes that point to it; `held`
      is one extra reference that an operation in progress may hold. */
  predicate CountOk(n: Node, sk: SourceKey, held: Option<SourceKey>)
    requires sk in n.srcs
  {
    n.srcs[sk].routeCount == Count(SlotOf(n, sk.key), sk) + if held == Some(sk) then 1 else 0
  }

  ghost predicate RefsOk(n: Node, held: Option<SourceKey>) {
    && (forall k :: k in n.table ==> Known(n.table[k], n.srcs))
    && (forall sk :: sk in n.srcs ==> CountOk(n, sk, held))
    && (held.Some? ==> held.value in n.srcs)
  }

  /** No destination is both exported and installed. */
  ghost predicate Exclusive(n: Node) {
    forall k :: k in n.xroutes && k in n.table && n.table[k] != [] ==> !n.table[k][0].installed
  }

  ghost predicate NodeOkHolding(n: Node, held: Option<SourceKey>) {
    TableOk(n.table) && RefsOk(n, held) && Exclusive(n)
  }

  ghost predicate NodeOk(n: Node) {
    NodeOkHolding(n, None)
  }
}

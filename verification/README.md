# Verified models of FRR protocol cores

This project models four parts of FRR in Dafny and proves what they promise.

**Babel route selection** (`babeld/route.c`, `source.c`, `xroute.c`, `util.h`,
`route.h`). `BabelTypes` and `BabelNode` give every operation on a node's tables
in its simplest form, on a map from destination to list of routes, and prove
that each keeps the table invariant, the source reference counts and the
exclusion of exported from installed destinations. `SortedSlots`, `Exports`,
`Babeld`, `BabeldFlush` and `BabeldRetract` do the same operations on a daemon
object that keeps a sorted array of slots, the source table and the swap-removed
array of exports, and refine the simple form; the arrays are sequences that the
methods reassign. `BabelRetract` follows the walk of a wildcard retraction
through a list that it reorders. `BabelNetwork`, `BabelLoops` and `BabelRevival` put any number of
nodes on a network that loses, duplicates and reorders, and prove when
forwarding is loop free. `BabelRuns` states the invariants of every reachable
state of one node. `Seqno` and `SourceRuns` treat 16-bit sequence numbers
and feasibility distances, `BabelSelection` what selection achieves, `Smoothing`
and `SmoothingStall` the randomised smoothed metric, `SmoothingWrap` the same in
machine integers, `TokenBucket` the rate limit.

**The Babel update codec** (`babeld/message.c`, `util.c`). `BabelWire` holds the
encoder with its running state and the parser with its own; `BabelRoundTrip`
proves that they understand each other, `BabelParser` has the two passes of the
receiver, and `SendBuffer` the buffer that is filled through mutually recursive
methods, with a log of the bodies that left it. `UpdateQueue` sorts the pending
updates and drops repeated ones; `UpdateFlush` goes all the way from a node's
tables and a queue to what a neighbour learns.

**BGP AS paths** (`bgpd/bgp_aspath.c`). `AsPath` defines what a path means and
proves the normal form canonical; `AsPathEdit` normalises in place;
`AsPathWire`, `AsPathStream` and `AsPathRoundTrip` cover the wire form,
`AsPathExport` and `AsPathReadBack` what a path becomes on its way out of a
confederation and when the peer can read it,
`AsPathReconcile` the merge of AS_PATH and AS4_PATH, `AsPathAggregate`,
`AsPathOrder` and `AsPathAggregator` aggregation, the order it keeps, and the
table behind an aggregate route.

**The BFD handshake** (`bfdd/bfd.c`, `bfd_packet.c`). `Bfd` is one software
session, as functions on its record and as a class whose methods are proved to
do what the functions say; `BfdNetwork` and `BfdRuns` are about runs of two such
sessions over an unreliable network.

`dafny verify dfyconfig.toml` checks everything.

## What the proofs assume

Loop freedom is proved for links of cost at least 1, kernel calls that succeed,
source entries that do not grow older than 200 seconds while they matter, and
live sequence numbers of a source within half of the 16-bit space
(`BabelNetwork.Admissible`, `BabelNetwork.Window`). The smoothed metric is any
function of the route during one operation; `Smoothing.CalledTwice` is why one
value per operation is right. A random draw is any value the code can draw. The
rate limit is proved for a monotone clock; babeld reads `CLOCK_MONOTONIC`
(`babeld/kernel.c:197-202`, `lib/monotime.h:62-71`), so its clock is never stepped
back. `TokenBucket.ExceedsExactly` says what the hypothesis is good for: which
readings of a clock would let more through.
Prefixes handed to the codec are masked, and the send buffer is followed over one
up-period that starts empty.

## Where the code does not keep a promise

- Loop freedom of the whole forwarding graph. A retracted route can be installed
  (`babeld/route.c:885-889`), and an unfeasible finite update for an installed
  route of the same source is taken over (`babeld/route.c:766-793`), although the
  comment above it says that it is ignored. Together they close a loop:
  `BabelRevival.RevivedRouteLoops`. `BabelLoops.FedExactly` says exactly which
  step does the damage, `BabelLoops.LoopNeedsRevival` that every loop goes through
  such a route, and `BabelLoops.LoopFreeUnlessRevived` that without that step
  there is no loop.
- A wildcard retraction is to retract every route through a neighbour. When the
  retracted installed route is replaced by another route through the same
  neighbour, the walk goes on behind the old one and never sees the new one:
  `BabelRetract.OverlookedRoute`, and exactly when in `BabelRetract.WalkExactly`.
- Sending each queued destination once. The comparison with the previous update
  does not see a destination that has no route, so it is retracted once per queued
  copy: `UpdateQueue.RetractedTwice`, and exactly when in
  `UpdateQueue.SentTwiceExactly`.
- Convergence of the smoothed metric. Steps of one second are truncated to zero
  near the target, so with the default half-life of 4 seconds a distance of 4 or 5
  never closes under calls every second; `SmoothingStall.ConvergesExactly`.
- Packing in `aspath_put`. The patched header counts the last packed segment
  only: `AsPathRoundTrip.PackingLosesCount`. It is right exactly when no header
  takes more than one further segment, `AsPathRoundTrip.HeadersRightExactly`, and
  then the path comes back. Normalised paths pack nothing, but a path sent to an
  eBGP peer loses its confederation segments (`bgpd/bgp_attr.c:5255`) and is not
  normalised again. So a normalised path that a confederation peer may send, since
  it starts with a confederation segment (`bgpd/bgp_attr.c:2180-2188`), can be
  passed on in a form that the eBGP peer rejects: `AsPathExport.ExportRejected`.
  Exactly when the headers are right is in `AsPathExport.ExportedHeadersExactly`,
  and exactly when the peer reads what was meant, where one header covers the whole
  path, in `AsPathReadBack.ExportedReadExactly`.
- Keeping AS_PATH for loop detection when AS4_PATH claims more hops
  (`bgpd/bgp_aspath.c:1924-1937`). The hop count starts over without confederation
  segments, which then use it up, and ASNs behind them are lost:
  `AsPathReconcile.LostBehindConfed`, and exactly when in
  `AsPathReconcile.WholeKeptExactly` and `AsPathReconcile.AsnsKeptExactly`. When the
  hop count of AS_PATH is kept is in `AsPathReconcile.ReconcileCountExactly`.
- Administrative shutdown of a BFD session. Disabling the interface of a session
  that is shut down moves it from AdmDown to Down with the flag still set, and it
  can come up again; `BfdRuns.ShutBreaksExactly`, `BfdRuns.ShutSessionComesUp`.

## Model

| member | source | states |
|---|---|---|
| BabelNetwork.LoopFreedom | babeld/route.c:715-906 | for any number of nodes and every interleaving of deliveries, losses, duplications, reorderings, updates, retractions, cost changes, switches, exports and sends, the installed finite routes to one source that have been fed a feasible finite update form no cycle |
| BabelNetwork.WalkDescends | babeld/route.c:533-548 | along every walk of such routes the feasibility distance strictly improves from node to node |
| BabelNetwork.RunKeeps | babeld/message.c:1381-1413 | the induction behind loop freedom: every run keeps "a node's feasibility distance is at least as good as anything finite it advertised" and "an installed route's next hop has a strictly better one" |
| BabelNetwork.ReceiveStep | babeld/route.c:715-841 | receiving an update, feasible or not, keeps that invariant, also where an installed route keeps an unfeasible update of the same source |
| BabelNetwork.ConsiderStep | babeld/route.c:868-906 | switching to a feasible route keeps it: the new next hop is strictly closer |
| BabelNetwork.SendStep | babeld/message.c:1381-1413 | sending keeps it: the source entry is updated to be as good as what is advertised |
| BabelNetwork.UpdatedSourceImproves | babeld/source.c:96-111 | update_source never worsens a fresh entry and leaves it as good as the distance it is given |
| BabelNetwork.SentMetricGrows | babeld/route.h:47-59 | a metric that is sent is larger than the metric that was received, for links of cost at least 1, whichever of the two metric functions is used |
| BabelLoops.OperationIsSteps | babeld/route.c:658-841 | update_route, update_route_metric, flush_route and the retraction of one route, with any sends at the places where a full queue is flushed in between, are sequences of steps of the network model, what follows a send being decided on the tables as they are then |
| BabelLoops.UninterruptedIsOperation | babeld/route.c:658-841 | without such sends they are the operations of the node model |
| BabelLoops.FedExactly | babeld/route.c:766-793 | a finite route of a source that was never feasible comes into use by exactly one kind of step: an unfeasible finite update for an installed, retracted route of the same source |
| BabelLoops.LoopNeedsRevival | babeld/route.c:766-793 | every forwarding loop for a source goes through a node that uses such a route |
| BabelLoops.LoopFreeUnlessRevived | babeld/route.c:715-906 | in every run in which no route of the source is revived that way the graph of all its installed finite routes is acyclic |
| BabelLoops.AnchoredExactly | babeld/route.c:868-906 | a step puts a route of the source into use that was never feasible, finite or not, if and only if it installs a retracted one |
| BabelLoops.LoopFreeUnlessRetractedInstalled | babeld/route.c:868-906 | in particular there is no loop as long as no retracted route of the source is installed |
| BabelRevival.RevivedRouteLoops | babeld/route.c:766-776 | a run of three nodes that meets every hypothesis and ends in a forwarding loop: a retracted route is installed, then revived by an unfeasible finite update |
| Seqno.CompareAgrees | babeld/util.h:64-70 | comparing 16-bit seqnos agrees with the order of unbounded integers less than 32768 apart, and answers "greater" both ways at exactly 32768 |
| Seqno.CompareAntisymmetric | babeld/util.h:64-70 | the comparison is antisymmetric exactly off the antipode |
| Seqno.PlusMinus | babeld/util.h:72-80 | seqno_minus undoes seqno_plus on the whole range of a short |
| Seqno.BetterTransitive | babeld/route.c:533-548 | within half the number space the feasibility order is a strict order that composes with "as good as" |
| SourceRuns.NeverWorsens | babeld/source.c:96-111 | over a whole run of update_source calls on an entry that stays fresh, the seqno with its wrap-arounds counted grows, or stays and the metric does not grow |
| SourceRuns.FeasibleShrinks | babeld/route.c:533-548 | what is feasible at the end of such a run was feasible at every earlier moment |
| BabelNode.FindBest | babeld/route.c:631-656 | the result is an acceptable route of the destination whose smoothed metric no acceptable route undercuts, and there is a result if there is an acceptable route |
| BabelNode.ConsiderKeeps | babeld/route.c:868-906 | consider_route keeps the table invariant, the reference counts and the exclusion of exported from installed destinations |
| BabelNode.RouteChangedKeeps | babeld/route.c:984-1002 | so does route_changed |
| BabelNode.RouteLostKeeps | babeld/route.c:1005-1032 | so does route_lost |
| BabelNode.UpdateRouteKeeps | babeld/route.c:715-841 | so does update_route, whatever the update says, including the extra reference it holds on the old source while it reselects |
| BabelNode.UpdateRouteMetricKeeps | babeld/route.c:658-680 | so does update_route_metric, for expired and for live routes |
| BabelNode.WithdrawKeeps | babeld/route.c:908-926 | so does retracting one route and reselecting, as retract_neighbour_routes does |
| BabelNode.FlushRouteKeeps | babeld/route.c:174-222 | so does flush_route, although it may install another route of the destination |
| BabelNode.ReleaseKeeps | babeld/source.c:71-75 | releasing the held reference restores the invariant, and the counter it lowers is positive |
| BabelNode.XrouteAddKeeps | babeld/xroute.c:179-199 | exporting a destination uninstalls its route, so exported and installed stay exclusive |
| BabelNode.FlushXrouteKeeps | babeld/xroute.c:87-112 | withdrawing an export keeps every invariant |
| BabelNode.ExpireSourcesKeeps | babeld/source.c:113-130 | expire_sources keeps every invariant and frees no source that a route points to |
| BabelNode.SendUpdateKeeps | babeld/message.c:1354-1418 | sending an update keeps every invariant |
| BabelRuns.Reachable | babeld/route.c:142-222 | in every state reachable by updates, metric changes, retractions, flushes, exports, withdrawals, source expiry and sends: lists are non-empty, of one destination, without repetition, installed at most at the head; no exported destination is installed; every counter is the number of routes that point to the source |
| BabelSelection.ReselectionImproves | babeld/route.c:868-906 | a reselection never raises the installed metric, nor replaces a reachable route by an unreachable one |
| BabelSelection.LostInstallsBest | babeld/route.c:1005-1032 | losing a route installs the feasible, unexpired one with the least smoothed metric, if there is one |
| BabelSelection.FlushRecovers | babeld/route.c:174-222 | flushing the installed route leaves the destination installed through the best remaining route whenever a feasible, unexpired one remains |
| BabelSelection.UpdateRecovers | babeld/route.c:754-798 | an unfeasible update for another source that takes the installed route away leaves the destination installed if and only if another route of it was feasible and unexpired before the update |
| SortedSlots.MemcmpOrder | babeld/route.c:38-50 | comparing addresses byte by byte is comparing them as big-endian numbers |
| SortedSlots.StoreRefines | babeld/route.c:142-222 | replacing, inserting or removing a slot by shifting the array keeps it strictly sorted and does to the table what storing one destination's list does |
| SortedSlots.TableDecides | babeld/route.c:38-50 | a table has exactly one sorted array |
| Babeld.Search | babeld/route.c:55-83 | the binary search finds what an exhaustive search finds, and otherwise the place where the destination goes |
| Babeld.ScanBest | babeld/route.c:631-656 | the two loops compute the best route, the first one among equals |
| Babeld.MoveInstalled | babeld/route.c:341-354 | unlinking and relinking makes the chosen route the installed head and uninstalls the old head |
| Babeld.CollectSources | babeld/source.c:113-130 | the walk keeps exactly the sources that are young or in use, with times from the future clamped |
| Babeld.Daemon.FindRoute | babeld/route.c:85-103 | the position of a neighbour's route in its destination's list |
| Babeld.Daemon.FindInstalledRoute | babeld/route.c:105-113 | a search and a test of the head agree with an exhaustive search of the whole table for an installed route |
| Babeld.Daemon.InsertRoute | babeld/route.c:142-172 | a new route becomes the last of its list |
| Babeld.Daemon.SwitchRoutes | babeld/route.c:341-435 | the route at a position becomes the installed head of its slot |
| Babeld.Daemon.ConsiderRoute | babeld/route.c:868-906 | refines consider_route on the sorted array and changes one slot only |
| Babeld.Daemon.RouteChanged | babeld/route.c:984-1002 | refines route_changed and keeps all invariants |
| Babeld.Daemon.RouteLost | babeld/route.c:1005-1032 | refines route_lost, keeps all invariants and changes one slot only |
| Babeld.Daemon.UpdateRoute | babeld/route.c:715-841 | refines update_route and keeps all invariants |
| Babeld.Daemon.UpdateRouteMetric | babeld/route.c:658-680 | refines update_route_metric and keeps all invariants |
| Babeld.Daemon.FlushRoute | babeld/route.c:174-222 | refines flush_route, keeps all invariants and changes one slot only |
| Babeld.Daemon.UninstallRoute | babeld/route.c:388-402 | refines uninstall_route and restores the exclusion of exports |
| Babeld.Daemon.ExpireSources | babeld/source.c:113-130 | refines expire_sources; every route still points to a source |
| Babeld.Daemon.AddXroute | babeld/xroute.c:114-143 | refines add_xroute with unique keys, and reports whether something changed |
| Babeld.Daemon.XrouteAddNewRoute | babeld/xroute.c:179-199 | refines xroute_add_new_route and keeps all invariants |
| Babeld.Daemon.FlushXroute | babeld/xroute.c:87-112 | swap-removal withdraws one export and keeps all invariants |
| Exports.SwapRemoves | babeld/xroute.c:87-112 | moving the last entry into the gap removes exactly one key and keeps keys unique |
| BabelFlush.FlushRemoves | babeld/route.c:174-222 | flush_route removes one route and no other, whatever it reinstalls or reorders |
| BabeldFlush.FlushMatching | babeld/route.c:243-281 | the walk that restarts after each flush ends, and leaves exactly the routes that do not match |
| BabeldFlush.FlushNeighbourRoutes | babeld/route.c:243-261 | exactly the routes through the neighbour are removed |
| BabeldFlush.FlushInterfaceRoutes | babeld/route.c:263-281 | exactly the routes through the interface are removed, or only those with an IPv4 next hop |
| BabeldFlush.FlushAllRoutes | babeld/route.c:224-241 | the walk ends with an empty table and every reference count at zero, no source being freed |
| BabelRetract.WithdrawIs | babeld/route.c:908-926 | exactly how retracting one route reorders its list: a reachable successor takes over from the installed head, or a retracted route becomes the installed head where none was |
| BabelRetract.WalkExactly | babeld/route.c:908-926 | after the walk all routes of a destination through the neighbour are retracted if and only if the retracted head was not replaced by another route through that neighbour; if it was, that one stays installed and finite and all others are retracted |
| BabelRetract.WalkOthers | babeld/route.c:908-926 | routes through other neighbours change at most in their selection, other destinations, sources and exports not at all |
| BabelRetract.WalkAgrees | babeld/route.c:908-926 | what the walk does to a destination depends on that destination, the sources and the exports only |
| BabelRetract.OverlookedRoute | babeld/route.c:908-926 | two updates from an empty table lead to one on which a wildcard retraction leaves the destination routed through the retracting neighbour |
| BabeldRetract.WithdrawRoute | babeld/route.c:916-921 | refines the body of the walk and keeps all invariants |
| BabeldRetract.WalkSlot | babeld/route.c:912-924 | the walk over one list, going on behind each route wherever it has moved, ends and computes the walk of the node model |
| BabeldRetract.RetractNeighbourRoutes | babeld/route.c:908-926 | the loop over all slots walks every destination exactly once and retracts every route through the neighbour except the overlooked ones |
| Smoothing.SmoothedRoute.Update | babeld/route.c:579-613 | the loops compute one of the results the randomised steps allow, and the closing assertion about the clock holds |
| Smoothing.Roughly | babeld/util.c:31-39 | the result lies in the band roughly() draws from, also for negative values |
| Smoothing.NeverOvershoots | babeld/route.c:579-613 | for every half-life and random choice the value stays between the old value and the metric, is the metric or at least 4 away from it, and the clock ends at now |
| SmoothingWrap.OverflowExactly | babeld/route.c:598-603 | some draw makes the 32-bit product overflow if and only if the half-life is 2 and the distance at least 63288 |
| SmoothingWrap.WrapsHarmlessly | babeld/route.c:598-603 | if it wraps around, the unsigned short that is stored is at most one off the mathematical result, and still between the old value and the metric |
| SmoothingWrap.NeverOvershootsWrapped | babeld/route.c:579-613 | so in machine integers, too, a call stays between the old value and the metric, ends on it or at least 4 away, and closes the distance as fast for every whole half-life |
| SmoothingWrap.RouteSmoothedMetric | babeld/route.c:579-613 | the loops on 16-bit and 32-bit values compute one of these results, with the clock at now |
| Smoothing.CalledTwice | babeld/route.c:579-613 | a second call in the same second changes nothing |
| Smoothing.ConvergesAfterHalfLives | babeld/route.c:579-613 | under a constant metric the value is the metric once 23 whole half-lives have passed inside its calls, however many calls these are and whatever is drawn |
| Smoothing.ConvergesInOneCall | babeld/route.c:590-596 | in particular after one call made 23 half-lives later |
| SmoothingStall.StuckExactly | babeld/route.c:598-603 | no random choice moves the value in a second if and only if the largest draw times the factor is below 65536 |
| SmoothingStall.StuckHalfLives | babeld/route.c:550-576 | some distance is stuck if and only if the half-life is at least 4; with the default of 4 these are the distances 4 and 5 |
| SmoothingStall.StuckForever | babeld/route.c:579-613 | a stuck value never moves in any run of calls closer together than a half-life |
| SmoothingStall.ConvergesExactly | babeld/route.c:550-613 | all runs with calls in different seconds converge within a bounded number of calls if and only if the half-life is at most 2 |
| TokenBucket.Interface.CheckBucket | babeld/message.c:855-875 | refines the bucket step: refill at zero, reset of the time, one token per packet |
| TokenBucket.SentBound | babeld/message.c:855-875 | for any clock: the packets let through are bounded by what the level is worth plus 40 for every second the clock moved forward |
| TokenBucket.RateLimit | babeld/message.c:913-928 | with a monotone clock at most 200 + 40 T packets are let through by T seconds after the bucket was filled |
| TokenBucket.RateReached | babeld/message.c:1152-1168 | some monotone run lets exactly that many through |
| TokenBucket.GainBound | babeld/message.c:855-875 | for any clock readings and any number of packets offered at each: no more is let through than the level is worth plus the forward moves between readings, each counted for at most 200 tokens |
| TokenBucket.ExceedsExactly | babeld/message.c:859-867 | for any clock readings: packets can be offered so that more than 200 + 40 T are let through if and only if those capped forward moves are worth more than 40 T |
| TokenBucket.MonotoneNeverExceeds | babeld/kernel.c:197-202 | the monotone clock that gettime supplies never allows it |
| TokenBucket.SteppedClocks | babeld/message.c:865-866 | the hypothesis of a monotone clock is needed: of two clocks that are stepped back, one allows it and one does not |
| BabelWire.UpdateParses | babeld/message.c:597-713 | the Update branch of the parser rebuilds the item from an Update TLV whose prefix bytes, router-id or next hop were left out |
| BabelWire.RebuildV6 | babeld/message.c:63-126 | network_prefix rebuilds an IPv6 prefix from the bytes that were sent and the remembered prefix |
| BabelWire.RebuildV4 | babeld/message.c:63-126 | network_prefix rebuilds an IPv4 prefix |
| Bytes.ShortIsNotMapped | babeld/util.c:190-204 | a masked prefix shorter than 96 bits is never IPv4-mapped, so the parser never refuses the remembered prefix |
| BabelRoundTrip.ItemParses | babeld/message.c:1182-1274 | one update, wildcard retraction or other TLV: the receiver gets its meaning and again knows whatever the sender counts on |
| BabelRoundTrip.WildcardParses | babeld/message.c:1552-1562 | a wildcard retraction is read as one, and overwrites the receiver's router-id |
| BabelRoundTrip.RoundTrip | babeld/message.c:565-713 | any sequence of items in one packet body is well formed and parsed back as exactly their router-ids, prefixes, lengths, seqnos, metrics, intervals, next hops and channels |
| BabelParser.Examin | babeld/message.c:355-395 | the check accepts exactly the packets with a Babel header and a body that is cut into TLVs of sufficient length |
| BabelParser.ParsePacket | babeld/message.c:397-713 | the loop with running state computes the events of the body, and nothing for a foreign or malformed packet |
| BabelParser.PacketDelivers | babeld/message.c:913-928 | the packet around such a body is accepted and read back exactly |
| SendBuffer.AnnounceBytes | babeld/message.c:1205-1268 | one update needs at most 8 + 12 + 38 bytes, less than ensure_space asks for |
| SendBuffer.CountCommon | babeld/message.c:1228-1231 | the loop counts the leading bytes shared with the remembered prefix |
| SendBuffer.Interface.Accumulate | babeld/message.c:998-1023 | bytes are appended within the buffer |
| SendBuffer.Interface.EnsureSpace | babeld/message.c:972-978 | there is room afterwards and nothing sent is lost |
| SendBuffer.Interface.StartMessage | babeld/message.c:980-987 | a header is written within the buffer, after a flush only if there was no room |
| SendBuffer.Interface.FlushBuf | babeld/message.c:900-938 | the recursion through flushupdates ends; the contents leave as one body of whole items, and the running state is forgotten |
| SendBuffer.Interface.FlushUpdates | babeld/message.c:1309-1427 | every queued update that is admitted is sent, in the order the tables and the queue give at that moment, although sending may flush the buffer |
| SendBuffer.Interface.ReallySendUpdate | babeld/message.c:1182-1274 | an update that passes link, filter and address tests is appended as one item, all its TLVs in one body |
| SendBuffer.Interface.WriteParts | babeld/message.c:1213-1273 | the parts written and the running state are those of the encoder, and no flush happens between them |
| SendBuffer.Interface.SendWildcardRetraction | babeld/message.c:1536-1563 | a retraction is appended and the router-id forgotten |
| SendBuffer.Interface.SendOther | babeld/message.c:980-996 | another TLV is appended whole |
| SendBuffer.Interface.BufferUpdate | babeld/message.c:1441-1475 | an update is queued, after a flush of the queue if it is full |
| SendBuffer.Interface.SetPlan | babeld/message.c:1365-1366 | the tables may change between any two operations of the buffer |
| SendBuffer.Delivered | babeld/message.c:900-938 | every body that ever left the buffer makes a packet that is accepted and read as the items that went into it |
| SendBuffer.AllDelivered | babeld/message.c:1309-1427 | over a whole up-period a neighbour that gets every packet learns exactly what was sent, in order, however it was split into packets |
| UpdateQueue.CompareRanks | babeld/message.c:1276-1307 | compare_buffered_updates is a strict total order: it follows one number per criterion, answers zero only for equal entries, and is antisymmetric |
| UpdateQueue.Contiguous | babeld/message.c:1352-1352 | in a sorted queue equal entries stand together |
| UpdateQueue.OrderedReady | babeld/message.c:1352-1352 | sorting gives a permutation of the queue that the comparison accepts |
| UpdateQueue.SortedUniquely | babeld/message.c:1352-1352 | there is only one such permutation, so the result does not depend on how qsort works |
| UpdateQueue.SendQueue | babeld/message.c:1354-1420 | the loop sends an announcement or a retraction for the entries that the test against the previous announced destination lets through |
| UpdateQueue.SentTimes | babeld/message.c:1354-1420 | an announced destination is sent once, one held back by split horizon never, one without a route once per copy |
| UpdateQueue.SentTwiceExactly | babeld/message.c:1355-1363 | a destination is sent more than once if and only if it is queued more than once and has neither an export nor an installed route |
| UpdateQueue.RetractedTwice | babeld/message.c:1414-1419 | two copies of a destination without a route are both sent |
| UpdateFlush.OutIsAdvert | babeld/message.c:1365-1419 | the call of really_send_update for a destination carries what the node model advertises: its source, seqno and metric, or nothing |
| UpdateFlush.SentAsOften | babeld/message.c:1341-1420 | how often a queued destination is sent, from the tables and the number of its copies in the queue |
| UpdateFlush.SendsIndependent | babeld/message.c:1354-1420 | the sends of one flush change feasibility distances only and keep all invariants, so none changes what a later one advertises |
| UpdateFlush.NeighbourLearns | babeld/message.c:1309-1427 | from tables to neighbour: about every destination a flushed queue tells exactly the advertisement of the node model, with its router-id, seqno, metric, next hop and channels, as often as SentAsOften says, and nothing about any other destination |
| UpdateFlush.FlushTables | babeld/message.c:1309-1427 | flushing an interface with given tables adds exactly these items to what has been sent |
| UpdateFlush.FlushDelivers | babeld/message.c:900-938 | a neighbour that gets every packet has then learnt what was sent before and the news of this queue |
| UpdateFlush.ValueOfBytes | babeld/message.c:1182-1184 | an 8-byte router-id is read back as the number the tables hold |
| AsPath.NormalisedMeans | bgpd/bgp_aspath.c:234-293 | normalising keeps the meaning: ordered sequence hops, sets in their places, confederation segments |
| AsPath.NormalisedKeeps | bgpd/bgp_aspath.c:234-293 | normalising is idempotent and keeps hop count and ASNs, for every path |
| AsPath.CountMeans | bgpd/bgp_aspath.c:409-423 | the hop count is a property of the meaning |
| AsPath.NormalUnique | bgpd/bgp_aspath.c:227-233 | two paths in normal form with the same meaning are equal |
| AsPath.Canonical | bgpd/bgp_aspath.c:227-293 | two paths normalise to equal segment lists if and only if they mean the same, when each of their runs of AS_SEQUENCEs holds an ASN |
| AsPath.CanonicalExactly | bgpd/bgp_aspath.c:276-290 | a path has a canonical form if and only if that condition holds |
| AsPath.EmptySequenceStays | bgpd/bgp_aspath.c:276-290 | an empty AS_SEQUENCE is kept: two paths without a hop that normalise differently |
| AsPathEdit.WeedDupes | bgpd/bgp_aspath.c:255-268 | the in-place loop leaves the sorted ASNs without repetitions at the front of the array |
| AsPathEdit.Normalise | bgpd/bgp_aspath.c:234-293 | the loop that sorts sets and joins segments computes the normal form |
| AsPathWire.ParseWire | bgpd/bgp_aspath.c:751-845 | reading segments that were written gives them back, or fails if one is empty |
| AsPathWire.PutAllWire | bgpd/bgp_aspath.c:962-1036 | without neighbouring AS_SEQUENCEs aspath_put writes the cut segments one after the other |
| AsPathRoundTrip.WireRoundTrip | bgpd/bgp_aspath.c:933-1036 | 2-byte and 4-byte round trip, also with neighbouring AS_SEQUENCEs packed in pairs: overlength AS_SEQUENCEs are cut and joined again, large ASNs come back as AS_TRANS from the 2-byte form |
| AsPathRoundTrip.HeaderCountsExactly | bgpd/bgp_aspath.c:1005-1029 | the patched header counts the ASNs that follow it if and only if at most one segment was packed |
| AsPathRoundTrip.HeadersRightExactly | bgpd/bgp_aspath.c:982-1033 | all headers of a path count right if and only if none takes more than one further segment |
| AsPathRoundTrip.RoundTripExactly | bgpd/bgp_aspath.c:751-845 | a normalised path comes back from the 4-byte form if and only if no segment is empty and none but AS_SEQUENCEs exceeds 255 ASNs |
| AsPathRoundTrip.PackingLosesCount | bgpd/bgp_aspath.c:1005-1029 | three neighbouring AS_SEQUENCEs with four ASNs are written under a header that counts three, and the attribute is rejected |
| AsPathExport.DeleteConfedSeq | bgpd/bgp_aspath.c:2043-2081 | the walk that unlinks segments leaves exactly the segments that are not confederation segments |
| AsPathExport.ExportedMeans | bgpd/bgp_attr.c:5241-5289 | the path sent to an eBGP peer has the own ASNs, then the hops of the received path in order except for confederation segments |
| AsPathExport.ExportedHeadersExactly | bgpd/bgp_aspath.c:2043-2081 | the exported path is written with right headers if and only if a walk over the received path, confederation segments not separating AS_SEQUENCEs, meets no header that takes two further segments |
| AsPathExport.ShortExportedExactly | bgpd/bgp_aspath.c:2043-2081 | for paths of at most 255 ASNs, confederations not counted: if and only if the received path has no three AS_SEQUENCEs with only confederation segments in between |
| AsPathExport.ExportedRoundTrip | bgpd/bgp_attr.c:5301-5314 | under that condition the peer reads the exported path, in either width |
| AsPathReadBack.ExportedReadExactly | bgpd/bgp_aspath.c:1005-1029 | when only AS_SEQUENCEs with at most 255 ASNs remain, the peer reads the exported path, in either width, if and only if no three of them stood with only confederation segments in between |
| AsPathExport.ExportRejected | bgpd/bgp_attr.c:5250-5255 | a normalised path that starts with a confederation segment, as a confederation peer sends it, and whose exported form the eBGP peer rejects |
| AsPathStream.AssegmentsParse | bgpd/bgp_aspath.c:751-845 | the loop over the stream computes the parse, with all its error cases |
| AsPathStream.PutPacked | bgpd/bgp_aspath.c:994-1029 | the packing loop appends data and patches the header count as the source does |
| AsPathStream.AspathPut | bgpd/bgp_aspath.c:962-1036 | the loops write the wire form, packing included, and the returned byte count is exact |
| AsPathReconcile.AspathReconcileAs4 | bgpd/bgp_aspath.c:1910-2011 | the loop over AS_PATH computes the reconciled path |
| AsPathReconcile.ReconcileCount | bgpd/bgp_aspath.c:1910-2011 | for a confederation-free AS_PATH, and no more hops in AS4_PATH, the result has exactly AS_PATH's hop count |
| AsPathReconcile.ReconcileCountExactly | bgpd/bgp_aspath.c:1921-1997 | for all paths, AS_PATH without empty segments: the result has AS_PATH's hop count if and only if AS4_PATH has no more hops than stand behind AS_PATH's last confederation segment |
| AsPathReconcile.ReconcileRecovers | bgpd/bgp_aspath.c:1910-2011 | reconciling the AS_TRANS-mapped form of Q followed by P with AS4_PATH P gives the normal form of Q followed by P |
| AsPathReconcile.ReconcileAsns | bgpd/bgp_aspath.c:1924-1937 | AS4_PATH's ASNs are always kept, and those of a confederation-free AS_PATH as well when AS4_PATH claims more hops |
| AsPathReconcile.TakenWholeExactly | bgpd/bgp_aspath.c:1953-1997 | a path without empty segments is copied whole for its own hop count if and only if it has no confederation segment |
| AsPathReconcile.WholeKeptExactly | bgpd/bgp_aspath.c:1924-1937 | when AS4_PATH claims more hops than AS_PATH has, confederation hops included, all hops of AS_PATH come before those of AS4_PATH if and only if AS_PATH has no confederation segment |
| AsPathReconcile.AsnsKeptExactly | bgpd/bgp_aspath.c:1924-1937 | an AS_PATH that names no AS twice keeps its ASNs with every such AS4_PATH if and only if it has no confederation segment |
| AsPathReconcile.LostBehindConfed | bgpd/bgp_aspath.c:1962-1982 | an AS_PATH whose confederation segment uses up the hops, so that the ASN behind it is lost |
| AsPathReconcile.OthersWhole | bgpd/bgp_aspath.c:1957-1975 | only AS_SEQUENCEs are ever cut |
| AsPathAggregate.AggregateAsns | bgpd/bgp_aspath.c:1062-1148 | the ASNs of the aggregate are exactly those of both paths, those in confederation segments apart from the others |
| AsPathAggregate.AggregateUnion | bgpd/bgp_aspath.c:1062-1148 | loop detection sees the union of both paths' ASNs |
| AsPathAggregate.AggregateSelf | bgpd/bgp_aspath.c:1062-1148 | aggregating a normalised path with itself changes nothing |
| AsPathOrder.AggregateOrder | bgpd/bgp_aspath.c:1073-1109 | order is never invented: up to its last AS in sequence the aggregate agrees hop by hop with the start of both paths |
| AsPathOrder.AggregateOrderExactly | bgpd/bgp_aspath.c:1062-1148 | for normalised paths the ordered part of the aggregate is exactly the longest common start of both, up to its last single AS |
| AsPathAggregator.AspathAggregate | bgpd/bgp_aspath.c:1062-1148 | the comparison loop and the loops that fill the sets compute the aggregate |
| AsPathAggregator.BgpAggregate.Recompute | bgpd/bgp_aspath.c:2452-2468 | whatever the order of the table, the aggregate holds the ASNs of all its paths, and exists if and only if the table is not empty |
| AsPathAggregator.BgpAggregate.Add | bgpd/bgp_aspath.c:2415-2450 | adding raises one reference count and leaves the aggregate up to date |
| AsPathAggregator.BgpAggregate.Remove | bgpd/bgp_aspath.c:2470-2501 | removing lowers one reference count, ignores unknown paths, and leaves the aggregate up to date |
| AsPathAggregator.BgpAggregate.RemoveFromHash | bgpd/bgp_aspath.c:2503-2527 | the variant that only lowers the count |
| AsPathAggregator.AggregateOfRun | bgpd/bgp_aspath.c:2393-2527 | after any run of additions and removals, recomputing in any order gives exactly the ASNs of the paths with a non-zero count |
| BfdNetwork.Handshake | bfdd/bfd.c:1178-1347 | in every run of two sessions, configuration changes included, a session in Init or Up holds its peer's non-zero discriminator, and a session is Up only if the peer has processed one of its packets |
| BfdNetwork.ClientsView | bfdd/bfd.c:576-664 | in every run the state last told to clients is Up if and only if the session is Up, across packets, timers, disabling and shutdown |
| BfdNetwork.RecvOk | bfdd/bfd_packet.c:952-1113 | receiving any packet of the peer keeps the invariant of the session and of what it sends, Poll and Final never together |
| BfdNetwork.ShutdownOk | bfdd/bfd.c:1550-1621 | so does toggling shutdown |
| BfdNetwork.PassiveSilence | bfdd/bfd_packet.c:416-421 | two passive sessions that stay passive never send anything in any run |
| BfdRuns.ComesUpExactly | bfdd/bfd.c:1178-1347 | the protocol alone can bring a pair of sessions up if and only if one of them is active |
| BfdRuns.Completes | bfdd/bfd.c:1178-1347 | a run that brings both sides up from one active session |
| BfdRuns.ShutBreaksExactly | bfdd/bfd.c:427-448 | one event ends "a session that is shut down is in AdmDown" if and only if it disables a session that is shut down |
| BfdRuns.ShutHoldsInRun | bfdd/bfd.c:1550-1621 | in every run without that event a session that is shut down stays in AdmDown |
| BfdRuns.ShutSessionComesUp | bfdd/bfd.c:427-448 | a run in which a session that is shut down loses and regains its interface and then comes up, told to clients as Up, with no detection timer |
| Bfd.BfdSession.Send | bfdd/bfd_packet.c:416-472 | refines ptm_bfd_snd: nothing without a discriminator in passive mode |
| Bfd.BfdSession.GoUp | bfdd/bfd.c:576-602 | refines ptm_bfd_sess_up |
| Bfd.BfdSession.GoDown | bfdd/bfd.c:604-664 | refines ptm_bfd_sess_dn: clients hear of it only if the session was Up |
| Bfd.BfdSession.HandleState | bfdd/bfd.c:1178-1347 | refines the state handlers of section 6.2 of RFC 5880 |
| Bfd.BfdSession.Receive | bfdd/bfd_packet.c:952-1113 | refines the control-packet part of bfd_recv_cb |
| Bfd.BfdSession.DetectTimerExpires | bfdd/bfd.c:830-841 | refines bfd_recvtimer_cb |
| Bfd.BfdSession.SetShutdownTo | bfdd/bfd.c:1550-1621 | refines bfd_set_shutdown on the software path |
| Bfd.BfdSession.DisableSession | bfdd/bfd.c:427-448 | refines bfd_session_disable |

## Left out

- Sockets, zebra and kernel messages, configuration, JSON and logging: kernel
  route changes succeed, sends append to a log.
- Allocation failure, growth and shrinking of the C arrays.
- Babel resend deadlines, hello history, IHU and RTT handling, request TLVs:
  the parser passes over their TLVs, and a timestamp written into a buffered
  hello does not change what updates mean.
- expire_routes, update_neighbour_metric and update_interface_metric: walks over a
  list that their own calls may reorder, like the one that is modelled; the
  operations they call on each route are modelled.
- Babeld.Daemon.RetainSource: does not model the assertion that fewer than 65535
  routes point to one source; the counter is unbounded.
- Babeld.Daemon.FlushXroute: takes the key, where the source takes a pointer into
  the array.
- Smoothing.NeverOvershoots: is over mathematical integers;
  SmoothingWrap.NeverOvershootsWrapped is the same in machine integers, an
  overflowing int taken as wrapping around.
- TokenBucket.RateLimit: is over mathematical integers; the source multiplies
  seconds by 40 in an int.
- flushupdates answers pending requests on its way (satisfy_request); the record
  of requests is not modelled.
- SendBuffer.Interface.ReallySendUpdate: the update interval fits in 16 bits.
- SendBuffer.Interface.FlushBuf: whether the token bucket lets a body go is an
  arbitrary choice, recorded in the log.
- The unicast buffer and the state left behind by interface_reset: one up-period
  of the multicast buffer is modelled.
- Bytes.ShortIsNotMapped: prefixes with bits set beyond their length are not
  considered; the tables never hold one.
- AsPathStream.AspathPut: the stream has room; a partial write is not modelled.
- AsPathReconcile.ReconcileCount: is for an AS_PATH without confederation segments;
  AsPathReconcile.ReconcileCountExactly is for all.
- AsPathOrder.AggregateOrder: assumes that segments other than AS_SEQUENCEs are not
  empty; the parser lets no empty segment in.
- AsPathExport.ExportedMeans: the own ASNs are any list; which ones are put in front
  for a confederation or a changed local AS is configuration.
- AS segment lengths are unbounded where the source has 16 bits.
- AS path hashing, interning, regular expressions and text forms; the asnotation
  tag, which takes part in comparing paths.
- BFD timer values and Poll negotiation of intervals, echo, S-BFD, authentication,
  the data plane and session lookup across VRFs. Packets come from the peer; a
  timer may fire whenever it may be armed.

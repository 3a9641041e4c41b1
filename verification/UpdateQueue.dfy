/** The queue of flushupdates (babeld/message.c): it is sorted so that updates
    with one router-id go together, and a repeated destination is recognised by
    looking at the previous one that was announced. */
module UpdateQueue {
  import opened Bytes
  import opened SortedSlots
  import opened BabelWire

  /** struct buffered_update with its router-id looked up */
  datatype Entry = Entry(id: seq<Byte>, prefix: Address, plen: nat)

  predicate EntryOk(e: Entry) { |e.id| == 8 && e.plen <= 128 }

  predicate V4(e: Entry) { IsV4(e.prefix, e.plen) }

  /** The prefix carries the router-id. */
  predicate Carrying(e: Entry)
    requires EntryOk(e)
  {
    !V4(e) && e.plen == 128 && e.prefix[8..] == e.id
  }

  /** compare_buffered_updates */
  function Compare(a: Entry, b: Entry): int
    requires EntryOk(a) && EntryOk(b)
  {
    var rc := Memcmp(a.id, b.id);
    if rc != 0 then rc
    else if V4(a) && !V4(b) then 1
    else if !V4(a) && V4(b) then -1
    else if Carrying(a) && !Carrying(b) then -1
    else if !Carrying(a) && Carrying(b) then 1
    else if a.plen < b.plen then 1
    else if a.plen > b.plen then -1
    else Memcmp(a.prefix, b.prefix)
  }

  /** The same order as one number per criterion. */
  datatype Rank = Rank(id: nat, v4: nat, carrying: nat, plen: nat, prefix: nat)

  function RankOf(e: Entry): Rank
    requires EntryOk(e)
  {
    Rank(Value(e.id), if V4(e) then 1 else 0, if Carrying(e) then 0 else 1, 128 - e.plen, Value(e.prefix))
  }

  predicate Before(a: Rank, b: Rank) {
    || a.id < b.id
    || (a.id == b.id && a.v4 < b.v4)
    || (a.id == b.id && a.v4 == b.v4 && a.carrying < b.carrying)
    || (a.id == b.id && a.v4 == b.v4 && a.carrying == b.carrying && a.plen < b.plen)
    || (a.id == b.id && a.v4 == b.v4 && a.carrying == b.carrying && a.plen == b.plen && a.prefix < b.prefix)
  }

  /** The comparison is a strict total order on entries: zero only for equal
      ones, and transitive because the ranks are. */
  lemma CompareRanks(a: Entry, b: Entry)
    requires EntryOk(a) && EntryOk(b)
    ensures Compare(a, b) < 0 <==> Before(RankOf(a), RankOf(b))
    ensures Compare(a, b) == 0 <==> a == b
    ensures Compare(a, b) > 0 <==> Compare(b, a) < 0
  {
    MemcmpOrder(a.id, b.id);
    MemcmpOrder(b.id, a.id);
    MemcmpOrder(a.prefix, b.prefix);
    MemcmpOrder(b.prefix, a.prefix);
    hide Memcmp, Value, IsV4;
  }

  predicate Ready(s: seq<Entry>) {
    && (forall i :: 0 <= i < |s| ==> EntryOk(s[i]))
    && (forall i, j :: 0 <= i < j < |s| ==> Compare(s[i], s[j]) <= 0)
  }

  /** Equal entries stand together. */
  lemma Contiguous(s: seq<Entry>, i: nat, k: nat, j: nat)
    requires Ready(s) && i <= k <= j < |s| && s[i] == s[j]
    ensures s[k] == s[i]
  {
    CompareRanks(s[i], s[k]);
    CompareRanks(s[k], s[j]);
    CompareRanks(s[k], s[i]);
    if i < k < j {
      assert Compare(s[i], s[k]) <= 0 && Compare(s[k], s[j]) <= 0;
    }
  }

  // ---- Sorting ----

  predicate EntriesOk(s: seq<Entry>) { forall i :: 0 <= i < |s| ==> EntryOk(s[i]) }

  function Insert(e: Entry, s: seq<Entry>): (r: seq<Entry>)
    requires EntryOk(e) && EntriesOk(s)
    ensures EntriesOk(r)
  {
    if s == [] || Compare(e, s[0]) <= 0 then [e] + s else [s[0]] + Insert(e, s[1..])
  }

  /** What qsort makes of the queue. */
  function Ordered(s: seq<Entry>): (r: seq<Entry>)
    requires EntriesOk(s)
    ensures EntriesOk(r)
  {
    if s == [] then [] else Insert(s[0], Ordered(s[1..]))
  }

  lemma CompareTransitive(a: Entry, b: Entry, c: Entry)
    requires EntryOk(a) && EntryOk(b) && EntryOk(c) && Compare(a, b) <= 0 && Compare(b, c) <= 0
    ensures Compare(a, c) <= 0
  {
    CompareRanks(a, b);
    CompareRanks(b, c);
    CompareRanks(a, c);
    hide Compare, RankOf;
  }

  lemma ReadyCons(e: Entry, s: seq<Entry>)
    requires EntryOk(e) && Ready(s) && (s != [] ==> Compare(e, s[0]) <= 0)
    ensures Ready([e] + s)
  {
    hide Compare, EntryOk;
    forall j | 0 <= j < |s| ensures Compare(e, s[j]) <= 0 {
      if j > 0 { CompareTransitive(e, s[0], s[j]); }
    }
  }

  lemma ReadyFrom(s: seq<Entry>)
    requires Ready(s) && s != []
    ensures Ready(s[1..])
  {
    hide Compare, EntryOk;
  }

  lemma {:induction false} InsertReady(e: Entry, s: seq<Entry>)
    requires EntryOk(e) && Ready(s)
    ensures Ready(Insert(e, s)) && multiset(Insert(e, s)) == multiset{e} + multiset(s)
    ensures Insert(e, s)[0] == e || (s != [] && Insert(e, s)[0] == s[0])
  {
    if s == [] || Compare(e, s[0]) <= 0 {
      hide Compare, EntryOk;
      ReadyCons(e, s);
    } else {
      CompareRanks(e, s[0]);
      ReadyFrom(s);
      hide EntryOk, Compare;
      InsertReady(e, s[1..]);
      assert s[1..] != [] ==> s[1..][0] == s[1] && Compare(s[0], s[1]) <= 0;
      ReadyCons(s[0], Insert(e, s[1..]));
      assert s == [s[0]] + s[1..];
    }
  }

  lemma {:induction false} OrderedReady(s: seq<Entry>)
    requires EntriesOk(s)
    ensures Ready(Ordered(s)) && multiset(Ordered(s)) == multiset(s)
  {
    if s != [] {
      OrderedReady(s[1..]);
      InsertReady(s[0], Ordered(s[1..]));
      assert s == [s[0]] + s[1..];
    }
  }

  /** A queue has one sorted order: whatever qsort does, this is the result. */
  lemma {:induction false} SortedUniquely(s: seq<Entry>, t: seq<Entry>)
    requires Ready(s) && Ready(t) && multiset(s) == multiset(t)
    ensures s == t
    decreases |s|
  {
    SameLength(s, t);
    if s != [] {
      hide Compare, EntryOk;
      SameHead(s, t);
      ReadyFrom(s);
      ReadyFrom(t);
      hide Ready;
      SameRest(s, t);
      SortedUniquely(s[1..], t[1..]);
      assert s == [s[0]] + s[1..] && t == [t[0]] + t[1..];
    }
  }

  lemma SameLength(s: seq<Entry>, t: seq<Entry>)
    requires multiset(s) == multiset(t)
    ensures |s| == |t|
  {
    assert |s| == |multiset(s)| && |t| == |multiset(t)|;
  }

  lemma SameRest(s: seq<Entry>, t: seq<Entry>)
    requires s != [] && t != [] && s[0] == t[0] && multiset(s) == multiset(t)
    ensures multiset(s[1..]) == multiset(t[1..])
  {
    assert s == [s[0]] + s[1..] && t == [t[0]] + t[1..];
    assert multiset(s[1..]) == multiset(s) - multiset{s[0]};
    assert multiset(t[1..]) == multiset(t) - multiset{t[0]};
  }

  lemma SameHead(s: seq<Entry>, t: seq<Entry>)
    requires Ready(s) && Ready(t) && s != [] && t != [] && multiset(s) == multiset(t)
    ensures s[0] == t[0]
  {
    hide Compare, EntryOk;
    assert s[0] in multiset(s) && t[0] in multiset(t);
    HeadFirst(s, t[0]);
    HeadFirst(t, s[0]);
    CompareRanks(s[0], t[0]);
    CompareRanks(t[0], s[0]);
  }

  lemma HeadFirst(s: seq<Entry>, e: Entry)
    requires Ready(s) && s != [] && e in multiset(s)
    ensures EntryOk(e) && Compare(s[0], e) <= 0
  {
    hide Compare, EntryOk;
    var j :| 0 <= j < |s| && s[j] == e;
    if j == 0 { CompareRanks(e, e); }
  }

  // ---- The sending loop ----

  /** What the loop finds for a destination: an export or installed route to
      announce, a route that split horizon holds back, or nothing. */
  datatype Fate = Announced | Held | Missing

  /** The entries for which something is sent. Only an announced destination
      becomes the previous one; a missing one is retracted. */
  function Sent(s: seq<Entry>, fate: Entry -> Fate, last: seq<Entry>): (r: seq<Entry>)
    decreases |s|
  {
    if s == [] then []
    else if last != [] && Same(s[0], last[0]) then Sent(s[1..], fate, last)
    else match fate(s[0])
      case Announced => [s[0]] + Sent(s[1..], fate, [s[0]])
      case Held => Sent(s[1..], fate, last)
      case Missing => [s[0]] + Sent(s[1..], fate, last)
  }

  /** The test against the previous destination. */
  predicate Same(a: Entry, b: Entry) { a.plen == b.plen && a.prefix == b.prefix }

  method SendQueue(s: seq<Entry>, fate: Entry -> Fate) returns (r: seq<Entry>)
    ensures r == Sent(s, fate, [])
  {
    r := [];
    var last: seq<Entry> := [];
    var i := 0;
    assert s[0..] == s;
    while i < |s|
      invariant 0 <= i <= |s| && Sent(s, fate, []) == r + Sent(s[i..], fate, last)
    {
      assert s[i..][0] == s[i] && s[i..][1..] == s[i + 1..];
      ghost var r0, last0 := r, last;
      if !(last != [] && Same(s[i], last[0])) {
        match fate(s[i]) {
          case Announced =>
            r := r + [s[i]];
            last := [s[i]];
          case Held =>
          case Missing =>
            r := r + [s[i]];
        }
      }
      ghost var more := Sent(s[i + 1..], fate, last);
      assert r0 + ([s[i]] + more) == r0 + [s[i]] + more;
      i := i + 1;
    }
    assert s[i..] == [] && r + [] == r;
  }

  /** The router-id is looked up by destination. */
  predicate OneId(s: seq<Entry>) {
    forall i, j :: 0 <= i < |s| && 0 <= j < |s| && Same(s[i], s[j]) ==> s[i] == s[j]
  }

  lemma ReadyTail(s: seq<Entry>)
    requires Ready(s) && OneId(s) && s != []
    ensures Ready(s[1..]) && OneId(s[1..])
  {
    hide Compare, EntryOk;
    var t := s[1..];
    forall i, j | 0 <= i < |t| && 0 <= j < |t| && Same(t[i], t[j]) ensures t[i] == t[j] {
      assert t[i] == s[i + 1] && t[j] == s[j + 1];
    }
  }

  function Copies(s: seq<Entry>, e: Entry): (n: nat) {
    if s == [] then 0 else (if s[0] == e then 1 else 0) + Copies(s[1..], e)
  }

  lemma {:induction false} CopiesCount(s: seq<Entry>, e: Entry)
    ensures Copies(s, e) == multiset(s)[e]
  {
    if s != [] {
      CopiesCount(s[1..], e);
      assert s == [s[0]] + s[1..];
    }
  }

  /** How often the loop sends an entry of which m copies are left. */
  function Times(fate: Fate, m: nat, announced: bool): (n: nat) {
    match fate
    case Announced => if m == 0 || announced then 0 else 1
    case Held => 0
    case Missing => m
  }

  /** In a sorted queue an announced destination does not come up again after
      another one, so it is announced once; a destination without a route is
      retracted once per copy. */
  lemma {:induction false} SentTimes(s: seq<Entry>, fate: Entry -> Fate, last: seq<Entry>, e: Entry)
    requires Ready(last + s) && OneId(last + s) && |last| <= 1 && (last != [] ==> fate(last[0]).Announced?)
    ensures Copies(Sent(s, fate, last), e) == Times(fate(e), Copies(s, e), e in last)
    decreases |s|
  {
    if s != [] {
      var rest := s[1..];
      hide Ready, OneId, EntryOk;
      if last != [] && Same(s[0], last[0]) {
        SameIsEqual(last, s);
        DropSecond(last, s);
        SentTimes(rest, fate, last, e);
      } else if fate(s[0]).Announced? {
        AfterLast(last, s);
        SentTimes(rest, fate, [s[0]], e);
        NotBefore(last, s, e);
        CopiesIn(s, e);
        assert Sent(s, fate, last)[1..] == Sent(rest, fate, [s[0]]);
      } else {
        DropSecond(last, s);
        SentTimes(rest, fate, last, e);
        NotAnnounced(last, s[0], fate);
        assert fate(s[0]).Missing? ==> Sent(s, fate, last)[1..] == Sent(rest, fate, last);
      }
    }
  }

  lemma CopiesIn(s: seq<Entry>, e: Entry)
    ensures Copies(s, e) > 0 <==> e in s
  {
    CopiesCount(s, e);
    assert e in s <==> e in multiset(s);
  }

  lemma NotAnnounced(last: seq<Entry>, e: Entry, fate: Entry -> Fate)
    requires |last| <= 1 && (last != [] ==> fate(last[0]).Announced?) && !fate(e).Announced?
    ensures e !in last
  {
  }

  lemma AfterLast(last: seq<Entry>, s: seq<Entry>)
    requires Ready(last + s) && OneId(last + s) && |last| <= 1 && s != []
    ensures Ready([s[0]] + s[1..]) && OneId([s[0]] + s[1..])
  {
    assert (last + s)[|last|..] == s == [s[0]] + s[1..];
    ReadyDrop(last + s, |last|);
  }

  /** The test against the previous update is not always enough: a destination
      is sent more than once exactly when it is queued more than once and has
      neither an export nor an installed route. */
  lemma SentTwiceExactly(s: seq<Entry>, fate: Entry -> Fate, e: Entry)
    requires Ready(s) && OneId(s)
    ensures multiset(Sent(s, fate, []))[e] > 1 <==> multiset(s)[e] > 1 && fate(e).Missing?
    ensures e in Sent(s, fate, []) <==> e in s && !fate(e).Held?
  {
    assert [] + s == s;
    SentTimes(s, fate, [], e);
    CopiesCount(s, e);
    CopiesCount(Sent(s, fate, []), e);
    CopiesIn(s, e);
    CopiesIn(Sent(s, fate, []), e);
  }

  /** Two copies of a destination without a route: it is retracted twice. */
  lemma RetractedTwice(e: Entry, fate: Entry -> Fate)
    requires EntryOk(e) && fate(e).Missing?
    ensures Ready([e, e]) && OneId([e, e]) && Sent([e, e], fate, []) == [e, e]
  {
    CompareRanks(e, e);
    hide Compare, EntryOk;
    assert [e, e][1..] == [e] && [e][1..] == [] && Sent([], fate, []) == [];
    assert Sent([e], fate, []) == [e] + [];
  }

  lemma SameIsEqual(last: seq<Entry>, s: seq<Entry>)
    requires OneId(last + s) && |last| == 1 && s != [] && Same(s[0], last[0])
    ensures s[0] == last[0]
  {
    var all := last + s;
    assert all[0] == last[0] && all[1] == s[0];
  }

  lemma ReadyDrop(s: seq<Entry>, n: nat)
    requires Ready(s) && OneId(s) && n <= 1 && n <= |s|
    ensures Ready(s[n..]) && OneId(s[n..])
  {
    if n == 1 { ReadyTail(s); } else { assert s[0..] == s; }
  }

  /** Once the queue has left a destination, it does not return to it. */
  lemma NotBefore(last: seq<Entry>, s: seq<Entry>, e: Entry)
    requires Ready(last + s) && |last| <= 1 && s != [] && (last != [] ==> s[0] != last[0])
    ensures e in last ==> e !in s
  {
    if last != [] && e in last && e in s {
      var all := last + s;
      var j :| 0 <= j < |s| && s[j] == e;
      assert all[0] == e && all[1] == s[0] && all[j + 1] == e;
      Contiguous(all, 0, 1, j + 1);
    }
  }

  lemma DropSecond(last: seq<Entry>, s: seq<Entry>)
    requires Ready(last + s) && OneId(last + s) && |last| <= 1 && s != []
    ensures Ready(last + s[1..]) && OneId(last + s[1..])
  {
    hide Compare, EntryOk, Same;
    var all, t := last + s, last + s[1..];
    forall i | 0 <= i < |t| ensures t[i] == all[if i < |last| then i else i + 1] { }
  }
}

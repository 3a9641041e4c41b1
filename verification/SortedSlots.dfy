/** The concrete route table of babeld: an array of slots kept sorted by
    destination. Storing a slot by position refines storing it in a map. */
module SortedSlots {
  import opened BabelTypes
  import opened Bytes

  // ---- The order on destinations ----

  predicate Less(a: Key, b: Key) {
    a.prefix < b.prefix || (a.prefix == b.prefix && a.plen < b.plen)
  }

  /** memcmp: the sign of the first difference. */
  function Memcmp(a: seq<Byte>, b: seq<Byte>): int
    requires |a| == |b|
  {
    if a == [] then 0 else if a[0] != b[0] then a[0] - b[0] else Memcmp(a[1..], b[1..])
  }

  function Pow256(n: nat): nat { if n == 0 then 1 else 256 * Pow256(n - 1) }

  function Value(a: seq<Byte>): (v: nat)
    ensures v < Pow256(|a|)
  {
    if a == [] then 0 else
    ValueStep(a[0], Pow256(|a| - 1), Value(a[1..]));
    a[0] * Pow256(|a| - 1) + Value(a[1..])
  }

  lemma ValueStep(b: Byte, w: nat, v: nat)
    requires v < w
    ensures b * w + v < 256 * w
  {
    assert b * w <= 255 * w;
  }

  /** Reading addresses as big-endian numbers keeps memcmp's order. */
  lemma {:induction false} MemcmpOrder(a: seq<Byte>, b: seq<Byte>)
    requires |a| == |b|
    ensures Memcmp(a, b) < 0 <==> Value(a) < Value(b)
    ensures Memcmp(a, b) == 0 <==> Value(a) == Value(b)
    ensures Memcmp(a, b) == 0 <==> a == b
  {
    if a != [] {
      var w := Pow256(|a| - 1);
      MemcmpOrder(a[1..], b[1..]);
      if a[0] < b[0] { Dominates(a[0], b[0], w, Value(a[1..]), Value(b[1..])); }
      if b[0] < a[0] { Dominates(b[0], a[0], w, Value(b[1..]), Value(a[1..])); }
      if a[0] == b[0] && a[1..] == b[1..] { assert a == [a[0]] + a[1..] && b == [b[0]] + b[1..]; }
    }
  }

  lemma Dominates(x: Byte, y: Byte, w: nat, u: nat, v: nat)
    requires x < y && u < w
    ensures x * w + u < y * w + v
  {
    assert y * w >= (x + 1) * w;
  }

  // ---- Slots ----

  function SlotKey(s: seq<Route>): Key {
    if s == [] then Key(0, 0) else s[0].src.key
  }

  lemma WithoutKey(k: Key, s: seq<Route>, j: nat)
    requires SlotOk(k, s) && j < |s|
    ensures Without(s, j) != [] ==> SlotKey(Without(s, j)) == k
  {
  }

  /** Slots are non-empty and strictly sorted. */
  predicate Sorted(slots: seq<seq<Route>>) {
    && (forall i :: 0 <= i < |slots| ==> slots[i] != [])
    && (forall i, j :: 0 <= i < j < |slots| ==> Less(SlotKey(slots[i]), SlotKey(slots[j])))
  }

  /** The exhaustive search: the first slot for a destination, or the length. */
  function Find(slots: seq<seq<Route>>, k: Key): (i: nat)
    ensures i <= |slots|
    ensures i < |slots| ==> SlotKey(slots[i]) == k
    ensures forall j :: 0 <= j < i ==> SlotKey(slots[j]) != k
  {
    if slots == [] || SlotKey(slots[0]) == k then 0 else 1 + Find(slots[1..], k)
  }

  /** The number of slots before the place of a destination. */
  function Place(slots: seq<seq<Route>>, k: Key): (i: nat)
    ensures i <= |slots|
    ensures forall j :: 0 <= j < i ==> Less(SlotKey(slots[j]), k)
    ensures i < |slots| ==> !Less(SlotKey(slots[i]), k)
  {
    if slots == [] || !Less(SlotKey(slots[0]), k) then 0 else 1 + Place(slots[1..], k)
  }

  function TableOf(slots: seq<seq<Route>>): (t: Table) {
    map k | k in (set i | 0 <= i < |slots| :: SlotKey(slots[i])) :: if Find(slots, k) < |slots| then slots[Find(slots, k)] else []
  }

  lemma TableContents(slots: seq<seq<Route>>, k: Key)
    requires Sorted(slots)
    ensures k in TableOf(slots) <==> Find(slots, k) < |slots|
    ensures k in TableOf(slots) ==> TableOf(slots)[k] == slots[Find(slots, k)]
    ensures forall i :: 0 <= i < |slots| && SlotKey(slots[i]) == k ==> Find(slots, k) == i
  {
    var i := Find(slots, k);
    if i < |slots| { assert SlotKey(slots[i]) == k; }
  }

  /** Where the destination is, or would go. */
  lemma FindIsPlace(slots: seq<seq<Route>>, k: Key)
    requires Sorted(slots)
    ensures Find(slots, k) < |slots| ==> Find(slots, k) == Place(slots, k)
    ensures Find(slots, k) == |slots| ==>
              forall j :: Place(slots, k) <= j < |slots| ==> Less(k, SlotKey(slots[j]))
  {
    var p := Place(slots, k);
    var i := Find(slots, k);
    if i == |slots| && p < |slots| {
      assert SlotKey(slots[p]) != k && !Less(SlotKey(slots[p]), k);
      assert Less(k, SlotKey(slots[p]));
      forall j | p <= j < |slots| ensures Less(k, SlotKey(slots[j])) {
        if p < j { assert Less(SlotKey(slots[p]), SlotKey(slots[j])); }
      }
    }
  }

  /** The place of a missing destination is where the order turns. */
  lemma Gap(slots: seq<seq<Route>>, k: Key, p: nat)
    requires p <= |slots|
    requires forall j :: 0 <= j < p ==> Less(SlotKey(slots[j]), k)
    requires forall j :: p <= j < |slots| ==> Less(k, SlotKey(slots[j]))
    ensures Find(slots, k) == |slots| && Place(slots, k) == p
  {
    assert p < |slots| ==> Less(k, SlotKey(slots[p]));
  }

  function Inserted(slots: seq<seq<Route>>, p: nat, s: seq<Route>): (r: seq<seq<Route>>)
    requires p <= |slots|
  {
    slots[..p] + [s] + slots[p..]
  }

  function Removed(slots: seq<seq<Route>>, i: nat): (r: seq<seq<Route>>)
    requires i < |slots|
  {
    slots[..i] + slots[i + 1..]
  }

  /** The array after a destination's list has become s: replaced in place,
      inserted with the rest shifted up, or removed with the rest shifted down. */
  function Store(slots: seq<seq<Route>>, k: Key, s: seq<Route>): (r: seq<seq<Route>>) {
    var i := Find(slots, k);
    if i < |slots| then
      if s == [] then Removed(slots, i) else slots[i := s]
    else if s == [] then slots else Inserted(slots, Place(slots, k), s)
  }

  lemma InsertedElements(slots: seq<seq<Route>>, p: nat, s: seq<Route>)
    requires p <= |slots|
    ensures var t := Inserted(slots, p, s);
            && |t| == |slots| + 1 && t[p] == s
            && (forall j :: 0 <= j < p ==> t[j] == slots[j])
            && (forall j :: p < j < |t| ==> t[j] == slots[j - 1])
            && (forall j :: p <= j < |slots| ==> t[j + 1] == slots[j])
  {
  }

  lemma RemovedElements(slots: seq<seq<Route>>, i: nat)
    requires i < |slots|
    ensures var t := Removed(slots, i);
            && |t| == |slots| - 1
            && (forall j :: 0 <= j < i ==> t[j] == slots[j])
            && (forall j :: i <= j < |t| ==> t[j] == slots[j + 1])
            && (forall j :: i < j < |slots| ==> t[j - 1] == slots[j])
  {
  }

  lemma SortedRemoved(slots: seq<seq<Route>>, i: nat)
    requires Sorted(slots) && i < |slots|
    ensures Sorted(Removed(slots, i))
  {
    RemovedElements(slots, i);
    var t := Removed(slots, i);
    forall x, y | 0 <= x < y < |t| ensures Less(SlotKey(t[x]), SlotKey(t[y])) {
      var x', y' := if x < i then x else x + 1, if y < i then y else y + 1;
      assert t[x] == slots[x'] && t[y] == slots[y'];
    }
    forall x | 0 <= x < |t| ensures t[x] != [] {
      assert t[x] == slots[if x < i then x else x + 1];
    }
  }

  lemma SortedInserted(slots: seq<seq<Route>>, p: nat, s: seq<Route>)
    requires Sorted(slots) && p <= |slots| && s != []
    requires forall j :: 0 <= j < p ==> Less(SlotKey(slots[j]), SlotKey(s))
    requires forall j :: p <= j < |slots| ==> Less(SlotKey(s), SlotKey(slots[j]))
    ensures Sorted(Inserted(slots, p, s))
  {
    InsertedElements(slots, p, s);
    var t := Inserted(slots, p, s);
    forall x, y | 0 <= x < y < |t| ensures Less(SlotKey(t[x]), SlotKey(t[y])) {
      var x', y' := if x < p then x else x - 1, if y < p then y else y - 1;
      if x == p {
        assert t[y] == slots[y'];
      } else if y == p {
        assert t[x] == slots[x'];
      } else {
        assert t[x] == slots[x'] && t[y] == slots[y'];
      }
    }
    forall x | 0 <= x < |t| ensures t[x] != [] {
      if x != p { assert t[x] == slots[if x < p then x else x - 1]; }
    }
  }

  lemma SortedReplaced(slots: seq<seq<Route>>, i: nat, s: seq<Route>)
    requires Sorted(slots) && i < |slots| && s != [] && SlotKey(s) == SlotKey(slots[i])
    ensures Sorted(slots[i := s])
  {
    var t := slots[i := s];
    forall x, y | 0 <= x < y < |t| ensures Less(SlotKey(t[x]), SlotKey(t[y])) {
      assert SlotKey(t[x]) == SlotKey(slots[x]) && SlotKey(t[y]) == SlotKey(slots[y]);
    }
  }

  lemma StoreSorted(slots: seq<seq<Route>>, k: Key, s: seq<Route>)
    requires Sorted(slots) && (s != [] ==> SlotKey(s) == k)
    ensures Sorted(Store(slots, k, s))
  {
    var i, p := Find(slots, k), Place(slots, k);
    FindIsPlace(slots, k);
    if i < |slots| {
      if s == [] { SortedRemoved(slots, i); } else { SortedReplaced(slots, i, s); }
    } else if s != [] {
      SortedInserted(slots, p, s);
    }
  }

  /** Lookup by key is determined by the slots, wherever they stand. */
  lemma SameLookup(a: seq<seq<Route>>, b: seq<seq<Route>>, q: Key)
    requires Sorted(a) && Sorted(b)
    requires forall x :: 0 <= x < |a| && SlotKey(a[x]) == q ==> a[x] in b
    requires forall x :: 0 <= x < |b| && SlotKey(b[x]) == q ==> b[x] in a
    ensures (Find(a, q) < |a| <==> Find(b, q) < |b|)
    ensures Find(a, q) < |a| ==> b[Find(b, q)] == a[Find(a, q)]
  {
    var x, y := Find(a, q), Find(b, q);
    TableContents(b, q);
    TableContents(a, q);
    if x < |a| {
      assert a[x] in b;
      var z :| 0 <= z < |b| && b[z] == a[x];
    }
    if y < |b| {
      assert b[y] in a;
      var z :| 0 <= z < |a| && a[z] == b[y];
    }
  }

  /** The other slots of the array keep their contents. */
  lemma StoreOther(slots: seq<seq<Route>>, k: Key, s: seq<Route>, q: Key)
    requires Sorted(slots) && (s != [] ==> SlotKey(s) == k) && q != k
    ensures var t := Store(slots, k, s);
            && (Find(t, q) < |t| <==> Find(slots, q) < |slots|)
            && (Find(slots, q) < |slots| ==> t[Find(t, q)] == slots[Find(slots, q)])
  {
    var t := Store(slots, k, s);
    var i, p := Find(slots, k), Place(slots, k);
    StoreSorted(slots, k, s);
    forall x | 0 <= x < |slots| && SlotKey(slots[x]) == q ensures slots[x] in t {
      if i < |slots| {
        if s == [] {
          RemovedElements(slots, i);
          assert t[if x < i then x else x - 1] == slots[x];
        } else {
          assert t[x] == slots[x];
        }
      } else if s != [] {
        InsertedElements(slots, p, s);
        assert t[if x < p then x else x + 1] == slots[x];
      }
    }
    forall y | 0 <= y < |t| && SlotKey(t[y]) == q ensures t[y] in slots {
      if i < |slots| {
        if s == [] {
          RemovedElements(slots, i);
          assert slots[if y < i then y else y + 1] == t[y];
        } else {
          assert slots[y] == t[y];
        }
      } else if s != [] {
        InsertedElements(slots, p, s);
        assert slots[if y < p then y else y - 1] == t[y];
      }
    }
    SameLookup(slots, t, q);
  }

  lemma StoreHere(slots: seq<seq<Route>>, k: Key, s: seq<Route>)
    requires Sorted(slots) && (s != [] ==> SlotKey(s) == k)
    ensures var t := Store(slots, k, s);
            && (Find(t, k) < |t| <==> s != []) && (s != [] ==> t[Find(t, k)] == s)
            && (s != [] ==> Find(t, k) == if Find(slots, k) < |slots| then Find(slots, k) else Place(slots, k))
  {
    var t := Store(slots, k, s);
    var i, p := Find(slots, k), Place(slots, k);
    StoreSorted(slots, k, s);
    TableContents(slots, k);
    TableContents(t, k);
    if i < |slots| {
      if s == [] {
        RemovedElements(slots, i);
        forall y | 0 <= y < |t| ensures SlotKey(t[y]) != k {
          assert t[y] == slots[if y < i then y else y + 1];
        }
      } else {
        assert t[i] == s;
      }
    } else if s != [] {
      InsertedElements(slots, p, s);
    }
  }

  predicate LooksUp(t: Table, t0: Table, k: Key, s: seq<Route>, q: Key) {
    && (q in t <==> (q == k && s != []) || (q != k && q in t0))
    && (q in t ==> t[q] == if q == k then s else t0[q])
  }

  lemma LookupsDecide(t: Table, t0: Table, k: Key, s: seq<Route>)
    requires forall q :: LooksUp(t, t0, k, s, q)
    ensures t == if s == [] then t0 - {k} else t0[k := s]
  {
    var m := if s == [] then t0 - {k} else t0[k := s];
    forall q ensures (q in t <==> q in m) && (q in m ==> t[q] == m[q]) {
      assert LooksUp(t, t0, k, s, q);
    }
  }

  /** Refinement: the sorted array after Store represents the map with the
      destination's slot replaced. */
  lemma StoreRefines(slots: seq<seq<Route>>, k: Key, s: seq<Route>)
    requires Sorted(slots) && (s != [] ==> SlotKey(s) == k)
    ensures Sorted(Store(slots, k, s))
    ensures TableOf(Store(slots, k, s)) == if s == [] then TableOf(slots) - {k} else TableOf(slots)[k := s]
  {
    StoreSorted(slots, k, s);
    forall q ensures LooksUp(TableOf(Store(slots, k, s)), TableOf(slots), k, s, q) {
      StoreLookup(slots, k, s, q);
    }
    LookupsDecide(TableOf(Store(slots, k, s)), TableOf(slots), k, s);
  }

  lemma StoreLookup(slots: seq<seq<Route>>, k: Key, s: seq<Route>, q: Key)
    requires Sorted(slots) && (s != [] ==> SlotKey(s) == k)
    ensures LooksUp(TableOf(Store(slots, k, s)), TableOf(slots), k, s, q)
  {
    StoreSorted(slots, k, s);
    TableContents(slots, q);
    TableContents(Store(slots, k, s), q);
    if q != k { StoreOther(slots, k, s, q); } else { StoreHere(slots, k, s); }
  }

  /** Storing what is already there changes nothing. */
  lemma StoreSame(slots: seq<seq<Route>>, k: Key)
    requires Sorted(slots)
    ensures Store(slots, k, if k in TableOf(slots) then TableOf(slots)[k] else []) == slots
  {
    TableContents(slots, k);
  }

  lemma StoreAt(slots: seq<seq<Route>>, i: nat, s: seq<Route>)
    requires Sorted(slots) && i < |slots|
    ensures var k := SlotKey(slots[i]);
            && k in TableOf(slots) && TableOf(slots)[k] == slots[i]
            && Store(slots, k, s) == if s == [] then Removed(slots, i) else slots[i := s]
  {
    TableContents(slots, SlotKey(slots[i]));
  }

  lemma StoreFound(slots: seq<seq<Route>>, k: Key, s: seq<Route>)
    requires Find(slots, k) < |slots|
    ensures var i := Find(slots, k);
            Store(slots, k, s) == if s == [] then Removed(slots, i) else slots[i := s]
  {
  }

  /** Two stores at one destination amount to the last one. */
  lemma StoreTwice(slots: seq<seq<Route>>, k: Key, s: seq<Route>, s': seq<Route>)
    requires Sorted(slots) && s != [] && SlotKey(s) == k
    ensures Store(Store(slots, k, s), k, s') == Store(slots, k, s')
  {
    var t := Store(slots, k, s);
    var i, p := Find(slots, k), Place(slots, k);
    StoreHere(slots, k, s);
    StoreFound(t, k, s');
    if i < |slots| {
      StoreFound(slots, k, s);
      StoreFound(slots, k, s');
      hide Store, Sorted, Inserted, Removed, Find, Place, SlotKey;
      ReplacedThen(slots, i, s, s');
    } else {
      hide Sorted, Inserted, Removed, Find, Place, SlotKey;
      InsertedThen(slots, p, s, s');
    }
  }

  lemma StoreAgain(slots: seq<seq<Route>>, k: Key, s: seq<Route>, s': seq<Route>)
    requires Sorted(slots) && if s == [] then s' == [] else SlotKey(s) == k
    ensures Store(Store(slots, k, s), k, s') == Store(slots, k, s')
  {
    if s == [] { StoreHere(slots, k, s); } else { StoreTwice(slots, k, s, s'); }
  }

  lemma ReplacedThen(slots: seq<seq<Route>>, i: nat, s: seq<Route>, s': seq<Route>)
    requires i < |slots|
    ensures Removed(slots[i := s], i) == Removed(slots, i)
    ensures slots[i := s][i := s'] == slots[i := s']
  {
  }

  lemma InsertedThen(slots: seq<seq<Route>>, p: nat, s: seq<Route>, s': seq<Route>)
    requires p <= |slots|
    ensures Removed(Inserted(slots, p, s), p) == slots
    ensures Inserted(slots, p, s)[p := s'] == Inserted(slots, p, s')
  {
    var t := Inserted(slots, p, s);
    InsertedElements(slots, p, s);
    InsertedElements(slots, p, s');
    RemovedElements(t, p);
  }

  /** A table has one sorted array. */
  lemma {:induction false} TableDecides(a: seq<seq<Route>>, b: seq<seq<Route>>)
    requires Sorted(a) && Sorted(b) && TableOf(a) == TableOf(b)
    ensures a == b
    decreases |a|
  {
    if a != [] { FirstSlot(a, b); }
    if b != [] { FirstSlot(b, a); }
    if a != [] {
      var k := SlotKey(a[0]);
      assert Find(a, k) == 0 && Find(b, k) == 0;
      TableContents(a, k);
      TableContents(b, k);
      DropFirst(a);
      DropFirst(b);
      hide TableOf, Sorted;
      TableDecides(a[1..], b[1..]);
      assert a == [a[0]] + a[1..] && b == [b[0]] + b[1..];
    }
  }

  /** No slot of an array with the same table comes before the first one. */
  lemma FirstSlot(a: seq<seq<Route>>, b: seq<seq<Route>>)
    requires Sorted(a) && Sorted(b) && TableOf(a) == TableOf(b) && a != []
    ensures b != [] && !Less(SlotKey(a[0]), SlotKey(b[0]))
  {
    var k := SlotKey(a[0]);
    assert Find(a, k) == 0;
    TableContents(a, k);
    TableContents(b, k);
    assert b[0] == b[0] && Find(b, k) < |b|;
  }

  lemma DropFirst(a: seq<seq<Route>>)
    requires Sorted(a) && a != []
    ensures Sorted(a[1..]) && TableOf(a[1..]) == TableOf(a) - {SlotKey(a[0])}
  {
    var k := SlotKey(a[0]);
    assert Find(a, k) == 0;
    StoreRefines(a, k, []);
    assert Store(a, k, []) == a[1..];
  }
}

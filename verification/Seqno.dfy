/** 16-bit sequence numbers with wrap-around (babeld/util.h) and the
    feasibility-distance order built on them. */
module Seqno {

  const MODULUS := 65536
  const HALF := 32768
  const INF: U16 := 65535

  type U16 = x: int | 0 <= x < MODULUS

  /** seqno_compare: bit 15 of the 16-bit difference decides. */
  function Compare(s1: U16, s2: U16): (r: int) {
    if s1 == s2 then 0 else if (s2 - s1) % MODULUS >= HALF then 1 else -1
  }

  /** seqno_minus: the 16-bit difference read as a signed short. */
  function Minus(s1: U16, s2: U16): (r: int) {
    var d := (s1 - s2) % MODULUS;
    if d >= HALF then d - MODULUS else d
  }

  /** seqno_plus */
  function Plus(s: U16, k: int): (r: U16) {
    (s + k) % MODULUS
  }

  /** Comparing residues decides the order of the unbounded numbers they come
      from as long as these are less than half the number space apart (section
      3.2.1 of RFC 8966); at exactly half, both directions answer "greater". */
  lemma CompareAgrees(a: int, b: int)
    ensures -HALF < a - b < HALF ==>
              Compare(a % MODULUS, b % MODULUS) == if a > b then 1 else if a < b then -1 else 0
    ensures a - b == HALF ==> Compare(a % MODULUS, b % MODULUS) == Compare(b % MODULUS, a % MODULUS) == 1
  {
    ModDifference(b, a);
    ModDifference(a, b);
    if -HALF < a - b < HALF {
      if a != b {
        ModSmall(b - a);
        ModDistinct(a, b);
      }
    }
    if a - b == HALF {
      ModSmall(a - b);
      ModSmall(b - a);
      ModDistinct(a, b);
    }
  }

  /** seqno_plus and seqno_minus are inverse on the whole range of a short. */
  lemma PlusMinus(s: U16, k: int)
    requires -HALF <= k < HALF
    ensures Minus(Plus(s, k), s) == k
  {
    ModDifference(s + k, s);
    ModSmall(k);
    assert s % MODULUS == s;
  }

  /** seqno_compare is antisymmetric exactly off the antipode. */
  lemma CompareAntisymmetric(a: U16, b: U16)
    ensures Compare(a, b) == -Compare(b, a) <==> (a - b) % MODULUS != HALF
  {
    if a != b {
      ModDistinctSmall(a, b);
      assert (b - a) % MODULUS == MODULUS - (a - b) % MODULUS;
    }
  }

  lemma ModSmall(d: int)
    requires -MODULUS < d < MODULUS
    ensures d % MODULUS == if d >= 0 then d else d + MODULUS
  {
  }

  lemma ModDistinct(a: int, b: int)
    requires a != b && -MODULUS < a - b < MODULUS
    ensures a % MODULUS != b % MODULUS
  {
  }

  lemma ModDistinctSmall(a: U16, b: U16)
    requires a != b
    ensures (a - b) % MODULUS == if a > b then a - b else a - b + MODULUS
    ensures (b - a) % MODULUS == if b > a then b - a else b - a + MODULUS
  {
  }

  lemma ModDifference(a: int, b: int)
    ensures (a % MODULUS - b % MODULUS) % MODULUS == (a - b) % MODULUS
  {
    var x, y := a / MODULUS, b / MODULUS;
    assert a - b == (a % MODULUS - b % MODULUS) + MODULUS * (x - y);
  }

  /** A distance as kept in the source table and carried by an update. */
  datatype Distance = Distance(seqno: U16, metric: U16)

  /** Strictly better: the comparison inside update_feasible. */
  predicate Better(a: Distance, b: Distance) {
    Compare(a.seqno, b.seqno) > 0 || (a.seqno == b.seqno && a.metric < b.metric)
  }

  predicate AsGood(a: Distance, b: Distance) {
    a == b || Better(a, b)
  }

  /** The seqno lies in the half-space that starts at base. */
  predicate InWindow(base: U16, s: U16) {
    (s - base) % MODULUS < HALF
  }

  /** Position of a distance inside a window: larger is better. */
  function Rank(base: U16, d: Distance): int {
    ((d.seqno - base) % MODULUS) * MODULUS + (INF - d.metric)
  }

  lemma RankDecides(base: U16, a: Distance, b: Distance)
    requires InWindow(base, a.seqno) && InWindow(base, b.seqno)
    ensures Better(a, b) <==> Rank(base, a) > Rank(base, b)
    ensures AsGood(a, b) <==> Rank(base, a) >= Rank(base, b)
  {
    WindowDecides(base, a.seqno, b.seqno);
    hide Compare, InWindow;
  }

  /** Inside one window the comparison follows the position. */
  lemma WindowDecides(base: U16, a: U16, b: U16)
    requires InWindow(base, a) && InWindow(base, b)
    ensures Compare(a, b) > 0 <==> (a - base) % MODULUS > (b - base) % MODULUS
    ensures a == b <==> (a - base) % MODULUS == (b - base) % MODULUS
  {
    ModDifference(b - base, a - base);
    var x, y := (a - base) % MODULUS, (b - base) % MODULUS;
    assert (b - a) % MODULUS == (y - x) % MODULUS by {
      assert b - a == (b - base) - (a - base);
    }
    ModSmall(y - x);
    if a != b { ModDistinctSmall(a, b); }
  }

  /** Inside one window the order is transitive, also mixed with AsGood. */
  lemma BetterTransitive(base: U16, a: Distance, b: Distance, c: Distance)
    requires InWindow(base, a.seqno) && InWindow(base, b.seqno) && InWindow(base, c.seqno)
    ensures AsGood(a, b) && AsGood(b, c) ==> AsGood(a, c)
    ensures AsGood(a, b) && Better(b, c) ==> Better(a, c)
    ensures Better(a, b) && AsGood(b, c) ==> Better(a, c)
    ensures !(Better(a, b) && AsGood(b, a))
  {
    RankDecides(base, a, b);
    RankDecides(base, b, c);
    RankDecides(base, a, c);
    RankDecides(base, b, a);
  }
}

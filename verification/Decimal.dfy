/**
 Decimal values m * 10^e and their base-10000 form, as PostgreSQL's numeric keeps them: groups of four
 digits, the first one holding the weight'th power of 10000.
 */
module Decimal {
  import opened Bytes

  /** m * 10^e in units of 10^k. */
  function Scaled(m: int, e: int, k: int): int
    requires k <= e
  {
    m * Pow10(e - k)
  }

  function Min(a: int, b: int): int {
    if a <= b then a else b
  }

  /** m1 * 10^e1 and m2 * 10^e2 are the same number. */
  predicate SameValue(m1: int, e1: int, m2: int, e2: int) {
    Scaled(m1, e1, Min(e1, e2)) == Scaled(m2, e2, Min(e1, e2))
  }

  lemma Rescale(m: int, e: int, k: int, j: int)
    requires j <= k <= e
    ensures Scaled(m, e, j) == Scaled(m, e, k) * Pow10(k - j)
  {
    hide Pow10;
    Pow10Add(e - k, k - j);
    MulAssoc(m, Pow10(e - k), Pow10(k - j));
  }

  lemma MulAssoc(a: int, b: int, c: int)
    ensures a * (b * c) == (a * b) * c
  {
  }

  lemma MulCancel(a: int, b: int, p: int)
    requires p > 0 && a * p == b * p
    ensures a == b
  {
  }

  /** Units do not matter: two values are the same in some unit if and only if they are in every unit. */
  lemma SameIn(m1: int, e1: int, m2: int, e2: int, k: int)
    requires k <= e1 && k <= e2
    ensures SameValue(m1, e1, m2, e2) <==> Scaled(m1, e1, k) == Scaled(m2, e2, k)
  {
    hide Pow10, Scaled;
    var t := Min(e1, e2);
    Rescale(m1, e1, t, k);
    Rescale(m2, e2, t, k);
    if Scaled(m1, e1, k) == Scaled(m2, e2, k) {
      MulCancel(Scaled(m1, e1, t), Scaled(m2, e2, t), Pow10(t - k));
    }
  }

  lemma SameTrans(m1: int, e1: int, m2: int, e2: int, m3: int, e3: int)
    requires SameValue(m1, e1, m2, e2) && SameValue(m2, e2, m3, e3)
    ensures SameValue(m1, e1, m3, e3)
  {
    hide Pow10, Scaled, SameValue;
    var k := Min(e1, Min(e2, e3));
    SameIn(m1, e1, m2, e2, k);
    SameIn(m2, e2, m3, e3, k);
    SameIn(m1, e1, m3, e3, k);
  }

  lemma SameSym(m1: int, e1: int, m2: int, e2: int)
    requires SameValue(m1, e1, m2, e2)
    ensures SameValue(m2, e2, m1, e1)
  {
  }

  // ---- base 10000 --------------------------------------------------------------------------

  type group = x: int | 0 <= x < 10000

  function GroupsVal(gs: seq<group>): nat {
    if gs == [] then 0 else GroupsVal(gs[..|gs| - 1]) * 10000 + gs[|gs| - 1]
  }

  /** The base-10000 digits of a number, most significant first, without leading zeros. */
  function Base(n: nat): (gs: seq<group>)
    ensures n > 0 ==> gs != [] && gs[0] != 0 && gs[|gs| - 1] == n % 10000
  {
    if n == 0 then [] else Base(n / 10000) + [n % 10000]
  }

  lemma {:induction false} BaseVal(n: nat)
    ensures GroupsVal(Base(n)) == n
  {
    if n > 0 {
      BaseVal(n / 10000);
      assert Base(n)[..|Base(n)| - 1] == Base(n / 10000);
    }
  }

  /** Groups without a leading zero are the base-10000 digits of their value. */
  lemma {:induction false} BaseUnique(gs: seq<group>)
    requires gs != [] ==> gs[0] != 0
    ensures Base(GroupsVal(gs)) == gs
  {
    if gs != [] {
      var init := gs[..|gs| - 1];
      BaseUnique(init);
      assert GroupsVal(gs) / 10000 == GroupsVal(init) && GroupsVal(gs) % 10000 == gs[|gs| - 1];
      if init == [] {
        assert gs == [gs[0]];
      } else {
        GroupsPositive(init);
      }
      assert gs == init + [gs[|gs| - 1]];
    }
  }

  lemma {:induction false} GroupsPositive(gs: seq<group>)
    requires gs != [] && gs[0] != 0
    ensures GroupsVal(gs) > 0
  {
    if |gs| > 1 {
      GroupsPositive(gs[..|gs| - 1]);
    }
  }

  // ---- the numeric of a decimal value ----------------------------------------------------------

  /** The magnitude of a numeric: groups of four digits from the weight'th power of 10000 down. */
  datatype Magnitude = Magnitude(weight: int, groups: seq<group>) {
    /** The power of ten of the last group's units. */
    function Low(): int {
      4 * (weight - |groups| + 1)
    }
  }

  /** The stored form of m * 10^e: the exact value, no zero group at either end, nothing at all for zero. */
  ghost predicate Canonical(g: Magnitude, m: nat, e: int) {
    if m == 0 then g == Magnitude(0, [])
    else
      && g.groups != [] && g.groups[0] != 0 && g.groups[|g.groups| - 1] != 0
      && SameValue(GroupsVal(g.groups), g.Low(), m, e)
  }

  /** Whole zero groups at the low end raise the exponent instead. */
  function Strip(n: nat, q: int): (r: (nat, int))
    requires n > 0
    ensures r.0 > 0 && r.0 % 10000 != 0
  {
    if n % 10000 == 0 then Strip(n / 10000, q + 1) else (n, q)
  }

  lemma {:induction false} StripSame(n: nat, q: int)
    requires n > 0
    ensures SameValue(Strip(n, q).0, 4 * Strip(n, q).1, n, 4 * q)
  {
    hide SameValue;
    if n % 10000 == 0 {
      StripSame(n / 10000, q + 1);
      SameUp(n / 10000, q);
      SameTrans(Strip(n, q).0, 4 * Strip(n, q).1, n / 10000, 4 * (q + 1), n, 4 * q);
    } else {
      SameSelf(n, 4 * q);
    }
  }

  lemma SameSelf(m: int, e: int)
    ensures SameValue(m, e, m, e)
  {
  }

  lemma SameUp(n: nat, q: int)
    ensures SameValue(n, 4 * (q + 1), n * 10000, 4 * q)
  {
    assert Pow10(0) == 1;
    assert Pow10(4) == 10000;
  }

  /** The stored form, by arithmetic on the whole value. */
  function Pack(m: nat, e: int): Magnitude {
    if m == 0 then Magnitude(0, [])
    else
      var (n, q) := Strip(m * Pow10(e % 4), e / 4);
      Magnitude(q + |Base(n)| - 1, Base(n))
  }

  lemma PackCanonical(m: nat, e: int)
    ensures Canonical(Pack(m, e), m, e)
  {
    hide SameValue, Base, Strip;
    if m > 0 {
      var (n, q) := Strip(m * Pow10(e % 4), e / 4);
      BaseVal(n);
      StripSame(m * Pow10(e % 4), e / 4);
      SameSplit(m, e);
      SameTrans(n, 4 * q, m * Pow10(e % 4), 4 * (e / 4), m, e);
    }
  }

  lemma SameSplit(m: nat, e: int)
    ensures SameValue(m * Pow10(e % 4), 4 * (e / 4), m, e)
  {
    assert Pow10(0) == 1;
    assert Min(4 * (e / 4), e) == 4 * (e / 4) && e - 4 * (e / 4) == e % 4;
  }

  /** A value has one stored form: however it is scaled, its canonical magnitudes are equal. */
  lemma CanonicalUnique(g1: Magnitude, m1: nat, e1: int, g2: Magnitude, m2: nat, e2: int)
    requires Canonical(g1, m1, e1) && Canonical(g2, m2, e2) && SameValue(m1, e1, m2, e2)
    ensures g1 == g2
  {
    hide SameValue;
    SameZero(m1, e1, m2, e2);
    if m1 != 0 {
      var v1, v2 := GroupsVal(g1.groups), GroupsVal(g2.groups);
      SameTrans(v1, g1.Low(), m1, e1, m2, e2);
      SameSym(v2, g2.Low(), m2, e2);
      SameTrans(v1, g1.Low(), m2, e2, v2, g2.Low());
      SameSym(v1, g1.Low(), v2, g2.Low());
      NoHigher(v1, g1.Low() / 4, v2, g2.Low() / 4);
      NoHigher(v2, g2.Low() / 4, v1, g1.Low() / 4);
      assert g1.Low() == g2.Low();
      SameIn(v1, g1.Low(), v2, g2.Low(), g1.Low());
      assert v1 == v2 by { assert Pow10(0) == 1; }
      BaseUnique(g1.groups);
      BaseUnique(g2.groups);
    }
  }

  lemma SameZero(m1: nat, e1: int, m2: nat, e2: int)
    requires SameValue(m1, e1, m2, e2)
    ensures m1 == 0 <==> m2 == 0
  {
  }

  /** A value whose last group is not zero cannot be written in a higher unit. */
  lemma NoHigher(v1: nat, q1: int, v2: nat, q2: int)
    requires v1 % 10000 != 0 && SameValue(v1, 4 * q1, v2, 4 * q2)
    ensures q2 <= q1
  {
    if q2 > q1 {
      HigherUnit(v1, q1, v2, q2);
    }
  }

  lemma HigherUnit(v1: nat, q1: int, v2: nat, q2: int)
    requires q2 > q1 && SameValue(v1, 4 * q1, v2, 4 * q2)
    ensures v1 % 10000 == 0
  {
    SameIn(v1, 4 * q1, v2, 4 * q2, 4 * q1);
    assert Pow10(0) == 1;
    var d := 4 * (q2 - q1);
    Pow10Add(4, d - 4);
    assert Pow10(4) == 10000;
    assert v1 == v2 * (10000 * Pow10(d - 4));
    MulAssoc(10000, v2, Pow10(d - 4));
    assert v1 == 10000 * (v2 * Pow10(d - 4));
  }
}

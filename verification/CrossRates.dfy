/** The cross-rate matrix: direct quotes with their inverses, filled in through one main currency. */
module CrossRates {
  import opened Wrappers

  type Table<T(==)> = map<(T, T), real>

  /** Multiplication as a function, so that equal factors are seen to give equal products. */
  function Times(x: real, y: real): real {
    x * y
  }

  /**
  Division that gives zero where floating point gives an infinity or no number. Rates that come from
  quotes none of which is zero never meet that case.
  */
  function Over(x: real, y: real): real {
    if y == 0.0 then 0.0 else x / y
  }

  /** Every rate has its inverse beside it, and no currency has a rate to itself. */
  predicate Inverse<T(==)>(t: Table<T>) {
    forall k :: k in t ==> InverseAt(t, k.0, k.1)
  }

  predicate InverseAt<T(==)>(t: Table<T>, a: T, b: T)
    requires (a, b) in t
  {
    a != b && (b, a) in t && t[(b, a)] == Over(1.0, t[(a, b)])
  }

  predicate NoZero<T(==)>(t: Table<T>) {
    forall k :: k in t ==> t[k] != 0.0
  }

  /** The rate the matrix gets: the direct one, else the quotient through the main currency. */
  function Cross<T(==)>(direct: Table<T>, main: T, a: T, b: T): Option<real> {
    if (a, b) in direct then Some(direct[(a, b)])
    else if (main, a) in direct && (main, b) in direct then Some(Over(direct[(main, b)], direct[(main, a)]))
    else None
  }

  predicate Fillable<T(==)>(direct: Table<T>, main: T, listed: set<T>) {
    forall a, b :: a in listed && b in listed && a != b ==> Cross(direct, main, a, b).Some?
  }

  function Filled<T(==)>(direct: Table<T>, main: T, listed: set<T>): Table<T>
    requires Fillable(direct, main, listed)
  {
    map a, b | a in listed && b in listed && a != b :: (a, b) := Cross(direct, main, a, b).value
  }

  predicate Covers<T(==)>(direct: Table<T>, listed: set<T>) {
    forall k :: k in direct ==> k.0 in listed && k.1 in listed
  }

  predicate AllDirect<T(==)>(direct: Table<T>, listed: set<T>) {
    forall a, b :: a in listed && b in listed && a != b ==> (a, b) in direct
  }

  predicate Star<T(==)>(direct: Table<T>, main: T, listed: set<T>) {
    forall x :: x in listed && x != main ==> (main, x) in direct
  }

  /** Inverting a quotient swaps it, whether or not zeros occur. */
  lemma OverSwaps(x: real, y: real)
    ensures Over(1.0, Over(x, y)) == Over(y, x)
    ensures x != 0.0 && y != 0.0 ==> Over(x, y) != 0.0
  {
    if x != 0.0 && y != 0.0 {
      QuotientInverse(x, y);
    }
  }

  /** A rate that is not zero and its inverse give one. */
  lemma OverTimes(x: real)
    ensures Times(x, Over(1.0, x)) == 1.0 <==> x != 0.0
    ensures Over(1.0, Over(1.0, x)) == x
  {
    OverSwaps(1.0, x);
    if x != 0.0 {
      assert x * (1.0 / x) == 1.0;
    }
  }

  /** The matrix can be filled exactly when all pairs are quoted directly, or all against the main currency. */
  lemma FillableIff<T>(direct: Table<T>, main: T, listed: set<T>)
    requires Inverse(direct) && Covers(direct, listed)
    ensures Fillable(direct, main, listed) <==> AllDirect(direct, listed) || Star(direct, main, listed)
  {
    if AllDirect(direct, listed) {
      assert Fillable(direct, main, listed);
    } else if Star(direct, main, listed) {
      forall a, b | a in listed && b in listed && a != b ensures Cross(direct, main, a, b).Some? {
        if (a, b) !in direct {
          assert a == main ==> (main, b) in direct;
          assert (main, a) in direct ==> InverseAt(direct, main, a);
        }
      }
    } else {
      var x :| x in listed && x != main && (main, x) !in direct;
      if main in listed {
        assert (main, main) !in direct;
        assert Cross(direct, main, main, x).None?;
      } else {
        var a, b :| a in listed && b in listed && a != b && (a, b) !in direct;
        assert (main, a) !in direct;
        assert Cross(direct, main, a, b).None?;
      }
    }
  }

  lemma ProductIsOne(p: real, q: real, x: real, y: real)
    requires x != 0.0 && y != 0.0 && p * x == y && q * y == x
    ensures p * q == 1.0
  {
    calc {
      (p * q) * y;
      p * (q * y);
      { assert q * y == x; }
      p * x;
      y;
    }
    Cancel(p * q, y);
  }

  lemma Cancel(z: real, y: real)
    requires z * y == y && y != 0.0
    ensures z == 1.0
  {
    assert (z - 1.0) * y == 0.0;
  }

  lemma QuotientInverse(x: real, y: real)
    requires x != 0.0 && y != 0.0
    ensures 1.0 / (x / y) == y / x && x / y != 0.0
  {
    var p, q := y / x, x / y;
    assert p * x == y && q * y == x;
    ProductIsOne(p, q, x, y);
    assert q != 0.0;
    assert p == 1.0 / q;
  }

  lemma CrossInverse<T>(direct: Table<T>, main: T, a: T, b: T)
    requires Inverse(direct) && Cross(direct, main, a, b).Some? && Cross(direct, main, b, a).Some?
    ensures Cross(direct, main, b, a).value == Over(1.0, Cross(direct, main, a, b).value)
  {
    if (a, b) in direct {
      assert InverseAt(direct, a, b);
    } else {
      assert (b, a) in direct ==> InverseAt(direct, b, a);
      OverSwaps(direct[(main, b)], direct[(main, a)]);
    }
  }

  /** The table holds the cross rates of exactly the ordered pairs of listed currencies. */
  predicate IsFilled<T(==)>(t: Table<T>, direct: Table<T>, main: T, listed: set<T>) {
    (forall k :: k in t ==> k.0 in listed && k.1 in listed && HasCross(t, direct, main, k.0, k.1)) &&
    (forall a, b :: a in listed && b in listed && a != b ==> (a, b) in t)
  }

  predicate HasCross<T(==)>(t: Table<T>, direct: Table<T>, main: T, a: T, b: T)
    requires (a, b) in t
  {
    a != b && Cross(direct, main, a, b) == Some(t[(a, b)])
  }

  lemma FilledIsFilled<T>(direct: Table<T>, main: T, listed: set<T>)
    requires Fillable(direct, main, listed)
    ensures IsFilled(Filled(direct, main, listed), direct, main, listed)
  {
    var t := Filled(direct, main, listed);
    forall k | k in t ensures HasCross(t, direct, main, k.0, k.1) {
    }
  }

  lemma OnlyOneFilled<T>(t: Table<T>, u: Table<T>, direct: Table<T>, main: T, listed: set<T>)
    requires IsFilled(t, direct, main, listed) && IsFilled(u, direct, main, listed)
    ensures t == u
  {
    assert forall k :: k in t ==> HasCross(t, direct, main, k.0, k.1) && (k.0, k.1) in u;
    assert forall k :: k in u ==> HasCross(u, direct, main, k.0, k.1) && (k.0, k.1) in t;
  }

  /** Every rate of the filled matrix is the inverse of the rate in the other direction. */
  lemma FilledInverse<T>(t: Table<T>, direct: Table<T>, main: T, listed: set<T>)
    requires Inverse(direct) && IsFilled(t, direct, main, listed)
    ensures Inverse(t)
  {
    forall k | k in t ensures InverseAt(t, k.0, k.1) {
      var (a, b) := k;
      assert HasCross(t, direct, main, a, b) && HasCross(t, direct, main, b, a);
      CrossInverse(direct, main, a, b);
    }
  }

  /** Without zero quotes no rate of the filled matrix is zero. */
  lemma FilledNoZero<T>(t: Table<T>, direct: Table<T>, main: T, listed: set<T>)
    requires IsFilled(t, direct, main, listed) && NoZero(direct)
    ensures NoZero(t)
  {
    forall k | k in t ensures t[k] != 0.0 {
      assert HasCross(t, direct, main, k.0, k.1);
      if k !in direct {
        OverSwaps(direct[(main, k.1)], direct[(main, k.0)]);
      }
    }
  }

  // ----- arbitrage

  /** Going round through a third currency never pays. */
  predicate ArbitrageFree<T(==)>(t: Table<T>) {
    forall j, k :: j in t && k in t && j.1 == k.0 && (j.0, k.1) in t ==> RoundTrip(t, j.0, j.1, k.1)
  }

  predicate RoundTrip<T(==)>(t: Table<T>, a: T, b: T, c: T)
    requires (a, b) in t && (b, c) in t && (a, c) in t
  {
    Times(t[(a, b)], t[(b, c)]) == t[(a, c)]
  }

  /** The direct quotes between other currencies agree with those against the main one. */
  predicate Consistent<T(==)>(direct: Table<T>, main: T) {
    forall k :: k in direct && (main, k.0) in direct && (main, k.1) in direct ==> RoundTrip(direct, main, k.0, k.1)
  }

  /** The worth of one unit of the main currency in another. */
  function Worth<T(==)>(direct: Table<T>, main: T, x: T): real {
    if x == main then 1.0 else if (main, x) in direct then direct[(main, x)] else 0.0
  }

  lemma WorthNonZero<T>(direct: Table<T>, main: T, listed: set<T>, a: T)
    requires Inverse(direct) && NoZero(direct) && Star(direct, main, listed) && a in listed
    ensures Worth(direct, main, a) != 0.0
    ensures a != main ==> (a, main) in direct && direct[(a, main)] == 1.0 / Worth(direct, main, a)
  {
    if a != main {
      assert InverseAt(direct, main, a);
    }
  }

  lemma CrossIsRatio<T>(direct: Table<T>, main: T, listed: set<T>, a: T, b: T)
    requires Inverse(direct) && NoZero(direct) && main in listed && Star(direct, main, listed) && Consistent(direct, main)
    requires a in listed && b in listed && a != b
    ensures Worth(direct, main, a) != 0.0
    ensures Cross(direct, main, a, b) == Some(Worth(direct, main, b) / Worth(direct, main, a))
  {
    WorthNonZero(direct, main, listed, a);
    if (a, b) in direct && a != main && b != main {
      assert RoundTrip(direct, main, a, b);
      Divide(direct[(main, a)], direct[(a, b)], direct[(main, b)]);
    }
  }

  lemma Divide(x: real, y: real, z: real)
    requires x != 0.0 && Times(x, y) == z
    ensures y == z / x
  {
  }

  lemma RatioChain(x: real, y: real, z: real)
    requires x != 0.0 && y != 0.0
    ensures Times(y / x, z / y) == z / x
  {
    assert (y / x) * (z / y) == (y * z) / (x * y);
    assert (y * z) / (x * y) == z / x;
  }

  lemma RoundTripByRatio<T>(t: Table<T>, direct: Table<T>, main: T, listed: set<T>, a: T, b: T, c: T)
    requires Inverse(direct) && NoZero(direct) && main in listed && Star(direct, main, listed) && Consistent(direct, main)
    requires IsFilled(t, direct, main, listed)
    requires (a, b) in t && (b, c) in t && (a, c) in t
    ensures RoundTrip(t, a, b, c)
  {
    assert HasCross(t, direct, main, a, b) && HasCross(t, direct, main, b, c) && HasCross(t, direct, main, a, c);
    CrossIsRatio(direct, main, listed, a, b);
    CrossIsRatio(direct, main, listed, b, c);
    CrossIsRatio(direct, main, listed, a, c);
    var x, y, z := Worth(direct, main, a), Worth(direct, main, b), Worth(direct, main, c);
    RatioChain(x, y, z);
  }

  lemma QuotedRoundTrip<T>(t: Table<T>, direct: Table<T>, main: T, listed: set<T>, a: T, b: T)
    requires Inverse(direct) && Covers(direct, listed) && IsFilled(t, direct, main, listed) && ArbitrageFree(t)
    requires (a, b) in direct && (main, a) in direct && (main, b) in direct
    ensures RoundTrip(direct, main, a, b)
  {
    assert InverseAt(direct, a, b) && InverseAt(direct, main, a) && InverseAt(direct, main, b);
    assert HasCross(t, direct, main, a, b) && HasCross(t, direct, main, main, a) && HasCross(t, direct, main, main, b);
    assert RoundTrip(t, (main, a).0, (main, a).1, (a, b).1);
  }

  /**
  With quotes, none of them zero, against a listed main currency for all others, the filled matrix is free of arbitrage
  exactly when the other direct quotes are consistent with those of the main currency.
  */
  lemma ArbitrageFreeIff<T>(t: Table<T>, direct: Table<T>, main: T, listed: set<T>)
    requires Inverse(direct) && NoZero(direct) && Covers(direct, listed) && main in listed && Star(direct, main, listed)
    requires IsFilled(t, direct, main, listed)
    ensures ArbitrageFree(t) <==> Consistent(direct, main)
  {
    if Consistent(direct, main) {
      forall j, k | j in t && k in t && j.1 == k.0 && (j.0, k.1) in t ensures RoundTrip(t, j.0, j.1, k.1) {
        RoundTripByRatio(t, direct, main, listed, j.0, j.1, k.1);
      }
    }
    if ArbitrageFree(t) {
      forall k | k in direct && (main, k.0) in direct && (main, k.1) in direct
        ensures RoundTrip(direct, main, k.0, k.1)
      {
        QuotedRoundTrip(t, direct, main, listed, k.0, k.1);
      }
    }
  }

  /** Quotes of which all involve the main currency are consistent. */
  lemma OneBaseIsConsistent<T>(direct: Table<T>, base: T)
    requires Inverse(direct) && NoZero(direct) && forall k :: k in direct ==> k.0 == base || k.1 == base
    ensures Consistent(direct, base)
  {
  }
}

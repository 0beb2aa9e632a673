/**
 * Sums over finite sets of bucket keys. The source adds up per-bucket quantities
 * with Python's `sum` over a dictionary, whose iteration order is irrelevant for
 * exact arithmetic; `SumOver` therefore adds the entries in an unspecified order
 * and `SumOverPick` shows that any entry may be taken out first.
 */
module Sums {

  /** An arbitrary element of a non-empty set of keys. */
  ghost function Pick(s: set<real>): (k: real)
    requires s != {}
    ensures k in s
  {
    NonEmptyHasElement(s);
    var k :| k in s; k
  }

  lemma NonEmptyHasElement(s: set<real>)
    requires s != {}
    ensures exists k :: k in s
  {
    if forall k :: k !in s {
      assert false;
    }
  }

  /** The sum of `m[k]` over the keys `k` in `s`. */
  ghost function SumOver(s: set<real>, m: map<real, real>): real
    requires s <= m.Keys
    decreases s
  {
    if s == {} then 0.0 else var k := Pick(s); m[k] + SumOver(s - {k}, m)
  }

  /** Any key of `s` can be split off the sum. */
  lemma {:induction false} SumOverPick(s: set<real>, m: map<real, real>, k: real)
    requires s <= m.Keys && k in s
    ensures SumOver(s, m) == m[k] + SumOver(s - {k}, m)
    decreases s
  {
    var j := Pick(s);
    if j != k {
      SumOverPick(s - {j}, m, k);
      SumOverPick(s - {k}, m, j);
      assert s - {j} - {k} == s - {k} - {j};
    }
  }

  /** The sum only depends on the entries it adds. */
  lemma {:induction false} SumOverAgree(s: set<real>, m1: map<real, real>, m2: map<real, real>)
    requires s <= m1.Keys && s <= m2.Keys
    requires forall k | k in s :: m1[k] == m2[k]
    ensures SumOver(s, m1) == SumOver(s, m2)
    decreases s
  {
    if s != {} {
      var k := Pick(s);
      SumOverAgree(s - {k}, m1, m2);
    }
  }

  /** Changing a single entry changes the sum by exactly the difference. */
  lemma SumOverChangeOne(s: set<real>, m1: map<real, real>, m2: map<real, real>, k: real)
    requires s <= m1.Keys && s <= m2.Keys && k in s
    requires forall j | j in s && j != k :: m1[j] == m2[j]
    ensures SumOver(s, m2) == SumOver(s, m1) - m1[k] + m2[k]
  {
    SumOverPick(s, m1, k);
    SumOverPick(s, m2, k);
    SumOverAgree(s - {k}, m1, m2);
  }

  /** Adding a key whose entry is zero leaves the sum unchanged. */
  lemma SumOverAddZero(s: set<real>, m1: map<real, real>, m2: map<real, real>, k: real)
    requires s <= m1.Keys && s + {k} <= m2.Keys && k !in s
    requires forall j | j in s :: m1[j] == m2[j]
    requires m2[k] == 0.0
    ensures SumOver(s + {k}, m2) == SumOver(s, m1)
  {
    SumOverPick(s + {k}, m2, k);
    assert s + {k} - {k} == s;
    SumOverAgree(s, m1, m2);
  }

  /** A sum of non-negative entries is non-negative. */
  lemma {:induction false} SumOverNonnegative(s: set<real>, m: map<real, real>)
    requires s <= m.Keys
    requires forall k | k in s :: m[k] >= 0.0
    ensures SumOver(s, m) >= 0.0
    decreases s
  {
    if s != {} {
      var k := Pick(s);
      SumOverNonnegative(s - {k}, m);
    }
  }

  /** The sum of entrywise differences is the difference of the sums. */
  lemma {:induction false} SumOverDifference(s: set<real>, a: map<real, real>, b: map<real, real>, d: map<real, real>)
    requires s <= a.Keys && s <= b.Keys && s <= d.Keys
    requires forall k | k in s :: d[k] == a[k] - b[k]
    ensures SumOver(s, d) == SumOver(s, a) - SumOver(s, b)
    decreases s
  {
    if s != {} {
      var k := Pick(s);
      SumOverDifference(s - {k}, a, b, d);
    }
  }

  /** A common factor comes out of the sum. */
  lemma {:induction false} SumOverScale(s: set<real>, a: map<real, real>, c: real, d: map<real, real>)
    requires s <= a.Keys && s <= d.Keys
    requires forall k | k in s :: d[k] == c * a[k]
    ensures SumOver(s, d) == c * SumOver(s, a)
    decreases s
  {
    if s != {} {
      var k := Pick(s);
      SumOverScale(s - {k}, a, c, d);
      calc {
        SumOver(s, d);
        d[k] + SumOver(s - {k}, d);
        c * a[k] + c * SumOver(s - {k}, a);
        c * (a[k] + SumOver(s - {k}, a));
      }
    }
  }

  /** The sum of a sequence of amounts, from the front, as Python's `sum` adds a list. */
  function Total(xs: seq<real>): real
  {
    if xs == [] then 0.0 else xs[0] + Total(xs[1..])
  }

  /** Appending an amount adds it to the total. */
  lemma {:induction false} TotalAppend(xs: seq<real>, x: real)
    ensures Total(xs + [x]) == Total(xs) + x
  {
    if xs != [] {
      assert (xs + [x])[1..] == xs[1..] + [x];
      TotalAppend(xs[1..], x);
    } else {
      assert [] + [x] == [x];
    }
  }
}

/** Finite sets of positive integers: greatest element, sum, and the fact the
    sequence manager rests on — n distinct positive integers sum to at least
    n(n+1)/2, and to exactly that only when they are 1..n. */
module IntegerSets {

  /** 1..n */
  function Upto(n: nat): (s: set<nat>)
    ensures forall x :: x in s <==> 1 <= x <= n
  {
    if n == 0 then {} else Upto(n - 1) + {n}
  }

  predicate Positive(s: set<nat>) {
    0 !in s
  }

  predicate Greatest(s: set<nat>, m: nat) {
    m in s && forall x | x in s :: x <= m
  }

  predicate Least(s: set<nat>, m: nat) {
    m in s && forall x | x in s :: m <= x
  }

  lemma ExtremesExist(s: set<nat>)
    requires s != {}
    ensures (exists m: nat :: Greatest(s, m)) && (exists m: nat :: Least(s, m))
  {
    var x :| x in s;
    if s == {x} {
      assert Greatest(s, x) && Least(s, x);
    } else {
      ExtremesExist(s - {x});
      var g :| Greatest(s - {x}, g);
      var l :| Least(s - {x}, l);
      assert forall y | y in s :: y == x || y in s - {x};
      assert Greatest(s, if x < g then g else x);
      assert Least(s, if x < l then x else l);
    }
  }

  /** The greatest element, 0 for the empty set. */
  function MaxOf(s: set<nat>): (m: nat)
    ensures s != {} ==> m in s
    ensures forall x | x in s :: x <= m
    ensures s == {} ==> m == 0
  {
    if s == {} then 0
    else
      ExtremesExist(s);
      var m: nat :| Greatest(s, m);
      m
  }

  /** The first element in ascending order, as `std::set::begin` gives it. */
  function MinOf(s: set<nat>): (m: nat)
    requires s != {}
    ensures m in s
    ensures forall x | x in s :: m <= x
  {
    ExtremesExist(s);
    var m: nat :| Least(s, m);
    m
  }

  function Sum(s: set<nat>): nat {
    if s == {} then 0 else var m := MaxOf(s); m + Sum(s - {m})
  }

  function Triangle(n: nat): nat {
    n * (n + 1) / 2
  }

  lemma TriangleStep(n: nat)
    ensures Triangle(n + 1) == Triangle(n) + n + 1
  {
    assert (n + 1) * (n + 2) == n * (n + 1) + 2 * (n + 1);
  }

  lemma UptoSize(n: nat)
    ensures |Upto(n)| == n
  {
    if n <= 0 {
    } else {
      UptoSize(n - 1);
      assert Upto(n) == Upto(n - 1) + {n};
    }
  }

  lemma SubsetSize<T>(a: set<T>, b: set<T>)
    requires a <= b
    ensures |a| <= |b| && (|a| == |b| ==> a == b)
  {
    assert b == a + (b - a);
  }

  lemma Shorter<K, V>(m: map<K, V>, k: K)
    requires k in m
    ensures |m - {k}| == |m| - 1
  {
    assert (m - {k}).Keys == m.Keys - {k};
  }

  /** Summation does not depend on the order elements are taken. */
  lemma {:induction false} SumRemove(s: set<nat>, x: nat)
    requires x in s
    ensures Sum(s) == x + Sum(s - {x})
    decreases |s|
  {
    var m := MaxOf(s);
    if x == m {
    } else {
      var t := s - {m};
      SumRemove(t, x);
      assert m in s - {x} && MaxOf(s - {x}) in s;
      assert s - {x} - {m} == t - {x};
    }
  }

  lemma SumAdd(s: set<nat>, x: nat)
    requires x !in s
    ensures Sum(s + {x}) == Sum(s) + x
  {
    SumRemove(s + {x}, x);
    assert s + {x} - {x} == s;
  }

  lemma {:induction false} SumDisjoint(a: set<nat>, b: set<nat>)
    requires a !! b
    ensures Sum(a + b) == Sum(a) + Sum(b)
    decreases |b|
  {
    if b == {} {
      assert a + b == a;
    } else {
      var m := MaxOf(b);
      SumDisjoint(a, b - {m});
      assert a + b == a + (b - {m}) + {m};
      SumAdd(a + (b - {m}), m);
    }
  }

  lemma {:induction false} SumUpto(n: nat)
    ensures Sum(Upto(n)) == Triangle(n)
  {
    if n <= 0 {
    } else {
      SumUpto(n - 1);
      TriangleStep(n - 1);
      assert Upto(n) == Upto(n - 1) + {n};
      SumAdd(Upto(n - 1), n);
    }
  }

  lemma SumMonotone(a: set<nat>, b: set<nat>)
    requires a <= b
    ensures Sum(a) <= Sum(b)
  {
    SumDisjoint(a, b - a);
    assert a + (b - a) == b;
  }

  lemma {:induction false} SumBound(s: set<nat>, cap: nat)
    requires forall x | x in s :: x <= cap
    ensures Sum(s) <= |s| * cap
    decreases |s|
  {
    if s == {} {
    } else {
      var m := MaxOf(s);
      SumBound(s - {m}, cap);
      assert |s| * cap == (|s| - 1) * cap + cap;
    }
  }

  /** n distinct positive integers sum to at least 1 + ... + n, with equality
      exactly for 1..n themselves. */
  lemma {:induction false} TriangularSum(s: set<nat>)
    requires Positive(s)
    ensures Sum(s) >= Triangle(|s|)
    ensures Sum(s) == Triangle(|s|) <==> s == Upto(|s|)
    decreases |s|
  {
    hide Triangle, Upto;
    if s == {} {
      SumUpto(0);
    } else {
      var m, n := MaxOf(s), |s|;
      var t := s - {m};
      TriangularSum(t);
      TriangleStep(n - 1);
      SumUpto(n);
      assert m >= n by {
        assert s <= Upto(m);
        UptoSize(m);
        SubsetSize(s, Upto(m));
      }
      if m == n && t == Upto(n - 1) {
        assert s == t + {m};
        assert s == Upto(n);
      }
      if s == Upto(n) {
        assert n in s;
      }
    }
  }
}

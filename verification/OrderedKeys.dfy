/** The order in which `std::map<std::string, T>` is walked: byte strings in
    lexicographic order. */
module OrderedKeys {
  import opened Bytes

  type Key = seq<byte>

  predicate Before(a: Key, b: Key) {
    if b == [] then false
    else if a == [] then true
    else a[0] < b[0] || (a[0] == b[0] && Before(a[1..], b[1..]))
  }

  lemma {:induction false} BeforeTotal(a: Key, b: Key)
    ensures a == b || Before(a, b) || Before(b, a)
  {
    if a == [] || b == [] || a[0] != b[0] {
    } else {
      BeforeTotal(a[1..], b[1..]);
      assert a == [a[0]] + a[1..] && b == [b[0]] + b[1..];
    }
  }

  lemma {:induction false} BeforeTransitive(a: Key, b: Key, c: Key)
    requires Before(a, b) && Before(b, c)
    ensures Before(a, c)
  {
    if a == [] || a[0] != b[0] || b[0] != c[0] {
    } else {
      BeforeTransitive(a[1..], b[1..], c[1..]);
    }
  }

  lemma {:induction false} BeforeStrict(a: Key)
    ensures !Before(a, a)
  {
    if a == [] {
    } else {
      BeforeStrict(a[1..]);
    }
  }

  predicate First(s: set<Key>, k: Key) {
    k in s && forall x | x in s && x != k :: Before(k, x)
  }

  lemma {:induction false} FirstExists(s: set<Key>) returns (k: Key)
    requires s != {}
    ensures First(s, k)
    decreases |s|
  {
    k :| k in s;
    if s == {k} {
    } else {
      var f := FirstExists(s - {k});
      BeforeTotal(f, k);
      if Before(f, k) {
        k := f;
      } else {
        forall x | x in s && x != k
          ensures Before(k, x)
        {
          if x != f {
            assert x in s - {k};
            BeforeTransitive(k, f, x);
          }
        }
      }
    }
  }

  lemma FirstUnique(s: set<Key>, a: Key, b: Key)
    requires First(s, a) && First(s, b)
    ensures a == b
  {
    if a != b {
      BeforeTransitive(a, b, a);
      BeforeStrict(a);
    }
  }

  function FirstKey(s: set<Key>): (k: Key)
    requires s != {}
    ensures First(s, k)
  {
    assert exists k :: First(s, k) by {
      var k := FirstExists(s);
    }
    assert forall a, b | First(s, a) && First(s, b) :: a == b by {
      forall a, b | First(s, a) && First(s, b) ensures a == b {
        FirstUnique(s, a, b);
      }
    }
    var k :| First(s, k);
    k
  }

  /** The keys in order. */
  function Sorted(s: set<Key>): (r: seq<Key>)
    ensures |r| == |s| && (forall k :: k in r <==> k in s)
    decreases |s|
  {
    if s == {} then [] else [FirstKey(s)] + Sorted(s - {FirstKey(s)})
  }

  predicate Ascending(r: seq<Key>) {
    forall i, j | 0 <= i < j < |r| :: Before(r[i], r[j])
  }

  lemma {:induction false} SortedAscending(s: set<Key>)
    ensures Ascending(Sorted(s))
    decreases |s|
  {
    if s == {} {
    } else {
      var k := FirstKey(s);
      SortedAscending(s - {k});
      forall j | 0 < j < |Sorted(s)|
        ensures Before(k, Sorted(s)[j])
      {
        assert Sorted(s)[j] in Sorted(s - {k});
      }
    }
  }
}

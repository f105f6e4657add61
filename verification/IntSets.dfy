/** Extensionality for finite sets of integer ids and for maps keyed by them. */
module IntSets {

  lemma SplitBySign(s: set<int>)
    ensures s == (set x | x in s && x >= 0) + (set x | x in s && x < 0)
  {
  }

  lemma NonEmpty(s: set<int>)
    requires s != {}
    ensures exists x :: x in s
  {
    SplitBySign(s);
  }

  lemma NoElements(s: set<int>)
    requires forall x :: x !in s
    ensures s == {}
  {
    SplitBySign(s);
  }

  lemma SameElements(s: set<int>, t: set<int>)
    requires forall x :: x in s <==> x in t
    ensures s == t
  {
    NoElements(s - t);
    NoElements(t - s);
    assert s == (s - t) + s * t;
  }

  lemma {:induction false} RangeCount(s: set<int>, n: nat)
    requires forall x :: x in s <==> 0 <= x < n
    ensures |s| == n
  {
    if n == 0 {
      NoElements(s);
    } else {
      RangeCount(s - {n - 1}, n - 1);
    }
  }

  lemma SplitMap<V>(m: map<int, V>)
    ensures m == (map i | i in m && i >= 0 :: m[i]) + (map i | i in m && i < 0 :: m[i])
  {
  }

  lemma SameMap<V>(a: map<int, V>, b: map<int, V>)
    requires forall i :: i in a <==> i in b
    requires forall i :: i in a ==> a[i] == b[i]
    ensures a == b
  {
    SplitMap(a);
    SplitMap(b);
    assert (map i | i in a && i >= 0 :: a[i]) == (map i | i in b && i >= 0 :: b[i]);
    assert (map i | i in a && i < 0 :: a[i]) == (map i | i in b && i < 0 :: b[i]);
  }
}

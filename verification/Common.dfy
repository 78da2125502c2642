// Small definitions shared by several modules.

module Wrappers {
  datatype Option<+T> = None | Some(value: T)
}

module Time {
  // Times and durations are in nanoseconds.
  const SECOND := 1_000_000_000
}

module Collections {
  ghost predicate NoDuplicates<T>(s: seq<T>) {
    forall i, j :: 0 <= i < j < |s| ==> s[i] != s[j]
  }

  lemma Join3<T>(a: seq<T>, b: seq<T>, c: seq<T>)
    ensures a + b + c == a + (b + c)
  {
  }

  lemma ListedOnce<T>(s: seq<T>, x: T)
    requires NoDuplicates(s) && x in s
    ensures multiset(s)[x] == 1
  {
    var k :| 0 <= k < |s| && s[k] == x;
    assert s == s[..k] + [x] + s[k + 1..];
    assert x !in s[..k] && x !in s[k + 1..];
  }

  lemma SubsetSize<T>(a: set<T>, b: set<T>)
    requires a <= b
    ensures |a| <= |b|
    ensures a != b ==> |a| < |b|
  {
    assert b == a + (b - a);
    assert a != b ==> b - a != {};
  }

  // Some element of a set, as a value and as a lemma.
  ghost function Element<T>(s: set<T>): (x: T)
    requires s != {}
    ensures x in s
  {
    var x :| x in s; x
  }

  lemma Pick<T>(s: set<T>) returns (x: T)
    requires s != {}
    ensures x in s
  {
    x := Element(s);
  }

  // How many of the first n elements of s are marked.
  ghost function Marked<T>(s: seq<T>, n: nat, marked: set<T>): nat
    requires n <= |s|
  {
    if n == 0 then 0 else Marked(s, n - 1, marked) + if s[n - 1] in marked then 1 else 0
  }

  ghost function MarkedIn<T>(s: seq<T>, n: nat, marked: set<T>): set<T>
    requires n <= |s|
  {
    set x | x in marked && x in s[..n]
  }

  lemma {:induction false} MarkedCount<T>(s: seq<T>, n: nat, marked: set<T>)
    requires n <= |s| && NoDuplicates(s)
    ensures Marked(s, n, marked) == |MarkedIn(s, n, marked)|
  {
    if n > 0 {
      MarkedCount(s, n - 1, marked);
      MarkedNext(s, n - 1, marked);
    }
  }

  lemma MarkedNext<T>(s: seq<T>, n: nat, marked: set<T>)
    requires n < |s| && NoDuplicates(s)
    ensures s[n] !in MarkedIn(s, n, marked)
    ensures MarkedIn(s, n + 1, marked) == MarkedIn(s, n, marked) + if s[n] in marked then {s[n]} else {}
  {
    assert s[..n + 1] == s[..n] + [s[n]];
  }

  // A list without duplicates that holds every marked element shows each of them once.
  lemma MarkedSize<T>(s: seq<T>, n: nat, marked: set<T>)
    requires n == |s| && NoDuplicates(s) && forall x :: x in marked ==> x in s
    ensures Marked(s, n, marked) == |marked|
  {
    MarkedCount(s, n, marked);
    assert s[..n] == s;
    assert MarkedIn(s, n, marked) == marked;
  }

  lemma {:induction false} EnumerationSize<T>(s: seq<T>, all: set<T>)
    requires NoDuplicates(s) && forall x :: x in s <==> x in all
    ensures |s| == |all|
    decreases |s|
  {
    if s == [] {
      assert all == {};
    } else {
      var n := |s| - 1;
      assert s == s[..n] + [s[n]];
      EnumerationSize(s[..n], all - {s[n]});
    }
  }

  ghost predicate Injective<K, V>(m: map<K, V>) {
    forall j, k :: j in m && k in m && m[j] == m[k] ==> j == k
  }

  lemma {:induction false} InjectiveSize<K, V>(m: map<K, V>)
    requires Injective(m)
    ensures |m.Values| == |m.Keys|
    decreases |m|
  {
    if m == map[] {
      assert m.Values == {};
    } else {
      var k := Element(m.Keys);
      InjectiveSize(m - {k});
      RemoveKey(m, k);
    }
  }

  lemma RemoveKey<K, V>(m: map<K, V>, k: K)
    requires Injective(m) && k in m
    ensures (m - {k}).Keys == m.Keys - {k}
    ensures (m - {k}).Values == m.Values - {m[k]}
  {
    var rest := m - {k};
    forall v | v in m.Values && v != m[k] ensures v in rest.Values {
      var j :| j in m && m[j] == v;
      assert j in rest && rest[j] == v;
    }
  }

  lemma ValuesAre<K, V>(m: map<K, V>, vs: set<V>)
    requires forall k :: k in m ==> m[k] in vs
    requires forall v :: v in vs ==> exists k :: k in m && m[k] == v
    ensures m.Values == vs
  {
  }
}

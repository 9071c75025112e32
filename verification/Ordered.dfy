/** Iteration order of the ordered maps, and stable sorting. */
module Ordered {

  lemma {:induction false} MinExists(s: set<nat>) returns (m: nat)
    requires s != {}
    ensures m in s && forall k :: k in s ==> m <= k
  {
    var x :| x in s;
    if s == {x} {
      m := x;
    } else {
      assert s - {x} != {};
      m := MinExists(s - {x});
      assert forall k :: k in s ==> k == x || k in s - {x};
      if x < m { m := x; }
    }
  }

  /** The first key of an ordered map. */
  function MinOf(s: set<nat>): (m: nat)
    requires s != {}
    ensures m in s && forall k :: k in s ==> m <= k
  {
    assert exists m :: m in s && forall k :: k in s ==> m <= k by { var m := MinExists(s); }
    var m :| m in s && forall k :: k in s ==> m <= k;
    m
  }

  /** The keys of an ordered map in iteration order. */
  function Ascending(s: set<nat>): (r: seq<nat>)
    ensures |r| == |s|
    ensures forall k :: k in r <==> k in s
    ensures forall i, j :: 0 <= i < j < |r| ==> r[i] < r[j]
  {
    if s == {} then [] else
      var m := MinOf(s);
      var rest := Ascending(s - {m});
      assert forall k :: k in [m] + rest <==> k == m || k in rest;
      [m] + rest
  }

  /** The values of an ordered map in iteration order. */
  function ValuesInOrder<V>(m: map<nat, V>): (r: seq<V>)
    ensures |r| == |m|
    ensures forall i :: 0 <= i < |r| ==> Ascending(m.Keys)[i] in m && r[i] == m[Ascending(m.Keys)[i]]
  {
    ValuesAt(m, Ascending(m.Keys))
  }

  function ValuesAt<V>(m: map<nat, V>, keys: seq<nat>): (r: seq<V>)
    requires forall k :: k in keys ==> k in m
    ensures |r| == |keys| && forall i :: 0 <= i < |r| ==> keys[i] in m && r[i] == m[keys[i]]
  {
    seq(|keys|, i requires 0 <= i < |keys| && keys[i] in m => m[keys[i]])
  }

  lemma ValuesMembers<V>(m: map<nat, V>, v: V)
    ensures v in ValuesInOrder(m) <==> exists k :: k in m && m[k] == v
  {
    var keys, r := Ascending(m.Keys), ValuesInOrder(m);
    if k :| k in m && m[k] == v {
      assert k in keys;
      var i :| 0 <= i < |keys| && keys[i] == k;
      assert r[i] == v;
    }
  }

  ghost predicate TotalOrder<T(!new)>(le: (T, T) -> bool)
  {
    && (forall a, b :: le(a, b) || le(b, a))
    && (forall a, b, c :: le(a, b) && le(b, c) ==> le(a, c))
  }

  ghost predicate SortedBy<T>(s: seq<T>, le: (T, T) -> bool)
  {
    forall i, j :: 0 <= i < j < |s| ==> le(s[i], s[j])
  }

  function InsertBy<T>(x: T, s: seq<T>, le: (T, T) -> bool): (r: seq<T>)
    ensures multiset(r) == multiset([x]) + multiset(s)
    ensures |r| == |s| + 1
  {
    if s == [] || le(x, s[0]) then [x] + s
    else
      assert s == [s[0]] + s[1..];
      [s[0]] + InsertBy(x, s[1..], le)
  }

  /** Stable insertion sort. */
  function SortBy<T>(s: seq<T>, le: (T, T) -> bool): (r: seq<T>)
    ensures multiset(r) == multiset(s)
    ensures |r| == |s|
  {
    if s == [] then []
    else
      assert s == [s[0]] + s[1..];
      InsertBy(s[0], SortBy(s[1..], le), le)
  }

  lemma SortMembers<T>(s: seq<T>, le: (T, T) -> bool, x: T)
    ensures x in SortBy(s, le) <==> x in s
  {
    assert x in multiset(SortBy(s, le)) <==> x in multiset(s);
  }

  lemma {:induction false} InsertBySorted<T(!new)>(x: T, s: seq<T>, le: (T, T) -> bool)
    requires TotalOrder(le) && SortedBy(s, le)
    ensures SortedBy(InsertBy(x, s, le), le)
  {
    if s == [] || le(x, s[0]) {
    } else {
      InsertBySorted(x, s[1..], le);
      var tail := InsertBy(x, s[1..], le);
      forall j | 0 <= j < |tail| ensures le(s[0], tail[j]) {
        assert tail[j] in multiset(tail);
        assert tail[j] == x || tail[j] in s[1..];
      }
    }
  }

  lemma {:induction false} SortBySorted<T(!new)>(s: seq<T>, le: (T, T) -> bool)
    requires TotalOrder(le)
    ensures SortedBy(SortBy(s, le), le)
  {
    if s != [] {
      SortBySorted(s[1..], le);
      InsertBySorted(s[0], SortBy(s[1..], le), le);
    }
  }

  /** No two elements are related. */
  ghost predicate Apart<T>(s: seq<T>, same: (T, T) -> bool)
  {
    forall i, j :: 0 <= i < j < |s| ==> !same(s[i], s[j])
  }

  lemma {:induction false} InsertByApart<T(!new)>(x: T, s: seq<T>, le: (T, T) -> bool, same: (T, T) -> bool)
    requires forall a, b :: same(a, b) ==> same(b, a)
    requires Apart(s, same) && forall i :: 0 <= i < |s| ==> !same(x, s[i])
    ensures Apart(InsertBy(x, s, le), same)
  {
    if s != [] && !le(x, s[0]) {
      InsertByApart(x, s[1..], le, same);
      var tail := InsertBy(x, s[1..], le);
      forall j | 0 <= j < |tail| ensures !same(s[0], tail[j]) {
        assert tail[j] in multiset(tail);
        assert tail[j] == x || tail[j] in s[1..];
      }
    }
  }

  /** Sorting keeps elements apart. */
  lemma {:induction false} SortByApart<T(!new)>(s: seq<T>, le: (T, T) -> bool, same: (T, T) -> bool)
    requires forall a, b :: same(a, b) ==> same(b, a)
    requires Apart(s, same)
    ensures Apart(SortBy(s, le), same)
  {
    if s != [] {
      SortByApart(s[1..], le, same);
      var tail := SortBy(s[1..], le);
      forall j | 0 <= j < |tail| ensures !same(s[0], tail[j]) {
        assert tail[j] in multiset(tail);
        assert tail[j] in s[1..];
      }
      InsertByApart(s[0], tail, le, same);
    }
  }

  /** Strictly increasing in an asymmetric order. */
  ghost predicate Rising<T(!new)>(s: seq<T>, lt: (T, T) -> bool)
  {
    && (forall a, b :: !(lt(a, b) && lt(b, a)))
    && (forall i, j :: 0 <= i < j < |s| ==> lt(s[i], s[j]))
  }

  /** Two rising lists with the same elements are the same list. */
  lemma {:induction false} RisingUnique<T(!new)>(s: seq<T>, t: seq<T>, lt: (T, T) -> bool)
    requires Rising(s, lt) && Rising(t, lt)
    requires forall x :: x in s <==> x in t
    ensures s == t
  {
    assert |s| > 0 ==> s[|s| - 1] in s;
    assert |t| > 0 ==> t[|t| - 1] in t;
    if s != [] {
      var m, n := |s| - 1, |t| - 1;
      assert s[m] in t;
      assert t[n] in s;
      assert s[m] == t[n];
      forall x ensures x in s[..m] <==> x in t[..n] {
        assert s == s[..m] + [s[m]] && t == t[..n] + [t[n]];
        assert x in s <==> x in s[..m] || x == s[m];
        assert x in t <==> x in t[..n] || x == t[n];
        assert x in s[..m] ==> x != s[m];
        assert x in t[..n] ==> x != t[n];
      }
      RisingUnique(s[..m], t[..n], lt);
    }
  }

  lemma {:induction false} SubsetSize<T>(a: set<T>, b: set<T>)
    requires a <= b
    ensures |a| <= |b|
  {
    if a != {} {
      var x :| x in a;
      SubsetSize(a - {x}, b - {x});
    }
  }

  ghost predicate Distinct<T>(s: seq<T>)
  {
    forall i, j :: 0 <= i < j < |s| ==> s[i] != s[j]
  }

  lemma OneLess<K, V>(m: map<K, V>, k: K)
    requires k in m
    ensures |m - {k}| + 1 == |m|
  {
    assert (m - {k}).Keys == m.Keys - {k};
  }

  lemma Regroup<T>(a: seq<T>, b: seq<T>, c: seq<T>)
    ensures a + b + c == a + (b + c)
  {
  }
}

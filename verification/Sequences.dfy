/** Sequence and set helpers shared by the modules of the model. */
module Sequences {

  datatype Option<+T> = None | Some(value: T)

  /** The elements of s that keep accepts, in their order. */
  function Filter<T>(s: seq<T>, keep: T -> bool): seq<T> {
    if s == [] then []
    else
      var rest := Filter(s[..|s| - 1], keep);
      if keep(s[|s| - 1]) then rest + [s[|s| - 1]] else rest
  }

  predicate Distinct<T(==)>(s: seq<T>) {
    forall i, j :: 0 <= i < j < |s| ==> s[i] != s[j]
  }

  /** ks lists every element of keys once: one order in which a range loop may visit a map. */
  ghost predicate Enumerates<K(!new)>(ks: seq<K>, keys: set<K>) {
    && Distinct(ks)
    && forall k :: k in ks <==> k in keys
  }

  // Filtering keeps exactly the accepted occurrences.
  lemma {:induction false} FilterCount<T>(s: seq<T>, keep: T -> bool, x: T)
    ensures multiset(Filter(s, keep))[x] == if keep(x) then multiset(s)[x] else 0
  {
    if s != [] {
      FilterCount(s[..|s| - 1], keep, x);
      assert s == s[..|s| - 1] + [s[|s| - 1]];
    }
  }

  lemma FilterMembers<T(!new)>(s: seq<T>, keep: T -> bool)
    ensures forall x :: x in Filter(s, keep) <==> x in s && keep(x)
  {
    forall x ensures x in Filter(s, keep) <==> x in s && keep(x) {
      FilterCount(s, keep, x);
      assert x in s <==> x in multiset(s);
      assert x in Filter(s, keep) <==> x in multiset(Filter(s, keep));
    }
  }

  // A relation between earlier and later entries survives filtering.
  lemma {:induction false} FilterPairwise<T(!new)>(s: seq<T>, keep: T -> bool, before: (T, T) -> bool)
    requires forall i, j :: 0 <= i < j < |s| ==> before(s[i], s[j])
    ensures forall i, j :: 0 <= i < j < |Filter(s, keep)| ==> before(Filter(s, keep)[i], Filter(s, keep)[j])
  {
    if s != [] {
      var front, last := s[..|s| - 1], s[|s| - 1];
      FilterPairwise(front, keep, before);
      FilterMembers(front, keep);
      forall x | x in Filter(front, keep) ensures before(x, last) {
        var i :| 0 <= i < |front| && s[i] == x;
      }
    }
  }

  lemma FilterSnoc<T>(s: seq<T>, x: T, keep: T -> bool)
    ensures Filter(s + [x], keep) == if keep(x) then Filter(s, keep) + [x] else Filter(s, keep)
  {
    assert (s + [x])[..|s|] == s;
  }

  lemma EnumeratesExtend<K(!new)>(ks: seq<K>, keys: set<K>, k: K)
    requires Enumerates(ks, keys) && k !in keys
    ensures Enumerates(ks + [k], keys + {k})
  {
    forall x ensures x in ks + [k] <==> x in keys + {k} {
      assert x in ks + [k] <==> x in ks || x == k;
    }
  }

  lemma {:induction false} SomeEnumeration<K(!new)>(keys: set<K>) returns (ks: seq<K>)
    ensures Enumerates(ks, keys)
    decreases keys
  {
    if keys == {} {
      ks := [];
    } else {
      var k :| k in keys;
      var rest := SomeEnumeration(keys - {k});
      EnumeratesExtend(rest, keys - {k}, k);
      assert keys - {k} + {k} == keys;
      ks := rest + [k];
    }
  }

  lemma EnumerationFrom<K(!new)>(keys: set<K>, k: K) returns (ks: seq<K>)
    requires k in keys
    ensures Enumerates(ks, keys) && ks != [] && ks[0] == k
  {
    var rest := SomeEnumeration(keys - {k});
    ks := [k] + rest;
    forall x ensures x in ks <==> x in keys {
      assert x in ks <==> x == k || x in rest;
    }
  }

  // A list without repetitions has as many entries as elements.
  lemma {:induction false} DistinctSize<K(!new)>(ks: seq<K>, keys: set<K>)
    requires Enumerates(ks, keys)
    ensures |ks| == |keys|
  {
    if ks == [] {
      assert keys == {};
    } else {
      var n := |ks| - 1;
      var last := ks[n];
      forall x ensures x in ks[..n] <==> x in keys - {last} {
        if x in ks[..n] {
          var i :| 0 <= i < n && ks[i] == x;
        }
        assert x in ks <==> x in ks[..n] || x == last by { assert ks == ks[..n] + [last]; }
      }
      DistinctSize(ks[..n], keys - {last});
      assert last in ks;
    }
  }

  // Filtering changes nothing when every element is kept.
  lemma {:induction false} FilterAll<T>(s: seq<T>, keep: T -> bool)
    requires forall x :: x in s ==> keep(x)
    ensures Filter(s, keep) == s
  {
    if s != [] {
      FilterAll(s[..|s| - 1], keep);
      assert s == s[..|s| - 1] + [s[|s| - 1]];
    }
  }

  // Reordering a list without repetitions leaves it without repetitions.
  lemma DistinctByCount<T>(s: seq<T>, t: seq<T>)
    requires Distinct(s) && multiset(s) == multiset(t)
    ensures Distinct(t)
    ensures forall x :: x in t <==> x in s
  {
    forall i, j | 0 <= i < j < |t| ensures t[i] != t[j] {
      if t[i] == t[j] {
        TwiceCounted(t, i, j);
        OnceCounted(s, t[i]);
      }
    }
    forall x ensures x in t <==> x in s {
      assert x in t <==> x in multiset(t);
      assert x in s <==> x in multiset(s);
    }
  }

  lemma TwiceCounted<T>(t: seq<T>, i: nat, j: nat)
    requires i < j < |t| && t[i] == t[j]
    ensures multiset(t)[t[i]] >= 2
  {
    assert t == t[..j] + [t[j]] + t[j + 1..];
    assert t[i] in t[..j];
  }

  lemma {:induction false} OnceCounted<T>(s: seq<T>, x: T)
    requires Distinct(s)
    ensures multiset(s)[x] <= 1
  {
    if s != [] {
      var n := |s| - 1;
      assert s == s[..n] + [s[n]];
      OnceCounted(s[..n], x);
      if x == s[n] { assert x !in s[..n]; }
    }
  }

  // A list without repetitions is no longer than one that holds its elements.
  lemma Pigeonhole<T(!new)>(s: seq<T>, t: seq<T>)
    requires Distinct(s) && Distinct(t) && forall x :: x in s ==> x in t
    ensures |s| <= |t|
  {
    var ss, ts := set x | x in s, set x | x in t;
    DistinctSize(s, ss);
    DistinctSize(t, ts);
    SubsetSize(ss, ts);
  }

  lemma SubsetSize<T>(s: set<T>, t: set<T>)
    requires s <= t
    ensures |s| <= |t|
  {
    assert |t| == |s| + |t - s|;
  }

  // Two lists of the same elements, both in strict order, are the same list.
  lemma {:induction false} SortedUnique<T(!new)>(a: seq<T>, b: seq<T>, before: (T, T) -> bool)
    requires forall x, y :: before(x, y) ==> !before(y, x)
    requires forall i, j :: 0 <= i < j < |a| ==> before(a[i], a[j])
    requires forall i, j :: 0 <= i < j < |b| ==> before(b[i], b[j])
    requires forall x :: x in a <==> x in b
    ensures a == b
  {
    HasMember(a);
    HasMember(b);
    if a != [] {
      SameLast(a, b, before);
      var front, front' := a[..|a| - 1], b[..|b| - 1];
      FrontMembers(a, front, before);
      FrontMembers(b, front', before);
      SortedUnique(front, front', before);
      assert a == front + [a[|a| - 1]] && b == front' + [b[|b| - 1]];
    }
  }

  lemma HasMember<T>(s: seq<T>)
    ensures s != [] ==> exists x :: x in s
  {
    if s != [] { assert s[0] in s; }
  }

  lemma FrontMembers<T(!new)>(a: seq<T>, front: seq<T>, before: (T, T) -> bool)
    requires a != [] && front == a[..|a| - 1]
    requires forall x, y :: before(x, y) ==> !before(y, x)
    requires forall i, j :: 0 <= i < j < |a| ==> before(a[i], a[j])
    ensures forall x :: x in front <==> x in a && x != a[|a| - 1]
  {
    var n := |a| - 1;
    assert a == front + [a[n]];
    assert forall i :: 0 <= i < n ==> before(a[i], a[n]);
  }

  lemma SameLast<T(!new)>(a: seq<T>, b: seq<T>, before: (T, T) -> bool)
    requires a != [] && b != []
    requires forall x, y :: before(x, y) ==> !before(y, x)
    requires forall i, j :: 0 <= i < j < |a| ==> before(a[i], a[j])
    requires forall i, j :: 0 <= i < j < |b| ==> before(b[i], b[j])
    requires forall x :: x in a <==> x in b
    ensures a[|a| - 1] == b[|b| - 1]
  {
    var x, y := a[|a| - 1], b[|b| - 1];
    assert x in b && y in a;
    var k :| 0 <= k < |b| && b[k] == x;
    var l :| 0 <= l < |a| && a[l] == y;
    assert k < |b| - 1 ==> before(x, y);
    assert l < |a| - 1 ==> before(y, x);
  }

  /** The integers j with lo <= j < hi. */
  ghost function Interval(lo: int, hi: int): (r: set<int>)
    requires lo <= hi
    ensures forall j :: j in r <==> lo <= j < hi
    ensures |r| == hi - lo
    decreases hi - lo
  {
    if lo == hi then {} else Interval(lo, hi - 1) + {hi - 1}
  }
}

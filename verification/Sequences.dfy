/** Folds over histories. */
module Sequences {
  import opened Results

  ghost predicate Distinct<T(!new)>(s: seq<T>) {
    forall i, j :: 0 <= i < j < |s| ==> s[i] != s[j]
  }

  /** What `pick` finds in the elements of `s`, in their order. */
  function Collect<T, U>(s: seq<T>, pick: T -> Option<U>): seq<U> {
    if s == [] then [] else
    var before := Collect(s[..|s| - 1], pick);
    match pick(s[|s| - 1])
    case Some(u) => before + [u]
    case None => before
  }

  function Sum<T>(s: seq<T>, weight: T -> nat): nat {
    if s == [] then 0 else Sum(s[..|s| - 1], weight) + weight(s[|s| - 1])
  }

  /** How often neighbouring elements differ. */
  function Changes<T(==)>(s: seq<T>): nat {
    if |s| <= 1 then 0
    else Changes(s[..|s| - 1]) + if s[|s| - 1] != s[|s| - 2] then 1 else 0
  }

  lemma CollectAppend<T, U>(s: seq<T>, x: T, pick: T -> Option<U>)
    ensures Collect(s + [x], pick) == match pick(x) case Some(u) => Collect(s, pick) + [u] case None => Collect(s, pick)
  {
    assert (s + [x])[..|s|] == s;
  }

  lemma SumAppend<T>(s: seq<T>, x: T, weight: T -> nat)
    ensures Sum(s + [x], weight) == Sum(s, weight) + weight(x)
  {
    assert (s + [x])[..|s|] == s;
  }

  lemma ChangesAppend<T>(s: seq<T>, x: T)
    ensures Changes(s + [x]) == Changes(s) + if s != [] && s[|s| - 1] != x then 1 else 0
  {
    assert (s + [x])[..|s|] == s;
  }

  lemma {:induction false} CollectConcat<T, U>(s: seq<T>, t: seq<T>, pick: T -> Option<U>)
    ensures Collect(s + t, pick) == Collect(s, pick) + Collect(t, pick)
    decreases |t|
  {
    if t == [] {
      assert s + t == s && Collect(s, pick) + [] == Collect(s, pick);
    } else {
      hide Collect;
      var n := |t| - 1;
      assert t[..n] + [t[n]] == t && (s + t[..n]) + [t[n]] == s + t;
      CollectConcat(s, t[..n], pick);
      CollectAppend(s + t[..n], t[n], pick);
      CollectAppend(t[..n], t[n], pick);
    }
  }

  lemma {:induction false} CollectMembers<T(!new), U(!new)>(s: seq<T>, pick: T -> Option<U>)
    ensures forall u :: u in Collect(s, pick) <==> exists x :: x in s && pick(x) == Some(u)
  {
    if s != [] {
      var n := |s| - 1;
      CollectMembers(s[..n], pick);
      assert s == s[..n] + [s[n]];
    }
  }

  lemma {:induction false} DistinctCounts<T(!new)>(s: seq<T>)
    requires Distinct(s)
    ensures forall x :: multiset(s)[x] <= 1
  {
    if s != [] {
      var n := |s| - 1;
      DistinctCounts(s[..n]);
      assert s == s[..n] + [s[n]];
      assert s[n] !in multiset(s[..n]);
    }
  }

  lemma RepeatedCounts<T(!new)>(s: seq<T>, i: nat, j: nat)
    requires i < j < |s| && s[i] == s[j]
    ensures multiset(s)[s[i]] >= 2
  {
    assert s == s[..j] + s[j..];
    assert s[..j][i] in multiset(s[..j]) && s[j..][0] in multiset(s[j..]);
  }

  /** A permutation of distinct elements has distinct elements. */
  lemma DistinctPermuted<T(!new)>(a: seq<T>, b: seq<T>)
    requires Distinct(a) && multiset(a) == multiset(b)
    ensures Distinct(b)
  {
    DistinctCounts(a);
    if i, j :| 0 <= i < j < |b| && b[i] == b[j] {
      RepeatedCounts(b, i, j);
    }
  }

  lemma {:induction false} DistinctFits<T(!new)>(s: seq<T>, bound: set<T>)
    requires Distinct(s) && forall x :: x in s ==> x in bound
    ensures |s| <= |bound|
  {
    if s != [] {
      var n := |s| - 1;
      assert s[n] in bound;
      DistinctFits(s[..n], bound - {s[n]});
    }
  }

  /** Picking elements as they are keeps any order that the whole has. */
  lemma {:induction false} CollectOrdered<T(!new)>(s: seq<T>, pick: T -> Option<T>, less: (T, T) -> bool)
    requires forall x, y :: pick(x) == Some(y) ==> x == y
    requires forall i, j :: 0 <= i < j < |s| ==> less(s[i], s[j])
    ensures forall i, j :: 0 <= i < j < |Collect(s, pick)| ==> less(Collect(s, pick)[i], Collect(s, pick)[j])
  {
    if s != [] {
      var n := |s| - 1;
      CollectOrdered(s[..n], pick, less);
      CollectMembers(s[..n], pick);
      var before := Collect(s[..n], pick);
      forall i | 0 <= i < |before|
        ensures before[i] in s[..n]
      {
        assert before[i] in before;
      }
    }
  }

  function Flatten<T>(parts: seq<seq<T>>): seq<T> {
    if parts == [] then [] else parts[0] + Flatten(parts[1..])
  }

  lemma FlattenCons<T>(first: seq<T>, rest: seq<seq<T>>)
    ensures Flatten([first] + rest) == first + Flatten(rest)
  {
    assert ([first] + rest)[1..] == rest;
  }

  ghost predicate Increasing<T(!new)>(s: seq<T>, key: T -> int) {
    forall i, j :: 0 <= i < j < |s| ==> key(s[i]) < key(s[j])
  }

  lemma LeastFirst<T(!new)>(s: seq<T>, key: T -> int)
    requires Increasing(s, key) && s != []
    ensures forall x :: x in s ==> key(s[0]) <= key(x)
    ensures forall x :: x in s[1..] <==> x in s && key(s[0]) < key(x)
  {
    assert s == [s[0]] + s[1..];
  }

  lemma SameLeast<T(!new)>(a: seq<T>, b: seq<T>, key: T -> int)
    requires Increasing(a, key) && Increasing(b, key) && a != [] && b != []
    requires forall x :: x in a <==> x in b
    ensures a[0] == b[0] && forall x :: x in a[1..] <==> x in b[1..]
  {
    LeastFirst(a, key);
    LeastFirst(b, key);
    hide Increasing;
    assert a[0] in b && b[0] in a;
    assert a[0] !in b[1..];
    assert b == [b[0]] + b[1..];
  }

  /** Strictly increasing sequences of the same elements are equal. */
  lemma {:induction false} IncreasingUnique<T(!new)>(a: seq<T>, b: seq<T>, key: T -> int)
    requires Increasing(a, key) && Increasing(b, key)
    requires forall x :: x in a <==> x in b
    ensures a == b
    decreases |a|
  {
    assert forall i :: 0 <= i < |a| ==> a[i] in b;
    assert forall i :: 0 <= i < |b| ==> b[i] in a;
    if a != [] && b != [] {
      SameLeast(a, b, key);
      IncreasingUnique(a[1..], b[1..], key);
      assert a == [a[0]] + a[1..] && b == [b[0]] + b[1..];
    }
  }
}

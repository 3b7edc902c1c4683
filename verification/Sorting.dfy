/** A stable sort by a total preorder, characterised as the only sequence that is ordered and
    keeps the order of equivalent elements. */
module Sorting {

  ghost predicate TotalPreorder<T(!new)>(leq: (T, T) -> bool) {
    && (forall x, y :: leq(x, y) || leq(y, x))
    && (forall x, y, z :: leq(x, y) && leq(y, z) ==> leq(x, z))
  }

  ghost predicate Ordered<T>(s: seq<T>, leq: (T, T) -> bool) {
    forall i, j :: 0 <= i < j < |s| ==> leq(s[i], s[j])
  }

  /** Equivalent elements of `s` are equal: no two of them share a key. */
  ghost predicate DistinctKeys<T>(s: seq<T>, leq: (T, T) -> bool) {
    forall i, j :: 0 <= i < |s| && 0 <= j < |s| && leq(s[i], s[j]) && leq(s[j], s[i]) ==> s[i] == s[j]
  }

  function Insert<T>(x: T, s: seq<T>, leq: (T, T) -> bool): seq<T> {
    if s == [] || leq(x, s[0]) then [x] + s else [s[0]] + Insert(x, s[1..], leq)
  }

  function StableSort<T>(s: seq<T>, leq: (T, T) -> bool): seq<T> {
    if s == [] then [] else Insert(s[0], StableSort(s[1..], leq), leq)
  }

  /** The elements equivalent to `z`, in their order. */
  function Class<T>(s: seq<T>, z: T, leq: (T, T) -> bool): seq<T> {
    if s == [] then []
    else if leq(s[0], z) && leq(z, s[0]) then [s[0]] + Class(s[1..], z, leq)
    else Class(s[1..], z, leq)
  }

  /** Equivalent elements come in the same order. */
  ghost predicate SameClasses<T(!new)>(a: seq<T>, b: seq<T>, leq: (T, T) -> bool) {
    forall z :: Class(a, z, leq) == Class(b, z, leq)
  }

  lemma {:induction false} InsertPermutes<T>(x: T, s: seq<T>, leq: (T, T) -> bool)
    ensures multiset(Insert(x, s, leq)) == multiset([x]) + multiset(s)
  {
    if s != [] && !leq(x, s[0]) {
      InsertPermutes(x, s[1..], leq);
      assert s == [s[0]] + s[1..];
    }
  }

  lemma {:induction false} SortPermutes<T>(s: seq<T>, leq: (T, T) -> bool)
    ensures multiset(StableSort(s, leq)) == multiset(s)
    ensures |StableSort(s, leq)| == |s|
  {
    if s != [] {
      SortPermutes(s[1..], leq);
      InsertPermutes(s[0], StableSort(s[1..], leq), leq);
      assert s == [s[0]] + s[1..];
    }
    assert |multiset(StableSort(s, leq))| == |StableSort(s, leq)|;
  }

  lemma {:induction false} InsertOrders<T(!new)>(x: T, s: seq<T>, leq: (T, T) -> bool)
    requires TotalPreorder(leq) && Ordered(s, leq)
    ensures Ordered(Insert(x, s, leq), leq)
  {
    if s != [] && !leq(x, s[0]) {
      InsertOrders(x, s[1..], leq);
      var rest := Insert(x, s[1..], leq);
      InsertPermutes(x, s[1..], leq);
      forall y | y in rest
        ensures leq(s[0], y)
      {
        assert y in multiset(rest);
        assert y == x || y in s[1..];
      }
    }
  }

  lemma {:induction false} SortOrders<T(!new)>(s: seq<T>, leq: (T, T) -> bool)
    requires TotalPreorder(leq)
    ensures Ordered(StableSort(s, leq), leq)
  {
    if s != [] {
      SortOrders(s[1..], leq);
      InsertOrders(s[0], StableSort(s[1..], leq), leq);
    }
  }

  lemma {:induction false} InsertStable<T(!new)>(x: T, s: seq<T>, z: T, leq: (T, T) -> bool)
    requires TotalPreorder(leq)
    ensures Class(Insert(x, s, leq), z, leq) == Class([x] + s, z, leq)
  {
    if s != [] && !leq(x, s[0]) {
      InsertStable(x, s[1..], z, leq);
      var rest := Insert(x, s[1..], leq);
      assert ([s[0]] + rest)[1..] == rest;
      assert ([x] + s[1..])[1..] == s[1..];
      assert ([x] + s)[1..] == s;
    }
  }

  lemma {:induction false} SortStable<T(!new)>(s: seq<T>, z: T, leq: (T, T) -> bool)
    requires TotalPreorder(leq)
    ensures Class(StableSort(s, leq), z, leq) == Class(s, z, leq)
  {
    if s != [] {
      SortStable(s[1..], z, leq);
      var rest := StableSort(s[1..], leq);
      InsertStable(s[0], rest, z, leq);
      assert ([s[0]] + rest)[1..] == rest;
    }
  }

  /** Equivalent elements stand in a relation that holds along the sequence. */
  ghost predicate TiesKept<T>(s: seq<T>, leq: (T, T) -> bool, before: (T, T) -> bool) {
    forall i, j :: 0 <= i < j < |s| && leq(s[i], s[j]) && leq(s[j], s[i]) ==> before(s[i], s[j])
  }

  lemma {:induction false} InsertKeepsTies<T(!new)>(x: T, s: seq<T>, leq: (T, T) -> bool, before: (T, T) -> bool)
    requires TiesKept(s, leq, before) && forall y :: y in s ==> before(x, y)
    ensures TiesKept(Insert(x, s, leq), leq, before)
  {
    if s != [] && !leq(x, s[0]) {
      InsertKeepsTies(x, s[1..], leq, before);
      InsertPermutes(x, s[1..], leq);
      var rest := Insert(x, s[1..], leq);
      forall j | 0 <= j < |rest| && leq(s[0], rest[j]) && leq(rest[j], s[0])
        ensures before(s[0], rest[j])
      {
        assert rest[j] in multiset(rest);
        assert rest[j] == x || rest[j] in s[1..];
      }
    }
  }

  /** Whatever holds along a sequence holds along the ties of its stable sort. */
  lemma {:induction false} SortKeepsTies<T(!new)>(s: seq<T>, leq: (T, T) -> bool, before: (T, T) -> bool)
    requires forall i, j :: 0 <= i < j < |s| ==> before(s[i], s[j])
    ensures TiesKept(StableSort(s, leq), leq, before)
  {
    if s != [] {
      SortKeepsTies(s[1..], leq, before);
      SortPermutes(s[1..], leq);
      var rest := StableSort(s[1..], leq);
      forall y | y in rest
        ensures before(s[0], y)
      {
        assert y in multiset(rest);
        assert y in s[1..];
      }
      InsertKeepsTies(s[0], rest, leq, before);
    }
  }

  lemma {:induction false} ClassHead<T(!new)>(s: seq<T>, z: T, leq: (T, T) -> bool)
    requires TotalPreorder(leq) && Ordered(s, leq)
    ensures forall x :: x in Class(s, z, leq) ==> x in s && leq(x, z) && leq(z, x)
    ensures (exists x :: x in s && leq(x, z) && leq(z, x)) ==> Class(s, z, leq) != []
  {
    if s != [] {
      ClassHead(s[1..], z, leq);
    }
  }

  /** Order and stability determine the result. */
  lemma {:induction false} StableOrderUnique<T(!new)>(a: seq<T>, b: seq<T>, leq: (T, T) -> bool)
    requires TotalPreorder(leq) && Ordered(a, leq) && Ordered(b, leq)
    requires forall z :: Class(a, z, leq) == Class(b, z, leq)
    ensures a == b
    decreases |a|
  {
    assert b != [] ==> Class(b, b[0], leq) != [];
    assert a != [] ==> Class(a, a[0], leq) != [];
    if a == [] || b == [] {
    } else {
      ClassHead(b, a[0], leq);
      ClassHead(a, b[0], leq);
      var x := Class(b, a[0], leq)[0];
      assert a[0] in Class(a, a[0], leq) && x in b && leq(b[0], x);
      var y := Class(a, b[0], leq)[0];
      assert b[0] in Class(b, b[0], leq) && y in a && leq(a[0], y);
      assert Class(a, a[0], leq)[0] == a[0] && Class(b, a[0], leq)[0] == b[0];
      assert a[0] == b[0];
      forall z
        ensures Class(a[1..], z, leq) == Class(b[1..], z, leq)
      {
        if leq(a[0], z) && leq(z, a[0]) {
          assert Class(a, z, leq)[1..] == Class(a[1..], z, leq);
          assert Class(b, z, leq)[1..] == Class(b[1..], z, leq);
        } else {
          assert Class(a, z, leq) == Class(a[1..], z, leq);
          assert Class(b, z, leq) == Class(b[1..], z, leq);
        }
      }
      StableOrderUnique(a[1..], b[1..], leq);
      assert a == [a[0]] + a[1..] && b == [b[0]] + b[1..];
    }
  }

  /** The sorted sequence is the only one that is ordered and keeps each class as it was. */
  lemma SortLaw<T(!new)>(s: seq<T>, t: seq<T>, leq: (T, T) -> bool)
    requires TotalPreorder(leq)
    ensures t == StableSort(s, leq) <==> Ordered(t, leq) && SameClasses(t, s, leq)
  {
    SortOrders(s, leq);
    forall z
      ensures Class(StableSort(s, leq), z, leq) == Class(s, z, leq)
    {
      SortStable(s, z, leq);
    }
    if Ordered(t, leq) && SameClasses(t, s, leq) {
      StableOrderUnique(t, StableSort(s, leq), leq);
    }
  }

  /** An insertion puts `x` before position `p` of `s`, past elements that are not as large. */
  ghost predicate Placed<T(!new)>(x: T, s: seq<T>, sorted: seq<T>, p: nat, leq: (T, T) -> bool) {
    p <= |s| && sorted == s[..p] + [x] + s[p..] && forall h :: 0 <= h < p ==> !leq(x, s[h])
  }

  lemma {:induction false} InsertPlace<T(!new)>(x: T, s: seq<T>, leq: (T, T) -> bool) returns (p: nat)
    ensures Placed(x, s, Insert(x, s, leq), p, leq)
  {
    if s == [] || leq(x, s[0]) {
      p := 0;
      assert s[..0] + [x] + s[0..] == [x] + s;
    } else {
      var q := InsertPlace(x, s[1..], leq);
      p := q + 1;
      PlacedBehind(x, s, Insert(x, s[1..], leq), q, leq);
    }
  }

  lemma PlacedBehind<T(!new)>(x: T, s: seq<T>, sorted: seq<T>, q: nat, leq: (T, T) -> bool)
    requires s != [] && !leq(x, s[0]) && Placed(x, s[1..], sorted, q, leq)
    ensures Placed(x, s, [s[0]] + sorted, q + 1, leq)
  {
    assert s[..q + 1] == [s[0]] + s[1..][..q] && s[q + 1..] == s[1..][q..];
    assert forall h :: 0 < h < q + 1 ==> s[h] == s[1..][h - 1];
  }

  /** No open element is smaller than the one at `k`, nor as small and at an earlier position. */
  ghost predicate LeastAt<T(!new)>(s: seq<T>, leq: (T, T) -> bool, open: T -> bool, k: nat) {
    && k < |s| && open(s[k])
    && forall j :: 0 <= j < |s| && j != k && open(s[j]) ==> leq(s[k], s[j]) && (leq(s[j], s[k]) ==> k < j)
  }

  lemma {:induction false} HeadIsLeast<T(!new)>(s: seq<T>, rest: seq<T>, sorted: seq<T>, p: nat, leq: (T, T) -> bool,
      open: T -> bool)
    requires s != [] && multiset(rest) == multiset(s[1..]) && Placed(s[0], rest, sorted, p, leq)
    requires Ordered(sorted, leq) && open(s[0]) && forall h :: 0 <= h < p ==> !open(sorted[h])
    ensures LeastAt(s, leq, open, 0)
  {
    forall j | 0 < j < |s| && open(s[j])
      ensures leq(s[0], s[j])
    {
      assert s[j] == s[1..][j - 1] && s[1..][j - 1] in multiset(s[1..]);
      assert s[j] in multiset(rest);
      var q :| 0 <= q < |rest| && rest[q] == s[j];
      assert sorted[if q < p then q else q + 1] == rest[q];
      assert sorted[p] == s[0];
    }
  }

  lemma TailIsLeast<T(!new)>(s: seq<T>, leq: (T, T) -> bool, open: T -> bool, m: nat)
    requires s != [] && LeastAt(s[1..], leq, open, m)
    requires open(s[0]) ==> leq(s[m + 1], s[0]) && !leq(s[0], s[m + 1])
    ensures LeastAt(s, leq, open, m + 1)
  {
    assert forall j :: 0 < j < |s| ==> s[j] == s[1..][j - 1];
  }

  /** The open element that comes first once sorted is the least one as given, by the order and then by
      position. */
  lemma {:induction false} FirstOpenIsLeast<T(!new)>(s: seq<T>, leq: (T, T) -> bool, open: T -> bool, i: nat)
      returns (k: nat)
    requires TotalPreorder(leq) && i < |StableSort(s, leq)|
    requires open(StableSort(s, leq)[i]) && forall h :: 0 <= h < i ==> !open(StableSort(s, leq)[h])
    ensures LeastAt(s, leq, open, k) && s[k] == StableSort(s, leq)[i]
    decreases |s|
  {
    var x, rest, sorted := s[0], StableSort(s[1..], leq), StableSort(s, leq);
    SortOrders(s, leq);
    SortPermutes(s[1..], leq);
    var p := InsertPlace(x, rest, leq);
    hide StableSort, LeastAt, TotalPreorder;
    assert sorted[p] == x;
    if i == p {
      HeadIsLeast(s, rest, sorted, p, leq, open);
      k := 0;
    } else {
      var n := if i < p then i else i - 1;
      assert rest[n] == sorted[i];
      forall h | 0 <= h < n
        ensures !open(rest[h])
      {
        assert rest[h] == sorted[if h < p then h else h + 1];
      }
      var m := FirstOpenIsLeast(s[1..], leq, open, n);
      InRange(s[1..], leq, open, m);
      assert s[m + 1] == s[1..][m] == sorted[i];
      TailIsLeast(s, leq, open, m);
      k := m + 1;
    }
  }

  lemma InRange<T(!new)>(s: seq<T>, leq: (T, T) -> bool, open: T -> bool, k: nat)
    requires LeastAt(s, leq, open, k)
    ensures k < |s|
  {
  }

  lemma SortFixes<T(!new)>(s: seq<T>, leq: (T, T) -> bool)
    requires TotalPreorder(leq)
    ensures StableSort(s, leq) == s <==> Ordered(s, leq)
  {
    SortLaw(s, s, leq);
  }

  lemma SameLeast<T(!new)>(a: seq<T>, b: seq<T>, leq: (T, T) -> bool)
    requires TotalPreorder(leq) && Ordered(a, leq) && Ordered(b, leq)
    requires multiset(a) == multiset(b) && DistinctKeys(a, leq) && a != []
    ensures b != [] && a[0] == b[0]
  {
    assert a[0] in multiset(b);
    var j :| 0 <= j < |b| && b[j] == a[0];
    assert b[0] in multiset(a);
    var i :| 0 <= i < |a| && a[i] == b[0];
    assert leq(a[0], a[i]) && leq(b[0], b[j]);
  }

  /** With distinct keys the order given does not matter. */
  lemma {:induction false} OrderedPermutations<T(!new)>(a: seq<T>, b: seq<T>, leq: (T, T) -> bool)
    requires TotalPreorder(leq) && Ordered(a, leq) && Ordered(b, leq)
    requires multiset(a) == multiset(b) && DistinctKeys(a, leq)
    ensures a == b
    decreases |a|
  {
    assert |multiset(a)| == |a| && |multiset(b)| == |b|;
    if a != [] {
      assert a[0] == b[0] by { SameLeast(a, b, leq); }
      assert a == [a[0]] + a[1..] && b == [b[0]] + b[1..];
      assert multiset(a[1..]) == multiset(a) - multiset{a[0]};
      assert multiset(b[1..]) == multiset(b) - multiset{b[0]};
      OrderedPermutations(a[1..], b[1..], leq);
    }
  }

  lemma SortIgnoresOrder<T(!new)>(s: seq<T>, t: seq<T>, leq: (T, T) -> bool)
    requires TotalPreorder(leq) && multiset(s) == multiset(t) && DistinctKeys(s, leq)
    ensures StableSort(s, leq) == StableSort(t, leq)
  {
    SortOrders(s, leq);
    SortOrders(t, leq);
    SortPermutes(s, leq);
    SortPermutes(t, leq);
    var a := StableSort(s, leq);
    forall i, j | 0 <= i < |a| && 0 <= j < |a| && leq(a[i], a[j]) && leq(a[j], a[i])
      ensures a[i] == a[j]
    {
      assert a[i] in multiset(a) && a[j] in multiset(a);
      assert a[i] in s && a[j] in s;
    }
    OrderedPermutations(a, StableSort(t, leq), leq);
  }

  /* ---------- Lexicographic order of octet strings ---------- */

  predicate LexLeq(a: seq<int>, b: seq<int>) {
    if a == [] then true
    else if b == [] then false
    else if a[0] != b[0] then a[0] < b[0]
    else LexLeq(a[1..], b[1..])
  }

  lemma {:induction false} LexTotal(a: seq<int>, b: seq<int>)
    ensures LexLeq(a, b) || LexLeq(b, a)
    ensures LexLeq(a, b) && LexLeq(b, a) ==> a == b
  {
    if a != [] && b != [] && a[0] == b[0] {
      LexTotal(a[1..], b[1..]);
      assert a == [a[0]] + a[1..] && b == [b[0]] + b[1..];
    }
  }

  lemma {:induction false} LexTransitive(a: seq<int>, b: seq<int>, c: seq<int>)
    requires LexLeq(a, b) && LexLeq(b, c)
    ensures LexLeq(a, c)
  {
    if a != [] && b != [] && c != [] && a[0] == b[0] == c[0] {
      LexTransitive(a[1..], b[1..], c[1..]);
    }
  }
}

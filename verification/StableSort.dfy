/**
 Stable sorting of sequences and arrays by a total preorder.

 The node sorts with the standard library's stable `sort_by`.  `Sort` is an
 executable reference for it: `StableSortUnique` shows that every ordered, stable
 rearrangement of a sequence is that sequence's `Sort`, so nothing here depends on
 the algorithm that the library happens to use.
 */
module StableSort {

  ghost predicate TotalPreorder<T(!new)>(leq: (T, T) -> bool) {
    && (forall x, y :: leq(x, y) || leq(y, x))
    && (forall x, y, z :: leq(x, y) && leq(y, z) ==> leq(x, z))
  }

  ghost predicate Ordered<T>(leq: (T, T) -> bool, s: seq<T>) {
    forall i, j :: 0 <= i < j < |s| ==> leq(s[i], s[j])
  }

  /** Inserts `x` behind every element it does not have to precede. */
  function Insert<T>(leq: (T, T) -> bool, s: seq<T>, x: T): seq<T> {
    if s == [] then [x]
    else if leq(s[|s| - 1], x) then s + [x]
    else Insert(leq, s[..|s| - 1], x) + [s[|s| - 1]]
  }

  function Sort<T>(leq: (T, T) -> bool, s: seq<T>): seq<T> {
    if s == [] then []
    else Insert(leq, Sort(leq, s[..|s| - 1]), s[|s| - 1])
  }

  function Map<T, U>(f: T -> U, s: seq<T>): seq<U> {
    seq(|s|, i requires 0 <= i < |s| => f(s[i]))
  }

  function Filter<T>(p: T -> bool, s: seq<T>): seq<T> {
    if s == [] then []
    else Filter(p, s[..|s| - 1]) + (if p(s[|s| - 1]) then [s[|s| - 1]] else [])
  }

  /** The number of elements of `s` that satisfy `p`. */
  function Count<T>(p: T -> bool, s: seq<T>): nat {
    if s == [] then 0
    else Count(p, s[..|s| - 1]) + (if p(s[|s| - 1]) then 1 else 0)
  }

  // ----- The sort in place -----

  method SortInPlace<T>(a: array<T>, leq: (T, T) -> bool)
    modifies a
    ensures a[..] == Sort(leq, old(a[..]))
  {
    ghost var was := a[..];
    var i := 0;
    while i < a.Length
      invariant 0 <= i <= a.Length
      invariant a[..i] == Sort(leq, was[..i])
      invariant a[i..] == was[i..]
    {
      assert was[i] == a[i..][0] == a[i];
      assert was[..i + 1][..i] == was[..i];
      assert was[i + 1..] == a[i..][1..] == a[i + 1..];
      InsertLast(a, leq, i);
      i := i + 1;
    }
    assert a[..i] == a[..] && was[..i] == was;
  }

  /** Moves `a[i]` down to its place in the prefix before it. */
  method InsertLast<T>(a: array<T>, leq: (T, T) -> bool, i: nat)
    requires i < a.Length
    modifies a
    ensures a[..i + 1] == Insert(leq, old(a[..i]), old(a[i]))
    ensures a[i + 1..] == old(a[i + 1..])
  {
    hide Insert;
    ghost var p := a[..i];
    var x := a[i];
    var j := i;
    assert p[..i] + [] == p[..i] == p;
    while j > 0 && !leq(a[j - 1], x)
      invariant 0 <= j <= i
      invariant a[..j] == p[..j]
      invariant a[j + 1..i + 1] == p[j..]
      invariant a[i + 1..] == old(a[i + 1..])
      invariant Insert(leq, p, x) == Insert(leq, p[..j], x) + p[j..]
    {
      assert a[j - 1] == a[..j][j - 1] == p[j - 1];
      InsertBefore(leq, p, x, j);
      ShiftOne(a[..j], p, j);
      a[j] := a[j - 1];
      assert a[j..i + 1] == [a[j]] + a[j + 1..i + 1];
      j := j - 1;
    }
    assert j > 0 ==> a[..j][j - 1] == p[j - 1];
    InsertHere(leq, p, x, j);
    a[j] := x;
    assert a[..i + 1] == a[..j] + [x] + a[j + 1..i + 1];
  }

  lemma ShiftOne<T>(front: seq<T>, p: seq<T>, j: nat)
    requires 0 < j <= |p| && front == p[..j]
    ensures front[..j - 1] == p[..j - 1] && [p[j - 1]] + p[j..] == p[j - 1..]
  {
  }

  lemma InsertBefore<T>(leq: (T, T) -> bool, p: seq<T>, x: T, j: nat)
    requires 0 < j <= |p| && !leq(p[j - 1], x)
    ensures Insert(leq, p[..j], x) + p[j..] == Insert(leq, p[..j - 1], x) + p[j - 1..]
  {
    assert p[..j][..j - 1] == p[..j - 1];
    assert p[j - 1..] == [p[j - 1]] + p[j..];
  }

  lemma InsertHere<T>(leq: (T, T) -> bool, p: seq<T>, x: T, j: nat)
    requires j <= |p| && (j == 0 || leq(p[j - 1], x))
    ensures Insert(leq, p[..j], x) == p[..j] + [x]
  {
  }

  // ----- Order, contents and stability of the result -----

  lemma {:induction false} InsertContents<T>(leq: (T, T) -> bool, s: seq<T>, x: T)
    ensures multiset(Insert(leq, s, x)) == multiset(s) + multiset{x}
    ensures |Insert(leq, s, x)| == |s| + 1
  {
    if s == [] {
    } else {
      InsertContents(leq, s[..|s| - 1], x);
      assert s == s[..|s| - 1] + [s[|s| - 1]];
    }
  }

  lemma {:induction false} SortContents<T>(leq: (T, T) -> bool, s: seq<T>)
    ensures multiset(Sort(leq, s)) == multiset(s)
    ensures |Sort(leq, s)| == |s|
  {
    if s == [] {
    } else {
      SortContents(leq, s[..|s| - 1]);
      InsertContents(leq, Sort(leq, s[..|s| - 1]), s[|s| - 1]);
      assert s == s[..|s| - 1] + [s[|s| - 1]];
    }
  }

  lemma {:induction false} InsertOrdered<T(!new)>(leq: (T, T) -> bool, s: seq<T>, x: T)
    requires TotalPreorder(leq) && Ordered(leq, s)
    ensures Ordered(leq, Insert(leq, s, x))
  {
    if s == [] || leq(s[|s| - 1], x) {
    } else {
      var last := s[|s| - 1];
      var r := Insert(leq, s[..|s| - 1], x);
      InsertOrdered(leq, s[..|s| - 1], x);
      InsertContents(leq, s[..|s| - 1], x);
      forall i | 0 <= i < |r| ensures leq(r[i], last) {
        assert r[i] in multiset(r);
        assert r[i] == x || r[i] in s[..|s| - 1];
      }
    }
  }

  lemma {:induction false} SortOrdered<T(!new)>(leq: (T, T) -> bool, s: seq<T>)
    requires TotalPreorder(leq)
    ensures Ordered(leq, Sort(leq, s))
  {
    if s == [] {
    } else {
      SortOrdered(leq, s[..|s| - 1]);
      InsertOrdered(leq, Sort(leq, s[..|s| - 1]), s[|s| - 1]);
    }
  }

  /** `x` and `y` are tied: the sort may not reorder them. */
  predicate Tied<T>(leq: (T, T) -> bool, x: T, y: T) {
    leq(x, y) && leq(y, x)
  }

  function Ties<T>(leq: (T, T) -> bool, p: T, s: seq<T>): seq<T> {
    Filter(x => Tied(leq, p, x), s)
  }

  lemma {:induction false} InsertStable<T(!new)>(leq: (T, T) -> bool, s: seq<T>, x: T, p: T)
    requires TotalPreorder(leq)
    ensures Ties(leq, p, Insert(leq, s, x)) == Ties(leq, p, s + [x])
  {
    if s == [] || leq(s[|s| - 1], x) {
    } else {
      var front, last := s[..|s| - 1], s[|s| - 1];
      assert s == front + [last];
      InsertStable(leq, front, x, p);
      TiesAppend(leq, p, front, last);
      TiesAppend(leq, p, front, x);
      TiesAppend(leq, p, s, x);
      TiesAppend(leq, p, Insert(leq, front, x), last);
      assert !(Tied(leq, p, x) && Tied(leq, p, last));
    }
  }

  lemma TiesAppend<T>(leq: (T, T) -> bool, p: T, s: seq<T>, x: T)
    ensures Ties(leq, p, s + [x]) == Ties(leq, p, s) + (if Tied(leq, p, x) then [x] else [])
  {
    assert (s + [x])[..|s|] == s;
  }

  /** Sorting never swaps two elements that compare equal. */
  lemma {:induction false} SortStable<T(!new)>(leq: (T, T) -> bool, s: seq<T>, p: T)
    requires TotalPreorder(leq)
    ensures Ties(leq, p, Sort(leq, s)) == Ties(leq, p, s)
  {
    if s == [] {
    } else {
      var front, last := s[..|s| - 1], s[|s| - 1];
      var r := Sort(leq, front);
      SortStable(leq, front, p);
      InsertStable(leq, r, last, p);
      TiesAppend(leq, p, r, last);
      TiesAppend(leq, p, front, last);
      assert s == front + [last];
    }
  }

  /** An ordered, stable rearrangement of `s` is `Sort(s)`: a stable sort has one answer. */
  lemma {:induction false} StableSortUnique<T(!new)>(leq: (T, T) -> bool, s: seq<T>, r: seq<T>)
    requires TotalPreorder(leq)
    requires Ordered(leq, r) && multiset(r) == multiset(s)
    requires forall p :: Ties(leq, p, r) == Ties(leq, p, s)
    ensures r == Sort(leq, s)
  {
    var q := Sort(leq, s);
    SortOrdered(leq, s);
    SortContents(leq, s);
    forall p ensures Ties(leq, p, r) == Ties(leq, p, q) { SortStable(leq, s, p); }
    SameTiesSame(leq, q, r);
  }

  lemma {:induction false} SameTiesSame<T(!new)>(leq: (T, T) -> bool, q: seq<T>, r: seq<T>)
    requires TotalPreorder(leq)
    requires Ordered(leq, q) && Ordered(leq, r) && multiset(q) == multiset(r)
    requires forall p :: Ties(leq, p, r) == Ties(leq, p, q)
    ensures q == r
    decreases |q|
  {
    assert |q| == |multiset(q)| == |multiset(r)| == |r|;
    if q == [] {
    } else {
      var q', r' := q[..|q| - 1], r[..|r| - 1];
      var x := q[|q| - 1];
      SameLast(leq, q, r);
      assert q == q' + [x] && r == r' + [x];
      forall p ensures Ties(leq, p, r') == Ties(leq, p, q') {
        SameTiesBefore(leq, q', r', x, p);
      }
      CancelOne(multiset(q'), multiset(r'), x);
      SameTiesSame(leq, q', r');
    }
  }

  lemma SameLast<T(!new)>(leq: (T, T) -> bool, q: seq<T>, r: seq<T>)
    requires TotalPreorder(leq)
    requires Ordered(leq, q) && Ordered(leq, r) && multiset(q) == multiset(r) && q != [] && r != []
    requires forall p :: Ties(leq, p, r) == Ties(leq, p, q)
    ensures q[|q| - 1] == r[|r| - 1]
  {
    var x, y := q[|q| - 1], r[|r| - 1];
    SameEndTied(leq, q, r);
    hide TotalPreorder, Ordered, Ties;
    assert q == q[..|q| - 1] + [x] && r == r[..|r| - 1] + [y];
    TiesAppend(leq, x, q[..|q| - 1], x);
    TiesAppend(leq, x, r[..|r| - 1], y);
    assert Ties(leq, x, q)[|Ties(leq, x, q)| - 1] == x;
  }

  lemma SameEndTied<T(!new)>(leq: (T, T) -> bool, q: seq<T>, r: seq<T>)
    requires TotalPreorder(leq)
    requires Ordered(leq, q) && Ordered(leq, r) && multiset(q) == multiset(r) && q != [] && r != []
    ensures Tied(leq, q[|q| - 1], q[|q| - 1]) && Tied(leq, q[|q| - 1], r[|r| - 1])
  {
    var x, y := q[|q| - 1], r[|r| - 1];
    LastIsLargest(leq, q, x);
    LastIsLargest(leq, q, y) by { assert y in multiset(r); }
    LastIsLargest(leq, r, x) by { assert x in multiset(q); }
  }

  lemma LastIsLargest<T(!new)>(leq: (T, T) -> bool, s: seq<T>, x: T)
    requires TotalPreorder(leq) && Ordered(leq, s) && x in multiset(s)
    ensures s != [] && leq(x, s[|s| - 1])
  {
    var i :| 0 <= i < |s| && s[i] == x;
    assert leq(x, x);
  }

  lemma SameTiesBefore<T>(leq: (T, T) -> bool, q: seq<T>, r: seq<T>, x: T, p: T)
    requires Ties(leq, p, q + [x]) == Ties(leq, p, r + [x])
    ensures Ties(leq, p, q) == Ties(leq, p, r)
  {
    TiesAppend(leq, p, q, x);
    TiesAppend(leq, p, r, x);
    var all := Ties(leq, p, q + [x]);
    var k := if Tied(leq, p, x) then 1 else 0;
    assert Ties(leq, p, q) == all[..|all| - k];
    assert Ties(leq, p, r) == all[..|all| - k];
  }

  lemma CancelOne<T>(a: multiset<T>, b: multiset<T>, x: T)
    requires a + multiset{x} == b + multiset{x}
    ensures a == b
  {
    assert a == (a + multiset{x}) - multiset{x};
    assert b == (b + multiset{x}) - multiset{x};
  }

  /** An order without ties between different elements. */
  ghost predicate Antisymmetric<T(!new)>(leq: (T, T) -> bool) {
    forall x, y :: leq(x, y) && leq(y, x) ==> x == y
  }

  /** Without ties, two ordered sequences with the same contents are the same sequence. */
  lemma {:induction false} OrderedUnique<T(!new)>(leq: (T, T) -> bool, q: seq<T>, r: seq<T>)
    requires TotalPreorder(leq) && Antisymmetric(leq)
    requires Ordered(leq, q) && Ordered(leq, r) && multiset(q) == multiset(r)
    ensures q == r
    decreases |q|
  {
    assert |q| == |multiset(q)| == |multiset(r)| == |r|;
    if q == [] {
    } else {
      var q', r' := q[..|q| - 1], r[..|r| - 1];
      var x := q[|q| - 1];
      SameGreatest(leq, q, r);
      hide TotalPreorder, Antisymmetric;
      assert q == q' + [x] && r == r' + [x];
      CancelOne(multiset(q'), multiset(r'), x);
      OrderedUnique(leq, q', r');
    }
  }

  lemma SameGreatest<T(!new)>(leq: (T, T) -> bool, q: seq<T>, r: seq<T>)
    requires TotalPreorder(leq) && Antisymmetric(leq) && q != [] && r != []
    requires Ordered(leq, q) && Ordered(leq, r) && multiset(q) == multiset(r)
    ensures q[|q| - 1] == r[|r| - 1]
  {
    SameEndTied(leq, q, r);
  }

  /** Without ties, sorting forgets the order it started from. */
  lemma SortRearranged<T(!new)>(leq: (T, T) -> bool, s: seq<T>, r: seq<T>)
    requires TotalPreorder(leq) && Antisymmetric(leq) && multiset(s) == multiset(r)
    ensures Sort(leq, s) == Sort(leq, r)
  {
    SortOrdered(leq, s);
    SortOrdered(leq, r);
    SortContents(leq, s);
    SortContents(leq, r);
    OrderedUnique(leq, Sort(leq, s), Sort(leq, r));
  }

  // ----- Mapping and counting -----

  /** A map that neither creates nor breaks an order relation commutes with sorting. */
  lemma {:induction false} SortMap<T(!new), U(!new)>(leq: (T, T) -> bool, leq': (U, U) -> bool, f: T -> U, s: seq<T>)
    requires forall x, y :: leq'(f(x), f(y)) == leq(x, y)
    ensures Sort(leq', Map(f, s)) == Map(f, Sort(leq, s))
  {
    if s == [] {
    } else {
      SortMap(leq, leq', f, s[..|s| - 1]);
      assert Map(f, s)[..|s| - 1] == Map(f, s[..|s| - 1]);
      InsertMap(leq, leq', f, Sort(leq, s[..|s| - 1]), s[|s| - 1]);
    }
  }

  lemma {:induction false} InsertMap<T(!new), U(!new)>(leq: (T, T) -> bool, leq': (U, U) -> bool, f: T -> U, s: seq<T>, x: T)
    requires forall x, y :: leq'(f(x), f(y)) == leq(x, y)
    ensures Insert(leq', Map(f, s), f(x)) == Map(f, Insert(leq, s, x))
  {
    if s == [] {
      assert Map(f, [x]) == [f(x)];
    } else {
      var front, last := s[..|s| - 1], s[|s| - 1];
      assert Map(f, s)[..|s| - 1] == Map(f, front);
      assert Map(f, s + [x]) == Map(f, s) + [f(x)];
      InsertMap(leq, leq', f, front, x);
      var r := Insert(leq, front, x);
      assert Map(f, r + [last]) == Map(f, r) + [f(last)];
    }
  }

  /** Rearranging before a map rearranges its image. */
  lemma {:induction false} MapRearranged<T, U>(f: T -> U, s: seq<T>, r: seq<T>)
    requires multiset(s) == multiset(r)
    ensures multiset(Map(f, s)) == multiset(Map(f, r))
    decreases |s|
  {
    assert |s| == |multiset(s)| == |multiset(r)| == |r|;
    if s == [] {
    } else {
      var front, x := s[..|s| - 1], s[|s| - 1];
      assert s == front + [x];
      assert x in multiset(r);
      var i :| 0 <= i < |r| && r[i] == x;
      CancelOne(multiset(front), multiset(r[..i] + r[i + 1..]), x) by { TakeOut(r, i); }
      MapRearranged(f, front, r[..i] + r[i + 1..]);
      assert Map(f, s) == Map(f, front) + [f(x)];
      TakeOut(Map(f, r), i);
      assert Map(f, r[..i] + r[i + 1..]) == Map(f, r)[..i] + Map(f, r)[i + 1..];
    }
  }

  lemma TakeOut<T>(r: seq<T>, i: nat)
    requires i < |r|
    ensures multiset(r) == multiset(r[..i] + r[i + 1..]) + multiset{r[i]}
  {
    assert r == r[..i] + [r[i]] + r[i + 1..];
  }

  lemma {:induction false} InsertCount<T>(leq: (T, T) -> bool, s: seq<T>, x: T, p: T -> bool)
    ensures Count(p, Insert(leq, s, x)) == Count(p, s) + (if p(x) then 1 else 0)
  {
    assert (s + [x])[..|s|] == s;
    if s == [] || leq(s[|s| - 1], x) {
    } else {
      InsertCount(leq, s[..|s| - 1], x, p);
      var r := Insert(leq, s[..|s| - 1], x);
      assert (r + [s[|s| - 1]])[..|r|] == r;
    }
  }

  lemma {:induction false} SortCount<T>(leq: (T, T) -> bool, s: seq<T>, p: T -> bool)
    ensures Count(p, Sort(leq, s)) == Count(p, s)
  {
    if s == [] {
    } else {
      SortCount(leq, s[..|s| - 1], p);
      InsertCount(leq, Sort(leq, s[..|s| - 1]), s[|s| - 1], p);
    }
  }

  /** Counting through a map: `q` can only hold of images of elements that satisfy `p`. */
  lemma {:induction false} CountMap<T, U>(f: T -> U, p: T -> bool, q: U -> bool, s: seq<T>)
    requires forall i :: 0 <= i < |s| && q(f(s[i])) ==> p(s[i])
    ensures Count(q, Map(f, s)) <= Count(p, s)
  {
    if s == [] {
    } else {
      assert Map(f, s)[..|s| - 1] == Map(f, s[..|s| - 1]);
      CountMap(f, p, q, s[..|s| - 1]);
    }
  }

  lemma {:induction false} CountSame<T, U>(f: T -> U, p: T -> bool, q: U -> bool, s: seq<T>)
    requires forall i :: 0 <= i < |s| ==> q(f(s[i])) == p(s[i])
    ensures Count(q, Map(f, s)) == Count(p, s)
  {
    if s == [] {
    } else {
      assert Map(f, s)[..|s| - 1] == Map(f, s[..|s| - 1]);
      CountSame(f, p, q, s[..|s| - 1]);
    }
  }

  /** Counting what a filter kept. */
  lemma {:induction false} CountFilter<T>(p: T -> bool, q: T -> bool, both: T -> bool, s: seq<T>)
    requires forall i :: 0 <= i < |s| ==> both(s[i]) == (p(s[i]) && q(s[i]))
    ensures Count(q, Filter(p, s)) == Count(both, s)
  {
    if s == [] {
    } else {
      var front, last := s[..|s| - 1], s[|s| - 1];
      CountFilter(p, q, both, front);
      var kept := Filter(p, front);
      assert (kept + [last])[..|kept|] == kept && kept + [] == kept;
    }
  }

  lemma {:induction false} CountSplit<T>(p: T -> bool, s: seq<T>, i: nat)
    requires i <= |s|
    ensures Count(p, s) == Count(p, s[..i]) + Count(p, s[i..])
  {
    if i < |s| {
      assert s[..|s| - 1][..i] == s[..i];
      assert s[i..][..|s| - 1 - i] == s[..|s| - 1][i..];
      CountSplit(p, s[..|s| - 1], i);
    } else {
      assert s[..i] == s;
    }
  }

  lemma {:induction false} CountAll<T>(p: T -> bool, s: seq<T>)
    requires forall i :: 0 <= i < |s| ==> p(s[i])
    ensures Count(p, s) == |s|
  {
    if s == [] {
    } else {
      CountAll(p, s[..|s| - 1]);
    }
  }

  lemma {:induction false} CountNone<T>(p: T -> bool, s: seq<T>)
    requires forall i :: 0 <= i < |s| ==> !p(s[i])
    ensures Count(p, s) == 0
  {
    if s == [] {
    } else {
      CountNone(p, s[..|s| - 1]);
    }
  }

  /** At least the elements from `j` on are counted. */
  lemma SuffixCount<T>(p: T -> bool, s: seq<T>, j: nat)
    requires j <= |s| && forall i :: j <= i < |s| ==> p(s[i])
    ensures Count(p, s) >= |s| - j
  {
    CountSplit(p, s, j);
    CountAll(p, s[j..]);
  }

  /** At least the first `j` elements are counted. */
  lemma PrefixCount<T>(p: T -> bool, s: seq<T>, j: nat)
    requires j <= |s| && forall i :: 0 <= i < j ==> p(s[i])
    ensures Count(p, s) >= j
  {
    CountSplit(p, s, j);
    CountAll(p, s[..j]);
  }

  /** At most the first `j` elements are counted. */
  lemma OnlyPrefixCount<T>(p: T -> bool, s: seq<T>, j: nat)
    requires j <= |s| && forall i :: j <= i < |s| ==> !p(s[i])
    ensures Count(p, s) <= j
  {
    CountSplit(p, s, j);
    CountAtMost(p, s[..j]);
    CountNone(p, s[j..]);
  }

  lemma {:induction false} CountAtMost<T>(p: T -> bool, s: seq<T>)
    ensures Count(p, s) <= |s|
  {
    if s == [] {
    } else {
      CountAtMost(p, s[..|s| - 1]);
    }
  }

  lemma {:induction false} FilterMember<T>(p: T -> bool, s: seq<T>, x: T)
    ensures x in Filter(p, s) <==> x in s && p(x)
  {
    if s == [] {
    } else {
      FilterMember(p, s[..|s| - 1], x);
      assert s == s[..|s| - 1] + [s[|s| - 1]];
    }
  }

  lemma {:induction false} FilterAppend<T>(p: T -> bool, a: seq<T>, b: seq<T>)
    ensures Filter(p, a + b) == Filter(p, a) + Filter(p, b)
  {
    if b == [] {
      assert a + b == a;
    } else {
      FilterAppend(p, a, b[..|b| - 1]);
      assert (a + b)[..|a + b| - 1] == a + b[..|b| - 1];
    }
  }

  /** Rearranging before a filter rearranges what it keeps. */
  lemma {:induction false} FilterRearranged<T>(p: T -> bool, s: seq<T>, r: seq<T>)
    requires multiset(s) == multiset(r)
    ensures multiset(Filter(p, s)) == multiset(Filter(p, r))
    decreases |s|
  {
    assert |s| == |multiset(s)| == |multiset(r)| == |r|;
    if s == [] {
    } else {
      var front, x := s[..|s| - 1], s[|s| - 1];
      assert s == front + [x];
      assert x in multiset(r);
      var i :| 0 <= i < |r| && r[i] == x;
      CancelOne(multiset(front), multiset(r[..i] + r[i + 1..]), x) by { TakeOut(r, i); }
      FilterRearranged(p, front, r[..i] + r[i + 1..]);
      FilterAround(p, r, i);
      FilterAppend(p, front, [x]);
    }
  }

  lemma FilterAround<T>(p: T -> bool, r: seq<T>, i: nat)
    requires i < |r|
    ensures multiset(Filter(p, r))
         == multiset(Filter(p, r[..i] + r[i + 1..])) + multiset(Filter(p, [r[i]]))
  {
    hide Filter;
    var a, x, b := r[..i], r[i], r[i + 1..];
    assert r == a + ([x] + b);
    FilterAppend(p, a, [x] + b);
    FilterAppend(p, [x], b);
    FilterAppend(p, a, b);
  }

  /** Filtering a prefix gives a prefix. */
  lemma {:induction false} FilterPrefix<T>(p: T -> bool, s: seq<T>, k: nat)
    requires k <= |s|
    ensures Filter(p, s[..k]) <= Filter(p, s)
  {
    if k < |s| {
      FilterPrefix(p, s[..|s| - 1], k);
      assert s[..|s| - 1][..k] == s[..k];
    } else {
      assert s[..k] == s;
    }
  }

  lemma {:induction false} FirstOf<T>(s: seq<T>, x: T) returns (j: nat)
    requires x in s
    ensures j < |s| && s[j] == x && forall i :: 0 <= i < j ==> s[i] != x
  {
    var front := s[..|s| - 1];
    if x in front {
      j := FirstOf(front, x);
    } else {
      j := |s| - 1;
      assert s == front + [s[j]];
      assert forall i :: 0 <= i < j ==> s[i] == front[i] && front[i] in front;
    }
  }

  /** Everything that does not have to come after `x` or at it. */
  function StrictlyBefore<T>(leq: (T, T) -> bool, x: T): T -> bool {
    (y: T) => !leq(x, y)
  }

  /** In an ordered sequence without ties, `x` first stands behind all that is strictly before it. */
  lemma FirstPosition<T(!new)>(leq: (T, T) -> bool, s: seq<T>, x: T)
    requires TotalPreorder(leq) && Antisymmetric(leq) && Ordered(leq, s) && x in s
    ensures var c := Count(StrictlyBefore(leq, x), s);
      c < |s| && s[c] == x && forall i :: 0 <= i < c ==> s[i] != x
  {
    var j := FirstOf(s, x);
    hide Count;
    PrefixCount(StrictlyBefore(leq, x), s, j);
    OnlyPrefixCount(StrictlyBefore(leq, x), s, j);
  }
}

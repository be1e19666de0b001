/**
  A stable sort, standing for the built-in `sorted` and `list.sort` of the
  source language, with the facts the modules below rely on.
 */
module StableSort {
  import opened Sequences

  ghost predicate TotalPreorder<T(!new)>(leq: (T, T) -> bool) {
    && (forall a, b :: leq(a, b) || leq(b, a))
    && (forall a, b, c :: leq(a, b) && leq(b, c) ==> leq(a, c))
  }

  ghost predicate Sorted<T>(s: seq<T>, leq: (T, T) -> bool) {
    forall i, j | 0 <= i < j < |s| :: leq(s[i], s[j])
  }

  /** Puts `x` before the first element it may stand before. */
  function Insert<T>(x: T, s: seq<T>, leq: (T, T) -> bool): seq<T> {
    if s == [] || leq(x, s[0]) then [x] + s else [s[0]] + Insert(x, s[1..], leq)
  }

  function Sort<T>(s: seq<T>, leq: (T, T) -> bool): seq<T> {
    if s == [] then [] else Insert(s[0], Sort(s[1..], leq), leq)
  }

  /** The elements satisfying `p`, in order. */
  function Filter<T>(s: seq<T>, p: T -> bool): seq<T> {
    if s == [] then [] else (if p(s[0]) then [s[0]] else []) + Filter(s[1..], p)
  }

  lemma {:induction false} InsertPermutes<T>(x: T, s: seq<T>, leq: (T, T) -> bool)
    ensures multiset(Insert(x, s, leq)) == multiset{x} + multiset(s)
  {
    if s != [] && !leq(x, s[0]) {
      assert s == [s[0]] + s[1..];
      InsertPermutes(x, s[1..], leq);
    }
  }

  lemma {:induction false} SortPermutes<T>(s: seq<T>, leq: (T, T) -> bool)
    ensures multiset(Sort(s, leq)) == multiset(s)
    ensures |Sort(s, leq)| == |s|
  {
    if s != [] {
      assert s == [s[0]] + s[1..];
      SortPermutes(s[1..], leq);
      InsertPermutes(s[0], Sort(s[1..], leq), leq);
    }
    assert |multiset(Sort(s, leq))| == |Sort(s, leq)|;
    assert |multiset(s)| == |s|;
  }

  lemma SameMembers<T(!new)>(a: seq<T>, b: seq<T>)
    requires multiset(a) == multiset(b)
    ensures forall x :: x in a <==> x in b
  {
    forall x ensures x in a <==> x in b {
      assert x in a <==> x in multiset(a);
      assert x in b <==> x in multiset(b);
    }
  }

  lemma SortMembers<T(!new)>(s: seq<T>, leq: (T, T) -> bool)
    ensures forall x :: x in Sort(s, leq) <==> x in s
  {
    SortPermutes(s, leq);
    SameMembers(Sort(s, leq), s);
  }

  lemma {:induction false} InsertMembers<T(!new)>(x: T, s: seq<T>, leq: (T, T) -> bool)
    ensures forall y :: y in Insert(x, s, leq) <==> y == x || y in s
  {
    if s != [] && !leq(x, s[0]) {
      assert s == [s[0]] + s[1..];
      InsertMembers(x, s[1..], leq);
    }
  }

  lemma {:induction false} FilterMembers<T(!new)>(s: seq<T>, p: T -> bool)
    ensures forall x :: x in Filter(s, p) <==> x in s && p(x)
  {
    if s != [] {
      assert s == [s[0]] + s[1..];
      FilterMembers(s[1..], p);
    }
  }

  lemma {:induction false} FilterAppend<T>(a: seq<T>, b: seq<T>, p: T -> bool)
    ensures Filter(a + b, p) == Filter(a, p) + Filter(b, p)
  {
    if a == [] {
      assert a + b == b;
    } else {
      TailOfAppend(a, b);
      FilterAppend(a[1..], b, p);
      Assoc(if p(a[0]) then [a[0]] else [], Filter(a[1..], p), Filter(b, p));
    }
  }

  /** A relation holding from `x` to the head of a non-empty sequence and its tail holds to all. */
  lemma SortedSplit<T(!new)>(s: seq<T>, leq: (T, T) -> bool)
    requires s != []
    ensures Sorted(s, leq) <==> (forall y | y in s[1..] :: leq(s[0], y)) && Sorted(s[1..], leq)
  {
    var tail := s[1..];
    if Sorted(s, leq) {
      forall i, j | 0 <= i < j < |tail| ensures leq(tail[i], tail[j]) {
        assert leq(s[i + 1], s[j + 1]);
      }
      forall y | y in tail ensures leq(s[0], y) {
        var j :| 0 <= j < |tail| && tail[j] == y;
        assert leq(s[0], s[j + 1]);
      }
    }
    if (forall y | y in tail :: leq(s[0], y)) && Sorted(tail, leq) {
      forall i, j | 0 <= i < j < |s| ensures leq(s[i], s[j]) {
        assert s[j] == tail[j - 1];
        assert i > 0 ==> s[i] == tail[i - 1];
      }
    }
  }

  lemma {:induction false} InsertSorted<T(!new)>(x: T, s: seq<T>, leq: (T, T) -> bool)
    requires TotalPreorder(leq) && Sorted(s, leq)
    ensures Sorted(Insert(x, s, leq), leq)
  {
    if s != [] {
      SortedSplit(s, leq);
      var r := Insert(x, s, leq);
      if leq(x, s[0]) {
        assert r[1..] == s;
        forall y | y in s ensures leq(x, y) {
          assert s == [s[0]] + s[1..];
        }
      } else {
        InsertSorted(x, s[1..], leq);
        InsertMembers(x, s[1..], leq);
        assert r[1..] == Insert(x, s[1..], leq);
      }
      SortedSplit(r, leq);
    }
  }

  lemma {:induction false} SortSorted<T(!new)>(s: seq<T>, leq: (T, T) -> bool)
    requires TotalPreorder(leq)
    ensures Sorted(Sort(s, leq), leq)
  {
    if s != [] {
      SortSorted(s[1..], leq);
      InsertSorted(s[0], Sort(s[1..], leq), leq);
    }
  }

  lemma {:induction false} SortOfSorted<T(!new)>(s: seq<T>, leq: (T, T) -> bool)
    requires Sorted(s, leq)
    ensures Sort(s, leq) == s
  {
    if s != [] {
      SortedSplit(s, leq);
      SortOfSorted(s[1..], leq);
      assert s == [s[0]] + s[1..];
      if s[1..] != [] {
        assert s[1..][0] in s[1..];
      }
    }
  }

  // -- Stability ------------------------------------------------------------

  /** Once `x` may stand before an element of `s`, it may stand before all later ones. */
  ghost predicate UpwardClosed<T>(x: T, s: seq<T>, leq: (T, T) -> bool) {
    forall i, j | 0 <= i < j < |s| && leq(x, s[i]) :: leq(x, s[j])
  }

  lemma FilterCons<T>(x: T, s: seq<T>, p: T -> bool)
    ensures Filter([x] + s, p) == (if p(x) then [x] else []) + Filter(s, p)
  {
    assert ([x] + s)[1..] == s;
  }

  lemma SortCons<T>(x: T, s: seq<T>, leq: (T, T) -> bool)
    ensures Sort([x] + s, leq) == Insert(x, Sort(s, leq), leq)
  {
    assert ([x] + s)[1..] == s;
  }

  lemma {:induction false} FilterInsert<T(!new)>(x: T, s: seq<T>, leq: (T, T) -> bool, p: T -> bool)
    requires UpwardClosed(x, s, leq)
    ensures Filter(Insert(x, s, leq), p)
         == if p(x) then Insert(x, Filter(s, p), leq) else Filter(s, p)
  {
    var f := Filter(s, p);
    if s == [] || leq(x, s[0]) {
      FilterCons(x, s, p);
      if f != [] {
        FilterMembers(s, p);
        assert f[0] in f;
        var j :| 0 <= j < |s| && s[j] == f[0];
        assert j > 0 ==> leq(x, s[0]) && leq(x, s[j]);
      }
    } else {
      var tail, g := s[1..], Filter(s[1..], p);
      forall i, j | 0 <= i < j < |tail| && leq(x, tail[i]) ensures leq(x, tail[j]) {
        assert leq(x, s[i + 1]) ==> leq(x, s[j + 1]);
      }
      FilterCons(s[0], Insert(x, tail, leq), p);
      FilterInsert(x, tail, leq, p);
      if p(s[0]) {
        assert f == [s[0]] + g && f[1..] == g;
        assert Insert(x, f, leq) == [s[0]] + Insert(x, g, leq);
      } else {
        assert f == g;
      }
    }
  }

  /** Stability: selecting elements before or after sorting gives the same sequence. */
  lemma {:induction false} FilterSort<T(!new)>(s: seq<T>, leq: (T, T) -> bool, p: T -> bool)
    requires TotalPreorder(leq)
    ensures Filter(Sort(s, leq), p) == Sort(Filter(s, p), leq)
  {
    if s != [] {
      FilterSort(s[1..], leq, p);
      var sorted := Sort(s[1..], leq);
      assert UpwardClosed(s[0], sorted, leq) by {
        SortSorted(s[1..], leq);
      }
      FilterInsert(s[0], sorted, leq, p);
      var g := Filter(s[1..], p);
      if p(s[0]) {
        assert Filter(s, p) == [s[0]] + g;
        SortCons(s[0], g, leq);
      } else {
        assert Filter(s, p) == g;
      }
    }
  }

  /** The elements that stand level with `v`. */
  function LevelWith<T>(v: T, leq: (T, T) -> bool): T -> bool { w => leq(w, v) && leq(v, w) }

  lemma FirstOfLevel<T(!new)>(x: seq<T>, leq: (T, T) -> bool)
    requires x != [] && TotalPreorder(leq)
    ensures Filter(x, LevelWith(x[0], leq)) == [x[0]] + Filter(x[1..], LevelWith(x[0], leq))
  {
    assert leq(x[0], x[0]);
  }

  /** A sorted sequence is determined by its levels. */
  lemma {:induction false} SortedByLevels<T(!new)>(x: seq<T>, y: seq<T>, leq: (T, T) -> bool)
    requires TotalPreorder(leq) && Sorted(x, leq) && Sorted(y, leq)
    requires forall v :: Filter(x, LevelWith(v, leq)) == Filter(y, LevelWith(v, leq))
    ensures x == y
  {
    if x == [] {
      if y != [] {
        FirstOfLevel(y, leq);
      }
    } else {
      FirstOfLevel(x, leq);
      assert y != [];
      FirstOfLevel(y, leq);
      SameFront(x, y, leq);
      SortedSplit(x, leq);
      SortedSplit(y, leq);
      forall v ensures Filter(x[1..], LevelWith(v, leq)) == Filter(y[1..], LevelWith(v, leq)) {
        var p := LevelWith(v, leq);
        var fx, fy := Filter(x[1..], p), Filter(y[1..], p);
        assert Filter(x, p) == if p(x[0]) then [x[0]] + fx else fx;
        assert Filter(y, p) == if p(y[0]) then [y[0]] + fy else fy;
        assert Filter(x, p) == Filter(y, p);
        assert p(x[0]) ==> ([x[0]] + fx)[1..] == fx && ([y[0]] + fy)[1..] == fy;
      }
      SortedByLevels(x[1..], y[1..], leq);
      assert x == [x[0]] + x[1..] && y == [y[0]] + y[1..];
    }
  }

  lemma FrontIsLeast<T(!new)>(x: seq<T>, y: seq<T>, leq: (T, T) -> bool)
    requires TotalPreorder(leq) && Sorted(y, leq) && x != []
    requires Filter(x, LevelWith(x[0], leq)) == Filter(y, LevelWith(x[0], leq))
    ensures y != [] && leq(y[0], x[0])
  {
    FirstOfLevel(x, leq);
    FilterMembers(y, LevelWith(x[0], leq));
    assert x[0] in Filter(y, LevelWith(x[0], leq));
    var i :| 0 <= i < |y| && y[i] == x[0];
    assert i > 0 ==> leq(y[0], y[i]);
    assert leq(x[0], x[0]);
  }

  lemma SameFront<T(!new)>(x: seq<T>, y: seq<T>, leq: (T, T) -> bool)
    requires TotalPreorder(leq) && Sorted(x, leq) && Sorted(y, leq) && x != [] && y != []
    requires forall v :: Filter(x, LevelWith(v, leq)) == Filter(y, LevelWith(v, leq))
    ensures x[0] == y[0]
  {
    var a, b := x[0], y[0];
    assert Filter(x, LevelWith(a, leq)) == Filter(y, LevelWith(a, leq));
    assert Filter(x, LevelWith(b, leq)) == Filter(y, LevelWith(b, leq));
    FrontIsLeast(x, y, leq);
    FrontIsLeast(y, x, leq);
    SameLevel(y, a, b, leq);
    FirstOfLevel(x, leq);
    FirstOfLevel(y, leq);
    hide *;
    assert ([a] + Filter(x[1..], LevelWith(a, leq)))[0] == ([b] + Filter(y[1..], LevelWith(b, leq)))[0];
  }

  lemma {:induction false} SameLevel<T(!new)>(s: seq<T>, a: T, b: T, leq: (T, T) -> bool)
    requires TotalPreorder(leq) && leq(a, b) && leq(b, a)
    ensures Filter(s, LevelWith(a, leq)) == Filter(s, LevelWith(b, leq))
  {
    if s != [] {
      SameLevel(s[1..], a, b, leq);
    }
  }

  lemma {:induction false} LevelIsSorted<T(!new)>(s: seq<T>, v: T, leq: (T, T) -> bool)
    requires TotalPreorder(leq) && forall w | w in s :: LevelWith(v, leq)(w)
    ensures Sort(s, leq) == s
  {
    forall i, j | 0 <= i < j < |s| ensures leq(s[i], s[j]) {
      assert s[i] in s && s[j] in s;
      assert leq(s[i], v) && leq(v, s[j]);
    }
    SortOfSorted(s, leq);
  }

  /** Sorting what is sorted in part already gives the same. */
  lemma SortAfterSort<T(!new)>(a: seq<T>, b: seq<T>, leq: (T, T) -> bool)
    requires TotalPreorder(leq)
    ensures Sort(Sort(a, leq) + b, leq) == Sort(a + b, leq)
  {
    var x, y := Sort(Sort(a, leq) + b, leq), Sort(a + b, leq);
    SortSorted(Sort(a, leq) + b, leq);
    SortSorted(a + b, leq);
    forall v ensures Filter(x, LevelWith(v, leq)) == Filter(y, LevelWith(v, leq)) {
      var p := LevelWith(v, leq);
      FilterSort(Sort(a, leq) + b, leq, p);
      FilterSort(a + b, leq, p);
      FilterAppend(Sort(a, leq), b, p);
      FilterAppend(a, b, p);
      FilterSort(a, leq, p);
      FilterMembers(a, p);
      LevelIsSorted(Filter(a, p), v, leq);
    }
    SortedByLevels(x, y, leq);
  }

  // -- Relations between any two elements -------------------------------------

  ghost predicate Pairwise<T>(s: seq<T>, rel: (T, T) -> bool) {
    Sorted(s, rel)
  }

  lemma {:induction false} InsertPairwise<T(!new)>(x: T, s: seq<T>, leq: (T, T) -> bool, rel: (T, T) -> bool)
    requires forall a, b :: rel(a, b) ==> rel(b, a)
    requires Pairwise(s, rel)
    requires forall y | y in s :: rel(x, y)
    ensures Pairwise(Insert(x, s, leq), rel)
  {
    if s != [] {
      SortedSplit(s, rel);
      assert s == [s[0]] + s[1..];
      var r := Insert(x, s, leq);
      if leq(x, s[0]) {
        assert r[1..] == s;
      } else {
        InsertPairwise(x, s[1..], leq, rel);
        InsertMembers(x, s[1..], leq);
        assert r[1..] == Insert(x, s[1..], leq);
      }
      SortedSplit(r, rel);
    }
  }

  /** A symmetric relation between any two elements survives sorting. */
  lemma {:induction false} SortPairwise<T(!new)>(s: seq<T>, leq: (T, T) -> bool, rel: (T, T) -> bool)
    requires forall a, b :: rel(a, b) ==> rel(b, a)
    requires Pairwise(s, rel)
    ensures Pairwise(Sort(s, leq), rel)
  {
    if s != [] {
      SortedSplit(s, rel);
      SortPairwise(s[1..], leq, rel);
      SortMembers(s[1..], leq);
      InsertPairwise(s[0], Sort(s[1..], leq), leq, rel);
    }
  }
}

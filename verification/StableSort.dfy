/** Stable sorting of sequences, seen from three sides: the bottom-up merge of
    runs that `HASH_SRT` performs, the ordered insertion that the INORDER add
    performs, and the specification both meet.  Every definition is over an
    arbitrary comparison `cmp`; only the theorems about order assume that `cmp`
    is a total preorder, and only on the elements at hand. */
module StableSort {
  import opened Bits

  type Cmp<!T> = (T, T) -> int

  predicate Le<T>(cmp: Cmp<T>, a: T, b: T) {
    cmp(a, b) <= 0
  }

  /** `cmp` is total and transitive on `d`. */
  ghost predicate TotalPreorder<T>(cmp: Cmp<T>, d: set<T>) {
    && (forall a, b {:trigger Le(cmp, a, b)} :: a in d && b in d ==> Le(cmp, a, b) || Le(cmp, b, a))
    && (forall a, b, c {:trigger Le(cmp, a, b), Le(cmp, b, c)} ::
          a in d && b in d && c in d && Le(cmp, a, b) && Le(cmp, b, c) ==> Le(cmp, a, c))
  }

  /** Every element of `s` is in `d`. */
  ghost predicate Within<T>(s: seq<T>, d: set<T>) {
    forall i :: 0 <= i < |s| ==> s[i] in d
  }

  ghost function SetOf<T>(s: seq<T>): set<T> {
    set x | x in s
  }

  ghost predicate Sorted<T>(cmp: Cmp<T>, s: seq<T>) {
    forall i, j :: 0 <= i < j < |s| ==> Le(cmp, s[i], s[j])
  }

  ghost predicate Same<T>(cmp: Cmp<T>, x: T, y: T) {
    Le(cmp, x, y) && Le(cmp, y, x)
  }

  /** The elements of `s` that compare equal to `x`, in their order in `s`. */
  ghost function Class<T>(cmp: Cmp<T>, s: seq<T>, x: T): seq<T> {
    if s == [] then []
    else (if Same(cmp, s[0], x) then [s[0]] else []) + Class(cmp, s[1..], x)
  }

  /** `t` is a stable rearrangement of `s`: same elements, and elements that
      compare equal keep their relative order. */
  ghost predicate StablePermutation<T>(cmp: Cmp<T>, s: seq<T>, t: seq<T>) {
    && multiset(s) == multiset(t)
    && forall x :: x in s ==> Class(cmp, s, x) == Class(cmp, t, x)
  }

  // ---------- The two algorithms, on sequences ----------

  /** One merge of two runs: the left element is taken on ties. */
  function Merge<T>(cmp: Cmp<T>, p: seq<T>, q: seq<T>): (r: seq<T>)
    ensures |r| == |p| + |q|
  {
    if p == [] then q
    else if q == [] then p
    else if Le(cmp, p[0], q[0]) then [p[0]] + Merge(cmp, p[1..], q)
    else [q[0]] + Merge(cmp, p, q[1..])
  }

  /** One pass: merge the aligned runs of length `k` two by two. */
  function Pass<T>(cmp: Cmp<T>, s: seq<T>, k: nat): (r: seq<T>)
    requires 0 < k
    ensures |r| == |s|
    decreases |s|
  {
    if s == [] then []
    else
      var m := Min(k, |s|);
      var n := Min(k, |s| - m);
      Merge(cmp, s[..m], s[m..m + n]) + Pass(cmp, s[m + n..], k)
  }

  /** The number of merges a pass over `n` elements performs. */
  function Merges(n: nat, k: nat): nat
    requires 0 < k
  {
    if n == 0 then 0 else 1 + Merges(n - Min(2 * k, n), k)
  }

  /** Passes with run lengths k, 2k, 4k, ... until a pass needed at most one merge. */
  function SortFrom<T>(cmp: Cmp<T>, s: seq<T>, k: nat): (r: seq<T>)
    requires 0 < k
    decreases if |s| <= k then 0 else |s| - k, if |s| <= 2 * k then 0 else 1
  {
    if Merges(|s|, k) <= 1 then Pass(cmp, s, k)
    else
      MergesAtMostOne(|s|, k);
      SortFrom(cmp, Pass(cmp, s, k), 2 * k)
  }

  function MergeSort<T>(cmp: Cmp<T>, s: seq<T>): seq<T> {
    SortFrom(cmp, s, 1)
  }

  /** Ordered insertion: before the first element that compares greater. */
  function Insert<T>(cmp: Cmp<T>, s: seq<T>, x: T): (r: seq<T>)
    ensures |r| == |s| + 1
  {
    if s == [] then [x]
    else if cmp(s[0], x) > 0 then [x] + s
    else [s[0]] + Insert(cmp, s[1..], x)
  }

  /** The elements of `s` inserted one by one, in their order in `s`. */
  function InsertAll<T>(cmp: Cmp<T>, s: seq<T>): (r: seq<T>)
    ensures |r| == |s|
  {
    if s == [] then []
    else Insert(cmp, InsertAll(cmp, s[..|s| - 1]), s[|s| - 1])
  }

  lemma {:induction false} MergesAtMostOne(n: nat, k: nat)
    requires 0 < k
    ensures Merges(n, k) <= 1 <==> n <= 2 * k
  {
    if n > 2 * k {
      assert Merges(n, k) == 1 + Merges(n - 2 * k, k);
    } else if n > 0 {
      assert Merges(n, k) == 1 + Merges(0, k);
    }
  }

  // ---------- Permutation, for every comparison function ----------

  lemma MultisetCons<T>(x: T, s: seq<T>)
    ensures multiset([x] + s) == multiset{x} + multiset(s)
  {
  }

  lemma {:induction false} MergePermutes<T>(cmp: Cmp<T>, p: seq<T>, q: seq<T>)
    ensures multiset(Merge(cmp, p, q)) == multiset(p) + multiset(q)
  {
    if p == [] || q == [] {
    } else if Le(cmp, p[0], q[0]) {
      MergePermutes(cmp, p[1..], q);
      MultisetCons(p[0], p[1..]);
      MultisetCons(p[0], Merge(cmp, p[1..], q));
      assert p == [p[0]] + p[1..];
    } else {
      MergePermutes(cmp, p, q[1..]);
      MultisetCons(q[0], q[1..]);
      MultisetCons(q[0], Merge(cmp, p, q[1..]));
      assert q == [q[0]] + q[1..];
    }
  }

  lemma SplitRuns<T>(s: seq<T>, m: nat, n: nat)
    requires m + n <= |s|
    ensures multiset(s) == multiset(s[..m]) + multiset(s[m..m + n]) + multiset(s[m + n..])
    ensures s == (s[..m] + s[m..m + n]) + s[m + n..]
  {
    assert s == (s[..m] + s[m..m + n]) + s[m + n..];
  }

  lemma {:induction false} PassPermutes<T>(cmp: Cmp<T>, s: seq<T>, k: nat)
    requires 0 < k
    ensures multiset(Pass(cmp, s, k)) == multiset(s)
    decreases |s|
  {
    if s != [] {
      var m := Min(k, |s|);
      var n := Min(k, |s| - m);
      MergePermutes(cmp, s[..m], s[m..m + n]);
      PassPermutes(cmp, s[m + n..], k);
      SplitRuns(s, m, n);
    }
  }

  /** Whatever the comparison function, sorting only rearranges. */
  lemma {:induction false} SortPermutes<T>(cmp: Cmp<T>, s: seq<T>, k: nat)
    requires 0 < k
    ensures multiset(SortFrom(cmp, s, k)) == multiset(s)
    decreases if |s| <= k then 0 else |s| - k, if |s| <= 2 * k then 0 else 1
  {
    PassPermutes(cmp, s, k);
    MergesAtMostOne(|s|, k);
    if Merges(|s|, k) > 1 {
      SortPermutes(cmp, Pass(cmp, s, k), 2 * k);
    }
  }

  lemma {:induction false} InsertPermutes<T>(cmp: Cmp<T>, s: seq<T>, x: T)
    ensures multiset(Insert(cmp, s, x)) == multiset(s) + multiset{x}
  {
    if s != [] {
      assert s == [s[0]] + s[1..];
      if cmp(s[0], x) <= 0 {
        InsertPermutes(cmp, s[1..], x);
      }
    }
  }

  lemma {:induction false} InsertAllPermutes<T>(cmp: Cmp<T>, s: seq<T>)
    ensures multiset(InsertAll(cmp, s)) == multiset(s)
  {
    if s != [] {
      var s0 := s[..|s| - 1];
      InsertAllPermutes(cmp, s0);
      InsertPermutes(cmp, InsertAll(cmp, s0), s[|s| - 1]);
      assert s == s0 + [s[|s| - 1]];
    }
  }

  // ---------- Order, for total preorders ----------

  lemma PermutationWithin<T>(s: seq<T>, t: seq<T>, d: set<T>)
    requires multiset(s) == multiset(t)
    requires Within(s, d)
    ensures Within(t, d)
  {
    forall i | 0 <= i < |t|
      ensures t[i] in d
    {
      assert t[i] in multiset(t);
      assert t[i] in multiset(s);
    }
  }

  /** `x` is a lower bound of `s`. */
  ghost predicate Below<T>(cmp: Cmp<T>, x: T, s: seq<T>) {
    forall i :: 0 <= i < |s| ==> Le(cmp, x, s[i])
  }

  lemma SortedCons<T>(cmp: Cmp<T>, x: T, s: seq<T>)
    requires Sorted(cmp, s) && Below(cmp, x, s)
    ensures Sorted(cmp, [x] + s)
  {
  }

  lemma BelowPermutation<T>(cmp: Cmp<T>, x: T, s: seq<T>, t: seq<T>)
    requires multiset(s) == multiset(t)
    requires Below(cmp, x, s)
    ensures Below(cmp, x, t)
  {
    forall i | 0 <= i < |t|
      ensures Le(cmp, x, t[i])
    {
      assert t[i] in multiset(t);
      assert t[i] in multiset(s);
    }
  }

  lemma {:induction false} MergeBelow<T>(cmp: Cmp<T>, x: T, p: seq<T>, q: seq<T>)
    requires Below(cmp, x, p) && Below(cmp, x, q)
    ensures Below(cmp, x, Merge(cmp, p, q))
  {
    MergePermutes(cmp, p, q);
    assert multiset(p + q) == multiset(p) + multiset(q);
    BelowPermutation(cmp, x, p + q, Merge(cmp, p, q));
  }

  /** Anything below the head of a sorted sequence is below all of it. */
  lemma BelowSorted<T>(cmp: Cmp<T>, d: set<T>, x: T, s: seq<T>)
    requires TotalPreorder(cmp, d)
    requires Within(s, d) && x in d
    requires Sorted(cmp, s)
    requires s != [] && Le(cmp, x, s[0])
    ensures Below(cmp, x, s)
  {
  }

  lemma {:induction false} MergeSorted<T>(cmp: Cmp<T>, d: set<T>, p: seq<T>, q: seq<T>)
    requires TotalPreorder(cmp, d)
    requires Within(p, d) && Within(q, d)
    requires Sorted(cmp, p) && Sorted(cmp, q)
    ensures Sorted(cmp, Merge(cmp, p, q))
  {
    if p == [] || q == [] {
    } else if Le(cmp, p[0], q[0]) {
      MergeSorted(cmp, d, p[1..], q);
      BelowSorted(cmp, d, p[0], q);
      MergeBelow(cmp, p[0], p[1..], q);
      SortedCons(cmp, p[0], Merge(cmp, p[1..], q));
    } else {
      MergeSorted(cmp, d, p, q[1..]);
      BelowSorted(cmp, d, q[0], p);
      MergeBelow(cmp, q[0], p, q[1..]);
      SortedCons(cmp, q[0], Merge(cmp, p, q[1..]));
    }
  }

  /** Every aligned run of length `k` in `s` is sorted. */
  ghost predicate RunsSorted<T>(cmp: Cmp<T>, s: seq<T>, k: nat)
    requires 0 < k
    decreases |s|
  {
    s == [] || (Sorted(cmp, s[..Min(k, |s|)]) && RunsSorted(cmp, s[Min(k, |s|)..], k))
  }

  /** The first two runs of `s`, and what follows them, are as `RunsSorted` promises. */
  lemma {:induction false} FirstTwoRuns<T>(cmp: Cmp<T>, s: seq<T>, k: nat, m: nat, n: nat)
    requires 0 < k && s != []
    requires m == Min(k, |s|) && n == Min(k, |s| - m)
    requires RunsSorted(cmp, s, k)
    ensures Sorted(cmp, s[..m]) && Sorted(cmp, s[m..m + n])
    ensures RunsSorted(cmp, s[m + n..], k)
  {
    var r := s[m..];
    if n == 0 {
      assert s[m + n..] == r;
    } else {
      assert n == Min(k, |r|);
      assert r[..n] == s[m..m + n] && r[n..] == s[m + n..];
    }
  }

  /** Prepending a sorted run of 2k (or a shorter last one) keeps all runs sorted. */
  lemma {:induction false} PrependRun<T>(cmp: Cmp<T>, r: seq<T>, s: seq<T>, k: nat)
    requires 0 < k && r != []
    requires |r| == k || (|r| < k && s == [])
    requires Sorted(cmp, r) && RunsSorted(cmp, s, k)
    ensures RunsSorted(cmp, r + s, k)
  {
    var w := r + s;
    assert w[..Min(k, |w|)] == r && w[Min(k, |w|)..] == s;
  }

  lemma {:induction false} PassCons<T>(cmp: Cmp<T>, s: seq<T>, k: nat, m: nat, n: nat)
    requires 0 < k && s != [] && m == Min(k, |s|) && n == Min(k, |s| - m)
    ensures Pass(cmp, s, k) == Merge(cmp, s[..m], s[m..m + n]) + Pass(cmp, s[m + n..], k)
  {
    hide Merge;
  }

  /** A pass with run length k turns sorted k-runs into sorted 2k-runs. */
  lemma {:induction false} PassDoublesRuns<T>(cmp: Cmp<T>, d: set<T>, s: seq<T>, k: nat)
    requires 0 < k
    requires TotalPreorder(cmp, d) && Within(s, d)
    requires RunsSorted(cmp, s, k)
    ensures RunsSorted(cmp, Pass(cmp, s, k), 2 * k)
    decreases |s|
  {
    hide TotalPreorder; hide Sorted; hide Merge; hide Pass; hide RunsSorted;
    if s == [] {
      NoRuns(cmp, s, k);
    } else {
      var m := Min(k, |s|);
      var n := Min(k, |s| - m);
      FirstTwoRuns(cmp, s, k, m, n);
      MergeSorted(cmp, d, s[..m], s[m..m + n]);
      PassDoublesRuns(cmp, d, s[m + n..], k);
      PassCons(cmp, s, k, m, n);
      PrependRun(cmp, Merge(cmp, s[..m], s[m..m + n]), Pass(cmp, s[m + n..], k), 2 * k);
    }
  }

  lemma {:induction false} NoRuns<T>(cmp: Cmp<T>, s: seq<T>, k: nat)
    requires 0 < k && s == []
    ensures RunsSorted(cmp, Pass(cmp, s, k), 2 * k)
  {
  }

  lemma {:induction false} RunsOfOne<T>(cmp: Cmp<T>, s: seq<T>)
    ensures RunsSorted(cmp, s, 1)
  {
    if s != [] {
      RunsOfOne(cmp, s[1..]);
      assert Sorted(cmp, s[..1]);
    }
  }

  lemma {:induction false} OneRun<T>(cmp: Cmp<T>, s: seq<T>, k: nat)
    requires 0 < k && |s| <= k
    requires RunsSorted(cmp, s, k)
    ensures Sorted(cmp, s)
  {
    if s != [] {
      assert s[..|s|] == s;
    }
  }

  lemma {:induction false} SortFromSorts<T>(cmp: Cmp<T>, d: set<T>, s: seq<T>, k: nat)
    requires 0 < k
    requires TotalPreorder(cmp, d) && Within(s, d)
    requires RunsSorted(cmp, s, k)
    ensures Sorted(cmp, SortFrom(cmp, s, k))
    decreases if |s| <= k then 0 else |s| - k, if |s| <= 2 * k then 0 else 1
  {
    PassDoublesRuns(cmp, d, s, k);
    MergesAtMostOne(|s|, k);
    var r := Pass(cmp, s, k);
    if Merges(|s|, k) <= 1 {
      OneRun(cmp, r, 2 * k);
    } else {
      PassPermutes(cmp, s, k);
      PermutationWithin(s, r, d);
      SortFromSorts(cmp, d, r, 2 * k);
    }
  }

  // ---------- Stability ----------

  lemma {:induction false} ClassCons<T>(cmp: Cmp<T>, y: T, s: seq<T>, x: T)
    ensures Class(cmp, [y] + s, x) == (if Same(cmp, y, x) then [y] else []) + Class(cmp, s, x)
  {
    assert ([y] + s)[1..] == s;
  }

  lemma ClassNil<T>(cmp: Cmp<T>, x: T)
    ensures Class(cmp, [], x) == []
  {
  }

  lemma {:induction false} ClassConcat<T>(cmp: Cmp<T>, s: seq<T>, t: seq<T>, x: T)
    ensures Class(cmp, s + t, x) == Class(cmp, s, x) + Class(cmp, t, x)
  {
    hide Class; hide Same;
    if s == [] {
      assert s + t == t;
      ClassNil(cmp, x);
    } else {
      ClassConcat(cmp, s[1..], t, x);
      ClassCons(cmp, s[0], s[1..] + t, x);
      ClassCons(cmp, s[0], s[1..], x);
      assert s + t == [s[0]] + (s[1..] + t) && s == [s[0]] + s[1..];
    }
  }

  lemma {:induction false} ClassEmpty<T>(cmp: Cmp<T>, s: seq<T>, x: T)
    requires forall i :: 0 <= i < |s| ==> !Same(cmp, s[i], x)
    ensures Class(cmp, s, x) == []
  {
    if s != [] {
      ClassEmpty(cmp, s[1..], x);
    }
  }

  /** A sorted sequence whose head is strictly above `y` has no element equal to
      an `x` that `y` equals. */
  lemma {:induction false} NoneAbove<T>(cmp: Cmp<T>, d: set<T>, s: seq<T>, y: T, x: T)
    requires TotalPreorder(cmp, d)
    requires Within(s, d) && y in d && x in d
    requires Sorted(cmp, s)
    requires s != [] && !Le(cmp, s[0], y)
    requires Same(cmp, y, x)
    ensures Class(cmp, s, x) == []
  {
    forall i | 0 <= i < |s|
      ensures !Same(cmp, s[i], x)
    {
      assert i == 0 || Le(cmp, s[0], s[i]);
    }
    ClassEmpty(cmp, s, x);
  }

  lemma WithinTail<T>(s: seq<T>, d: set<T>)
    requires Within(s, d) && s != []
    ensures s[0] in d && Within(s[1..], d)
  {
  }

  lemma SortedTail<T>(cmp: Cmp<T>, s: seq<T>, d: set<T>)
    requires Sorted(cmp, s) && Within(s, d) && s != []
    ensures Sorted(cmp, s[1..]) && Within(s[1..], d) && s[0] in d
  {
  }

  lemma {:induction false} ClassHead<T>(cmp: Cmp<T>, s: seq<T>, x: T)
    requires s != []
    ensures Class(cmp, s, x) == (if Same(cmp, s[0], x) then [s[0]] else []) + Class(cmp, s[1..], x)
  {
    hide Same;
  }

  lemma Assoc<T>(a: seq<T>, b: seq<T>, c: seq<T>)
    ensures a + (b + c) == a + b + c
  {
  }

  lemma {:induction false} MergeStable<T>(cmp: Cmp<T>, d: set<T>, p: seq<T>, q: seq<T>, x: T)
    requires TotalPreorder(cmp, d)
    requires Within(p, d) && Within(q, d) && x in d
    requires Sorted(cmp, p)
    ensures Class(cmp, Merge(cmp, p, q), x) == Class(cmp, p, x) + Class(cmp, q, x)
  {
    hide TotalPreorder; hide Sorted; hide Within; hide Class; hide Same; hide Le;
    if p == [] || q == [] {
      ClassNil(cmp, x);
    } else if Le(cmp, p[0], q[0]) {
      SortedTail(cmp, p, d);
      MergeStable(cmp, d, p[1..], q, x);
      ClassCons(cmp, p[0], Merge(cmp, p[1..], q), x);
      ClassHead(cmp, p, x);
      Assoc(if Same(cmp, p[0], x) then [p[0]] else [], Class(cmp, p[1..], x), Class(cmp, q, x));
    } else {
      WithinTail(q, d);
      MergeStable(cmp, d, p, q[1..], x);
      ClassCons(cmp, q[0], Merge(cmp, p, q[1..]), x);
      ClassHead(cmp, q, x);
      if Same(cmp, q[0], x) {
        SortedTail(cmp, p, d);
        NoneAbove(cmp, d, p, q[0], x);
      }
    }
  }

  lemma {:induction false} PassStable<T>(cmp: Cmp<T>, d: set<T>, s: seq<T>, k: nat, x: T)
    requires 0 < k
    requires TotalPreorder(cmp, d) && Within(s, d) && x in d
    requires RunsSorted(cmp, s, k)
    ensures Class(cmp, Pass(cmp, s, k), x) == Class(cmp, s, x)
    decreases |s|
  {
    if s != [] {
      var m := Min(k, |s|);
      var n := Min(k, |s| - m);
      var p, q, rest := s[..m], s[m..m + n], s[m + n..];
      FirstTwoRuns(cmp, s, k, m, n);
      MergeStable(cmp, d, p, q, x);
      PassStable(cmp, d, rest, k, x);
      ClassConcat(cmp, Merge(cmp, p, q), Pass(cmp, rest, k), x);
      SplitRuns(s, m, n);
      ClassConcat(cmp, p + q, rest, x);
      ClassConcat(cmp, p, q, x);
    }
  }

  lemma {:induction false} SortFromStable<T>(cmp: Cmp<T>, d: set<T>, s: seq<T>, k: nat, x: T)
    requires 0 < k
    requires TotalPreorder(cmp, d) && Within(s, d) && x in d
    requires RunsSorted(cmp, s, k)
    ensures Class(cmp, SortFrom(cmp, s, k), x) == Class(cmp, s, x)
    decreases if |s| <= k then 0 else |s| - k, if |s| <= 2 * k then 0 else 1
  {
    PassStable(cmp, d, s, k, x);
    MergesAtMostOne(|s|, k);
    if Merges(|s|, k) > 1 {
      var r := Pass(cmp, s, k);
      PassPermutes(cmp, s, k);
      PermutationWithin(s, r, d);
      PassDoublesRuns(cmp, d, s, k);
      SortFromStable(cmp, d, r, 2 * k, x);
    }
  }

  /** The merge sort is a correct stable sort. */
  lemma MergeSortCorrect<T>(cmp: Cmp<T>, s: seq<T>)
    requires TotalPreorder(cmp, SetOf(s))
    ensures Sorted(cmp, MergeSort(cmp, s))
    ensures StablePermutation(cmp, s, MergeSort(cmp, s))
  {
    var d := SetOf(s);
    RunsOfOne(cmp, s);
    SortFromSorts(cmp, d, s, 1);
    SortPermutes(cmp, s, 1);
    forall x | x in s
      ensures Class(cmp, s, x) == Class(cmp, MergeSort(cmp, s), x)
    {
      SortFromStable(cmp, d, s, 1, x);
    }
  }

  // ---------- Ordered insertion is the same sort ----------

  lemma {:induction false} InsertBelow<T>(cmp: Cmp<T>, y: T, s: seq<T>, x: T)
    requires Below(cmp, y, s) && Le(cmp, y, x)
    ensures Below(cmp, y, Insert(cmp, s, x))
  {
    InsertPermutes(cmp, s, x);
    BelowPermutation(cmp, y, s + [x], Insert(cmp, s, x));
  }

  lemma {:induction false} InsertSorted<T>(cmp: Cmp<T>, d: set<T>, s: seq<T>, x: T)
    requires TotalPreorder(cmp, d)
    requires Within(s, d) && x in d
    requires Sorted(cmp, s)
    ensures Sorted(cmp, Insert(cmp, s, x))
  {
    if s != [] {
      if cmp(s[0], x) > 0 {
        assert !Le(cmp, s[0], x);
        BelowSorted(cmp, d, x, s);
        SortedCons(cmp, x, s);
      } else {
        InsertSorted(cmp, d, s[1..], x);
        InsertBelow(cmp, s[0], s[1..], x);
        SortedCons(cmp, s[0], Insert(cmp, s[1..], x));
      }
    }
  }

  lemma {:induction false} InsertStable<T>(cmp: Cmp<T>, d: set<T>, s: seq<T>, x: T, y: T)
    requires TotalPreorder(cmp, d)
    requires Within(s, d) && x in d && y in d
    requires Sorted(cmp, s)
    ensures Class(cmp, Insert(cmp, s, x), y) == Class(cmp, s, y) + Class(cmp, [x], y)
  {
    hide TotalPreorder; hide Sorted; hide Within; hide Class; hide Same;
    ClassNil(cmp, y);
    ClassCons(cmp, x, [], y);
    assert [x] + [] == [x];
    if s != [] {
      if cmp(s[0], x) > 0 {
        ClassCons(cmp, x, s, y);
        if Same(cmp, x, y) {
          NoneAbove(cmp, d, s, x, y);
        }
      } else {
        SortedTail(cmp, s, d);
        InsertStable(cmp, d, s[1..], x, y);
        ClassCons(cmp, s[0], Insert(cmp, s[1..], x), y);
        ClassHead(cmp, s, y);
        Assoc(if Same(cmp, s[0], y) then [s[0]] else [], Class(cmp, s[1..], y), Class(cmp, [x], y));
      }
    }
  }

  lemma {:induction false} InsertAllSorted<T>(cmp: Cmp<T>, d: set<T>, s: seq<T>)
    requires TotalPreorder(cmp, d) && Within(s, d)
    ensures Within(InsertAll(cmp, s), d)
    ensures Sorted(cmp, InsertAll(cmp, s))
  {
    InsertAllPermutes(cmp, s);
    PermutationWithin(s, InsertAll(cmp, s), d);
    if s != [] {
      var s0, x := s[..|s| - 1], s[|s| - 1];
      InsertAllSorted(cmp, d, s0);
      InsertSorted(cmp, d, InsertAll(cmp, s0), x);
    }
  }

  lemma {:induction false} InsertAllStable<T>(cmp: Cmp<T>, d: set<T>, s: seq<T>, y: T)
    requires TotalPreorder(cmp, d)
    requires Within(s, d) && y in d
    ensures Class(cmp, InsertAll(cmp, s), y) == Class(cmp, s, y)
  {
    if s != [] {
      var s0, x := s[..|s| - 1], s[|s| - 1];
      InsertAllStable(cmp, d, s0, y);
      InsertAllSorted(cmp, d, s0);
      InsertStable(cmp, d, InsertAll(cmp, s0), x, y);
      assert s == s0 + [x];
      ClassConcat(cmp, s0, [x], y);
    }
  }

  /** Two sorted rearrangements of the same elements start with equal elements. */
  lemma HeadsSame<T>(cmp: Cmp<T>, d: set<T>, s: seq<T>, t: seq<T>)
    requires TotalPreorder(cmp, d) && Within(s, d)
    requires Sorted(cmp, s) && Sorted(cmp, t)
    requires multiset(s) == multiset(t) && s != [] && t != []
    ensures Same(cmp, s[0], t[0])
  {
    assert s[0] in multiset(t) && t[0] in multiset(s);
    assert s[0] in t && t[0] in s;
    assert Le(cmp, s[0], s[0]);
    PermutationWithin(s, t, d);
    assert Le(cmp, t[0], t[0]);
  }

  lemma TailsPermute<T>(x: T, s: seq<T>, t: seq<T>)
    requires multiset([x] + s) == multiset([x] + t)
    ensures multiset(s) == multiset(t)
  {
    assert multiset(s) == multiset([x] + s) - multiset{x};
    assert multiset(t) == multiset([x] + t) - multiset{x};
  }

  /** The first elements are equal elements with the same first place in their class. */
  lemma {:induction false} HeadsEqual<T>(cmp: Cmp<T>, d: set<T>, s: seq<T>, t: seq<T>)
    requires TotalPreorder(cmp, d) && Within(s, d)
    requires Sorted(cmp, s) && Sorted(cmp, t)
    requires multiset(s) == multiset(t) && s != [] && t != []
    requires Class(cmp, s, s[0]) == Class(cmp, t, s[0])
    ensures s[0] == t[0]
  {
    HeadsSame(cmp, d, s, t);
    assert Le(cmp, s[0], s[0]);
    assert Class(cmp, s, s[0])[0] == s[0] && Class(cmp, t, s[0])[0] == t[0];
  }

  lemma SameSize<T>(s: seq<T>, t: seq<T>)
    requires multiset(s) == multiset(t)
    ensures |s| == |t|
  {
    assert |s| == |multiset(s)| && |t| == |multiset(t)|;
  }

  /** A stable sort is unique: order and stability leave no freedom. */
  lemma {:induction false} StableSortUnique<T>(cmp: Cmp<T>, d: set<T>, s: seq<T>, t: seq<T>)
    requires TotalPreorder(cmp, d) && Within(s, d)
    requires Sorted(cmp, s) && Sorted(cmp, t)
    requires multiset(s) == multiset(t)
    requires forall x :: x in d ==> Class(cmp, s, x) == Class(cmp, t, x)
    ensures s == t
  {
    hide TotalPreorder; hide Sorted; hide Within; hide Class;
    SameSize(s, t);
    if s != [] {
      SortedTail(cmp, s, d);
      PermutationWithin(s, t, d);
      SortedTail(cmp, t, d);
      HeadsEqual(cmp, d, s, t);
      var x, s1, t1 := s[0], s[1..], t[1..];
      assert s == [x] + s1 && t == [x] + t1;
      TailsPermute(x, s1, t1);
      forall y | y in d
        ensures Class(cmp, s1, y) == Class(cmp, t1, y)
      {
        ClassTail(cmp, x, s1, t1, y);
      }
      StableSortUnique(cmp, d, s1, t1);
    }
  }

  lemma {:induction false} ClassTail<T>(cmp: Cmp<T>, x: T, s: seq<T>, t: seq<T>, y: T)
    requires Class(cmp, [x] + s, y) == Class(cmp, [x] + t, y)
    ensures Class(cmp, s, y) == Class(cmp, t, y)
  {
    ClassCons(cmp, x, s, y);
    ClassCons(cmp, x, t, y);
    var h := if Same(cmp, x, y) then [x] else [];
    assert (h + Class(cmp, s, y))[|h|..] == Class(cmp, s, y);
    assert (h + Class(cmp, t, y))[|h|..] == Class(cmp, t, y);
  }

  /** Two routes, one order: ordered insertion one by one gives exactly what
      appending everything and sorting once gives. */
  lemma {:induction false} InsertionEqualsMergeSort<T>(cmp: Cmp<T>, s: seq<T>)
    requires TotalPreorder(cmp, SetOf(s))
    ensures InsertAll(cmp, s) == MergeSort(cmp, s)
  {
    var d := SetOf(s);
    var a, b := MergeSort(cmp, s), InsertAll(cmp, s);
    MergeSortCorrect(cmp, s);
    InsertAllSorted(cmp, d, s);
    InsertAllPermutes(cmp, s);
    PermutationWithin(s, a, d);
    forall x | x in d
      ensures Class(cmp, a, x) == Class(cmp, b, x)
    {
      assert x in s;
      InsertAllStable(cmp, d, s, x);
    }
    StableSortUnique(cmp, d, a, b);
  }
}

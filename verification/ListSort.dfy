/** `HASH_SRT`: the in-place bottom-up merge sort of the application-order
    list.  Each of the macro's nested loops is a method here; what each one
    leaves in memory is stated with the sequence functions of `StableSort`. */
module ListSort {
  import opened Bits
  import opened Elements
  import opened StableSort

  ghost predicate Apart(s: seq<Element>, t: seq<Element>) {
    forall i, j :: 0 <= i < |s| && 0 <= j < |t| ==> s[i] != t[j]
  }

  /** Between two emitted elements: `out` is finished except for the `next` of
      its last element, `p` is what is left of the left run, and `q` is the
      untouched remainder of the list, starting at the right run. */
  ghost predicate MergeState(out: seq<Element>, p: seq<Element>, q: seq<Element>,
                             list: Element?, tail: Element?, hp: Element?, hq: Element?)
    reads out, p, q
  {
    && Distinct(out) && Distinct(p) && Distinct(q)
    && Apart(out, p) && Apart(out, q) && Apart(p, q)
    && Run(out) && Backward(out)
    && list == At(out, 0) && tail == At(out, |out| - 1)
    && Run(p) && (p != [] ==> hp == p[0])
    && Forward(q) && hq == At(q, 0)
  }

  ghost predicate AllWithin(out: seq<Element>, p: seq<Element>, q: seq<Element>, d: set<Element>) {
    Within(out, d) && Within(p, d) && Within(q, d)
  }

  /** At most the first `n` elements, and what follows them. */
  function Take<T>(s: seq<T>, n: nat): seq<T> { s[..Min(n, |s|)] }
  function Drop<T>(s: seq<T>, n: nat): seq<T> { s[Min(n, |s|)..] }

  lemma {:induction false} StepLeft<T>(cmp: Cmp<T>, p: seq<T>, q: seq<T>, n: nat)
    requires p != []
    requires n == 0 || q == [] || Le(cmp, p[0], q[0])
    ensures Merge(cmp, p, Take(q, n)) == [p[0]] + Merge(cmp, p[1..], Take(q, n))
  {
  }

  lemma {:induction false} StepRight<T>(cmp: Cmp<T>, p: seq<T>, q: seq<T>, n: nat)
    requires 0 < n && q != []
    requires p == [] || !Le(cmp, p[0], q[0])
    ensures Merge(cmp, p, Take(q, n)) == [q[0]] + Merge(cmp, p, Take(q[1..], n - 1))
    ensures Drop(q, n) == Drop(q[1..], n - 1)
  {
    assert Take(q, n)[1..] == Take(q[1..], n - 1);
  }

  lemma Heads(out: seq<Element>, p: seq<Element>, q: seq<Element>,
              list: Element?, tail: Element?, hp: Element?, hq: Element?)
    requires MergeState(out, p, q, list, tail, hp, hq)
    ensures p != [] ==> hp == p[0]
    ensures hq == if q == [] then null else q[0]
    ensures tail != null ==> tail in out
  {
  }

  lemma LeftDone(out: seq<Element>, q: seq<Element>, list: Element?, tail: Element?, hp: Element?, hq: Element?)
    requires MergeState(out, [], q, list, tail, hp, hq)
    ensures MergeState(out, [], q, list, tail, null, hq)
  {
  }

  lemma PopLeft(out: seq<Element>, p: seq<Element>, q: seq<Element>,
                list: Element?, tail: Element?, hp: Element, hq: Element?)
    requires MergeState(out, p, q, list, tail, hp, hq) && p != []
    ensures MergeState(out, p[1..], q, list, tail, hp.next, hq)
    ensures hp == p[0] && hp !in out && hp !in p[1..] && hp !in q
  {
  }

  lemma PopRight(out: seq<Element>, p: seq<Element>, q: seq<Element>,
                 list: Element?, tail: Element?, hp: Element?, hq: Element)
    requires MergeState(out, p, q, list, tail, hp, hq)
    ensures q != [] && MergeState(out, p, q[1..], list, tail, hp, hq.next)
    ensures hq == q[0] && hq !in out && hq !in p && hq !in q[1..]
  {
  }

  /** Links `e` behind `tail`: the last statements of the merge loop. */
  method Emit(e: Element, list0: Element?, tail0: Element?,
              ghost out: seq<Element>, ghost p: seq<Element>, ghost q: seq<Element>,
              ghost hp: Element?, ghost hq: Element?)
    returns (list: Element?, tail: Element?)
    requires MergeState(out, p, q, list0, tail0, hp, hq)
    requires e !in out && e !in p && e !in q
    modifies (if tail0 == null then {} else {tail0})`next, e`prev
    ensures MergeState(out + [e], p, q, list, tail, hp, hq)
  {
    list := list0;
    if tail0 != null {
      tail0.next := e;
    } else {
      list := e;
    }
    e.prev := tail0;
    tail := e;
  }

  /** What is still to be emitted: the rest of the merge, and then the rest of the list. */
  ghost predicate Remaining<T>(cmp: Cmp<T>, done: seq<T>, p: seq<T>, q: seq<T>, n: nat, merged: seq<T>, rest: seq<T>) {
    done + Merge(cmp, p, Take(q, n)) == merged && Drop(q, n) == rest
  }

  lemma {:induction false} RemainingStart<T>(cmp: Cmp<T>, done: seq<T>, p: seq<T>, q: seq<T>, n: nat)
    ensures Remaining(cmp, done, p, q, n, done + Merge(cmp, p, Take(q, n)), Drop(q, n))
  {
  }

  lemma RemainingEnd<T>(cmp: Cmp<T>, done: seq<T>, q: seq<T>, n: nat, merged: seq<T>, rest: seq<T>)
    requires Remaining(cmp, done, [], q, n, merged, rest)
    requires n == 0 || q == []
    ensures merged == done && rest == q
  {
  }

  lemma RemainingLeft<T>(cmp: Cmp<T>, done: seq<T>, p: seq<T>, q: seq<T>, n: nat, merged: seq<T>, rest: seq<T>)
    requires Remaining(cmp, done, p, q, n, merged, rest)
    requires p != []
    requires n == 0 || q == [] || Le(cmp, p[0], q[0])
    ensures Remaining(cmp, done + [p[0]], p[1..], q, n, merged, rest)
  {
    StepLeft(cmp, p, q, n);
    assert (done + [p[0]]) + Merge(cmp, p[1..], Take(q, n)) == done + ([p[0]] + Merge(cmp, p[1..], Take(q, n)));
  }

  lemma RemainingRight<T>(cmp: Cmp<T>, done: seq<T>, p: seq<T>, q: seq<T>, n: nat, merged: seq<T>, rest: seq<T>)
    requires Remaining(cmp, done, p, q, n, merged, rest)
    requires 0 < n && q != []
    requires p == [] || !Le(cmp, p[0], q[0])
    ensures Remaining(cmp, done + [q[0]], p, q[1..], n - 1, merged, rest)
  {
    StepRight(cmp, p, q, n);
    var m := Merge(cmp, p, Take(q[1..], n - 1));
    assert (done + [q[0]]) + m == done + ([q[0]] + m);
  }

  /** Merges the run of `psize0` elements at `p0` with at most `insize` elements at `q0`. */
  method MergeRuns(cmp: Cmp<Element>, insize: nat, list0: Element?, tail0: Element?,
                   p0: Element?, psize0: nat, q0: Element?,
                   ghost out: seq<Element>, ghost left: seq<Element>, ghost right: seq<Element>,
                   ghost d: set<Element>)
    returns (list: Element?, tail: Element?, q: Element?)
    requires MergeState(out, left, right, list0, tail0, p0, q0)
    requires psize0 == |left|
    requires AllWithin(out, left, right, d)
    modifies d`next, d`prev
    ensures MergeState(out + Merge(cmp, left, Take(right, insize)), [], Drop(right, insize), list, tail, null, q)
    ensures AllWithin(out + Merge(cmp, left, Take(right, insize)), [], Drop(right, insize), d)
  {
    hide MergeState; hide Remaining; hide Merge; hide Take; hide Drop;
    list, tail, q := list0, tail0, q0;
    var p, psize: nat, qsize: nat := p0, psize0, insize;
    ghost var done, ps, qs := out, left, right;
    ghost var merged, rest := out + Merge(cmp, left, Take(right, insize)), Drop(right, insize);
    RemainingStart(cmp, done, ps, qs, insize);
    Heads(done, ps, qs, list, tail, p, q);
    while psize != 0 || (qsize != 0 && q != null)
      invariant psize == |ps|
      invariant MergeState(done, ps, qs, list, tail, p, q)
      invariant ps != [] ==> p == ps[0]
      invariant q == if qs == [] then null else qs[0]
      invariant tail != null ==> tail in done
      invariant AllWithin(done, ps, qs, d)
      invariant Remaining(cmp, done, ps, qs, qsize, merged, rest)
      decreases psize + qsize
    {
      var e: Element;
      ghost var hp, hq, qn: nat := p, q, qsize;
      if psize == 0 {
        e, q := q, q.next;
        qsize := qsize - 1;
      } else if qsize == 0 || q == null {
        e, p := p, p.next;
        psize := psize - 1;
      } else if cmp(p, q) <= 0 {
        e, p := p, p.next;
        psize := psize - 1;
      } else {
        e, q := q, q.next;
        qsize := qsize - 1;
      }
      if psize < |ps| {
        RemainingLeft(cmp, done, ps, qs, qn, merged, rest);
        PopLeft(done, ps, qs, list, tail, hp, hq);
        ps := ps[1..];
      } else {
        RemainingRight(cmp, done, ps, qs, qn, merged, rest);
        PopRight(done, ps, qs, list, tail, hp, hq);
        qs := qs[1..];
      }
      list, tail := Emit(e, list, tail, done, ps, qs, p, q);
      done := done + [e];
      Heads(done, ps, qs, list, tail, p, q);
    }
    assert ps == [];
    RemainingEnd(cmp, done, qs, qsize, merged, rest);
    LeftDone(done, qs, list, tail, p, q);
  }

  /** Cuts the remainder of the list into a left run of `m` elements and the rest. */
  lemma CutRun(out: seq<Element>, s: seq<Element>, m: nat, list: Element?, tail: Element?, hp: Element?, hq: Element?)
    requires MergeState(out, [], s, list, tail, null, hp)
    requires m <= |s| && hq == At(s, m)
    ensures MergeState(out, s[..m], s[m..], list, tail, hp, hq)
  {
    forall i {:trigger s[m..][i].next} | 0 <= i < |s| - m
      ensures s[m..][i].next == At(s[m..], i + 1)
    {
      assert s[m..][i] == s[m + i];
      assert s[m + i].next == At(s, m + i + 1);
    }
  }

  /** What a pass has produced so far, with what it still makes of the rest, is the whole pass. */
  ghost predicate Passing<T>(cmp: Cmp<T>, done: seq<T>, rest: seq<T>, k: nat, nmerges: nat, s: seq<T>)
    requires 0 < k
  {
    && done + Pass(cmp, rest, k) == Pass(cmp, s, k)
    && nmerges + Merges(|rest|, k) == Merges(|s|, k)
  }

  function MergedPair<T>(cmp: Cmp<T>, s: seq<T>, k: nat): seq<T> {
    Merge(cmp, Take(s, k), Take(Drop(s, k), k))
  }

  lemma PassingStart<T>(cmp: Cmp<T>, s: seq<T>, k: nat)
    requires 0 < k
    ensures Passing(cmp, [], s, k, 0, s)
  {
  }

  lemma {:induction false} PassingEnd<T>(cmp: Cmp<T>, done: seq<T>, k: nat, nmerges: nat, s: seq<T>)
    requires 0 < k
    requires Passing(cmp, done, [], k, nmerges, s)
    ensures done == Pass(cmp, s, k) && nmerges == Merges(|s|, k)
  {
  }

  lemma {:induction false} PassUnfold<T>(cmp: Cmp<T>, s: seq<T>, k: nat)
    requires 0 < k && s != []
    ensures Pass(cmp, s, k) == MergedPair(cmp, s, k) + Pass(cmp, Drop(Drop(s, k), k), k)
  {
    var m := Min(k, |s|);
    var n := Min(k, |s| - m);
    assert Take(Drop(s, k), k) == s[m..m + n];
    assert Drop(Drop(s, k), k) == s[m + n..];
  }

  lemma {:induction false} MergesUnfold<T>(s: seq<T>, k: nat)
    requires 0 < k && s != []
    ensures Merges(|s|, k) == 1 + Merges(|Drop(Drop(s, k), k)|, k)
  {
    assert |Drop(Drop(s, k), k)| == |s| - Min(2 * k, |s|);
  }

  lemma PassingStep<T>(cmp: Cmp<T>, done: seq<T>, rest: seq<T>, k: nat, nmerges: nat, s: seq<T>)
    requires 0 < k && rest != []
    requires Passing(cmp, done, rest, k, nmerges, s)
    ensures Passing(cmp, done + MergedPair(cmp, rest, k), Drop(Drop(rest, k), k), k, nmerges + 1, s)
  {
    hide Pass; hide Merge; hide MergedPair; hide Merges; hide Drop;
    PassUnfold(cmp, rest, k);
    MergesUnfold(rest, k);
    var more := Pass(cmp, Drop(Drop(rest, k), k), k);
    assert (done + MergedPair(cmp, rest, k)) + more == done + (MergedPair(cmp, rest, k) + more);
  }

  /** Walks past the first run: at most `insize` elements from `p`. */
  method ScanRun(p: Element, insize: nat, ghost s: seq<Element>) returns (q: Element?, psize: nat)
    requires Forward(s) && p == At(s, 0) && 0 < insize
    ensures psize == Min(insize, |s|) && q == At(s, psize)
  {
    q, psize := p, 0;
    var i := 0;
    while i < insize
      invariant psize == i <= Min(insize, |s|)
      invariant q == At(s, i) && (q == null ==> i == insize)
    {
      psize := psize + 1;
      q := q.next;
      if q == null {
        break;
      }
      i := i + 1;
    }
  }

  /** Finds the next two runs at `p` and merges them. */
  method MergeNext(cmp: Cmp<Element>, insize: nat, list0: Element?, tail0: Element?, p: Element,
                   ghost out: seq<Element>, ghost s: seq<Element>, ghost d: set<Element>)
    returns (list: Element?, tail: Element?, q: Element?)
    requires 0 < insize
    requires MergeState(out, [], s, list0, tail0, null, p)
    requires AllWithin(out, [], s, d)
    modifies d`next, d`prev
    ensures MergeState(out + MergedPair(cmp, s, insize), [], Drop(Drop(s, insize), insize), list, tail, null, q)
    ensures AllWithin(out + MergedPair(cmp, s, insize), [], Drop(Drop(s, insize), insize), d)
    ensures |Drop(Drop(s, insize), insize)| < |s|
  {
    var psize;
    q, psize := ScanRun(p, insize, s);
    CutRun(out, s, psize, list0, tail0, p, q);
    list, tail, q := MergeRuns(cmp, insize, list0, tail0, p, psize, q, out, Take(s, insize), Drop(s, insize), d);
  }

  lemma NothingEmitted(s: seq<Element>, head: Element?)
    requires Distinct(s) && Forward(s) && head == At(s, 0)
    ensures MergeState([], [], s, null, null, null, head)
  {
  }

  /** Ends a finished list. */
  method Terminate(list: Element?, tail: Element?, ghost out: seq<Element>)
    requires MergeState(out, [], [], list, tail, null, null)
    modifies (if tail == null then {} else {tail})`next
    ensures AppLinked(out) && list == At(out, 0) && tail == At(out, |out| - 1)
  {
    if tail != null {
      tail.next := null;
    }
  }

  /** One pass over the list that starts at `list0`: merges its runs of `insize` two by two. */
  method MergePass(cmp: Cmp<Element>, insize: nat, list0: Element?, ghost s: seq<Element>, ghost d: set<Element>)
    returns (list: Element?, tail: Element?, nmerges: nat)
    requires 0 < insize
    requires Distinct(s) && Forward(s) && list0 == At(s, 0)
    requires Within(s, d)
    modifies d`next, d`prev
    ensures AppLinked(Pass(cmp, s, insize))
    ensures Within(Pass(cmp, s, insize), d)
    ensures var t := Pass(cmp, s, insize); list == At(t, 0) && tail == At(t, |t| - 1)
    ensures nmerges == Merges(|s|, insize)
  {
    hide Pass; hide Passing; hide Merges; hide MergedPair; hide MergeState; hide Take; hide Drop;
    var p := list0;
    list, tail, nmerges := null, null, 0;
    ghost var done, rest := [], s;
    PassingStart(cmp, s, insize);
    NothingEmitted(s, p);
    while p != null
      invariant MergeState(done, [], rest, list, tail, null, p)
      invariant p == At(rest, 0) && (tail != null ==> tail in done)
      invariant AllWithin(done, [], rest, d)
      invariant Passing(cmp, done, rest, insize, nmerges, s)
      decreases |rest|
    {
      nmerges := nmerges + 1;
      PassingStep(cmp, done, rest, insize, nmerges - 1, s);
      list, tail, p := MergeNext(cmp, insize, list, tail, p, done, rest, d);
      done, rest := done + MergedPair(cmp, rest, insize), Drop(Drop(rest, insize), insize);
      Heads(done, [], rest, list, tail, null, p);
    }
    assert rest == [];
    PassingEnd(cmp, done, insize, nmerges, s);
    Terminate(list, tail, done);
  }

  /** The whole sort of a nonempty list: passes of doubling run length until one merge sufficed. */
  method Sort(cmp: Cmp<Element>, head: Element, ghost s: seq<Element>)
    returns (list: Element, tail: Element)
    requires s != [] && Distinct(s) && Forward(s) && head == s[0]
    modifies s`next, s`prev
    ensures var t := MergeSort(cmp, s);
            |t| == |s| && AppLinked(t) && list == t[0] && tail == t[|t| - 1]
  {
    ghost var d := SetOf(s);
    var insize, looping := 1, true;
    var l: Element? := head;
    var t: Element? := null;
    ghost var cur := s;
    while looping
      invariant 0 < insize && |cur| == |s|
      invariant Distinct(cur) && Forward(cur) && Within(cur, d)
      invariant l == At(cur, 0)
      invariant looping ==> SortFrom(cmp, cur, insize) == MergeSort(cmp, s)
      invariant !looping ==> cur == MergeSort(cmp, s) && AppLinked(cur) && t == At(cur, |cur| - 1)
      decreases looping, |s| - insize, if |s| > 2 * insize then 1 else 0
    {
      var nmerges;
      l, t, nmerges := MergePass(cmp, insize, l, cur, d);
      MergesAtMostOne(|cur|, insize);
      cur := Pass(cmp, cur, insize);
      if nmerges <= 1 {
        looping := false;
      }
      insize := insize * 2;
    }
    list, tail := l, t;
  }
}

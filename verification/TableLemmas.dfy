/** What the operations on table values keep, and what they mean. */
module TableLemmas {
  import opened Bits
  import opened Elements
  import opened StableSort
  import opened TableSpec

  lemma DistinctConcat<T>(s: seq<T>, t: seq<T>)
    requires Distinct(s) && Distinct(t)
    requires forall x :: x in s ==> x !in t
    ensures Distinct(s + t)
  {
    forall i, j | 0 <= i < j < |s + t|
      ensures (s + t)[i] != (s + t)[j]
    {
      if i < |s| <= j {
        assert s[i] in s && t[j - |s|] in t;
      }
    }
  }

  // ---------- Removal ----------

  lemma {:induction false} RemoveMembers<T>(s: seq<T>, x: T)
    requires Distinct(s)
    ensures var r := Remove(s, x);
            && (forall y :: y in r <==> y in s && y != x)
            && Distinct(r)
            && |r| == |s| - (if x in s then 1 else 0)
  {
    if s != [] && s[0] != x {
      RemoveMembers(s[1..], x);
      assert s == [s[0]] + s[1..];
      DistinctConcat([s[0]], Remove(s[1..], x));
    } else if s != [] {
      assert s == [x] + s[1..];
    }
  }

  lemma {:induction false} RemoveWithin<T>(s: seq<T>, x: T)
    ensures forall i {:trigger Remove(s, x)[i]} :: 0 <= i < |Remove(s, x)| ==> Remove(s, x)[i] in s
  {
    if s != [] && s[0] != x {
      RemoveWithin(s[1..], x);
    }
  }

  /** Removing the element at index `k` of a sequence without duplicates cuts it out. */
  lemma {:induction false} RemoveAt<T>(s: seq<T>, k: nat)
    requires k < |s|
    requires Distinct(s)
    ensures Remove(s, s[k]) == s[..k] + s[k + 1..]
  {
    if k > 0 {
      RemoveAt(s[1..], k - 1);
      assert s[1..][k - 1] == s[k];
      assert [s[0]] + s[1..][..k - 1] == s[..k];
    }
  }

  // ---------- Placement ----------

  lemma PlacedSame(s: seq<Element>, t: seq<Element>, cs: seq<seq<Element>>)
    requires Placed(s, cs)
    requires forall x :: x in s <==> x in t
    ensures Placed(t, cs)
  {
  }

  lemma PushPlaced(s: seq<Element>, t: seq<Element>, cs: seq<seq<Element>>, x: Element)
    requires Placed(s, cs) && x !in s
    requires forall y :: y in t <==> y in s || y == x
    ensures Placed(t, Push(cs, x))
  {
    var n := |cs|;
    var b := Slot(x.hashv, n);
    var r := Push(cs, x);
    assert x !in cs[b];
    forall y | y in t
      ensures y in r[Slot(y.hashv, n)]
    {
      if y != x {
        assert y in cs[Slot(y.hashv, n)];
      }
    }
    forall c, i | 0 <= c < n && 0 <= i < |r[c]|
      ensures r[c][i] in t && Slot(r[c][i].hashv, n) == c
    {
      if c == b && i > 0 {
        assert r[c][i] == cs[c][i - 1];
      }
    }
  }

  lemma {:induction false} RemovePlaced(s: seq<Element>, cs: seq<seq<Element>>, x: Element)
    requires Placed(s, cs) && Distinct(s) && x in s
    ensures var b := Slot(x.hashv, |cs|);
            Placed(Remove(s, x), cs[b := Remove(cs[b], x)])
  {
    var b := Slot(x.hashv, |cs|);
    RemoveMembers(s, x);
    RemoveMembers(cs[b], x);
    PlacedLess(s, Remove(s, x), cs, Remove(cs[b], x), b, x);
  }

  lemma PlacedLess(s: seq<Element>, t: seq<Element>, cs: seq<seq<Element>>, c: seq<Element>, b: nat, x: Element)
    requires Placed(s, cs) && b < |cs| && x in cs[b]
    requires forall y :: y in t <==> y in s && y != x
    requires forall y :: y in c <==> y in cs[b] && y != x
    requires Distinct(c)
    ensures Placed(t, cs[b := c])
  {
    hide Slot; hide Distinct;
    var r := cs[b := c];
    assert Slot(x.hashv, |cs|) == b;
    forall y | y in t
      ensures y in r[Slot(y.hashv, |r|)]
    {
      assert y in cs[Slot(y.hashv, |cs|)];
    }
    forall k, i | 0 <= k < |r| && 0 <= i < |r[k]|
      ensures r[k][i] in t && Slot(r[k][i].hashv, |r|) == k
    {
      var y := r[k][i];
      assert y in r[k];
      assert y in cs[k];
    }
  }

  lemma {:induction false} PushAllPlaced(n: nat, s: seq<Element>)
    requires 0 < n && Distinct(s)
    ensures Placed(s, PushAll(EmptyChains(n), s))
  {
    if s != [] {
      var s0, x := s[..|s| - 1], s[|s| - 1];
      PushAllPlaced(n, s0);
      assert s == s0 + [x];
      PushPlaced(s0, s, PushAll(EmptyChains(n), s0), x);
    }
  }

  // ---------- All chains end to end ----------

  lemma {:induction false} FlattenMembers(cs: seq<seq<Element>>, x: Element)
    ensures x in Flatten(cs) <==> exists b :: 0 <= b < |cs| && x in cs[b]
  {
    if cs != [] {
      FlattenMembers(cs[1..], x);
      if x in Flatten(cs[1..]) {
        var b :| 0 <= b < |cs[1..]| && x in cs[1..][b];
        assert x in cs[b + 1];
      }
      if exists b :: 0 <= b < |cs| && x in cs[b] {
        var b :| 0 <= b < |cs| && x in cs[b];
        if b > 0 {
          assert x in cs[1..][b - 1];
        }
      }
    }
  }

  lemma {:induction false} FlattenDistinct(cs: seq<seq<Element>>)
    requires forall b :: 0 <= b < |cs| ==> Distinct(cs[b])
    requires forall b, c, x :: 0 <= b < c < |cs| && x in cs[b] ==> x !in cs[c]
    ensures Distinct(Flatten(cs))
  {
    if cs != [] {
      FlattenDistinct(cs[1..]);
      forall x | x in cs[0]
        ensures x !in Flatten(cs[1..])
      {
        FlattenMembers(cs[1..], x);
      }
      DistinctConcat(cs[0], Flatten(cs[1..]));
    }
  }

  lemma {:induction false} DistinctSize(s: seq<Element>)
    requires Distinct(s)
    ensures |SetOf(s)| == |s|
  {
    if s != [] {
      DistinctSize(s[1..]);
      assert s == [s[0]] + s[1..];
      assert SetOf(s) == {s[0]} + SetOf(s[1..]);
    }
  }

  /** The chains together hold each element exactly once. */
  lemma {:induction false} FlattenPlaced(s: seq<Element>, cs: seq<seq<Element>>)
    requires Placed(s, cs) && Distinct(s)
    ensures Distinct(Flatten(cs))
    ensures forall x :: x in Flatten(cs) <==> x in s
    ensures |Flatten(cs)| == |s|
  {
    forall b, c, x | 0 <= b < c < |cs| && x in cs[b]
      ensures x !in cs[c]
    {
    }
    FlattenDistinct(cs);
    forall x
      ensures x in Flatten(cs) <==> x in s
    {
      FlattenMembers(cs, x);
    }
    assert SetOf(Flatten(cs)) == SetOf(s);
    DistinctSize(Flatten(cs));
    DistinctSize(s);
  }

  // ---------- Expansion ----------

  /** The elements of `s` that belong in bucket `b` of `n`, in their order in `s`. */
  ghost function Select(s: seq<Element>, b: nat, n: nat): seq<Element>
    requires 0 < n
  {
    if s == [] then []
    else Select(s[..|s| - 1], b, n) + (if Slot(s[|s| - 1].hashv, n) == b then [s[|s| - 1]] else [])
  }

  ghost function Reverse<T>(s: seq<T>): seq<T> {
    if s == [] then [] else [s[|s| - 1]] + Reverse(s[..|s| - 1])
  }

  lemma {:induction false} ReverseSnoc<T>(s: seq<T>, x: T)
    ensures Reverse(s + [x]) == [x] + Reverse(s)
  {
    assert (s + [x])[..|s + [x]| - 1] == s;
  }

  lemma {:induction false} PushAllSelects(n: nat, s: seq<Element>, b: nat)
    requires b < n
    ensures PushAll(EmptyChains(n), s)[b] == Reverse(Select(s, b, n))
  {
    if s != [] {
      var s0, x := s[..|s| - 1], s[|s| - 1];
      PushAllSelects(n, s0, b);
      var t := Select(s0, b, n);
      if Slot(x.hashv, n) == b {
        ReverseSnoc(t, x);
        assert Select(s, b, n) == t + [x];
      } else {
        assert Select(s, b, n) == t + [] == t;
      }
    }
  }

  lemma {:induction false} SelectConcat(s: seq<Element>, t: seq<Element>, b: nat, n: nat)
    requires 0 < n
    ensures Select(s + t, b, n) == Select(s, b, n) + Select(t, b, n)
  {
    if t == [] {
      assert s + t == s;
    } else {
      var t0 := t[..|t| - 1];
      SelectConcat(s, t0, b, n);
      assert (s + t)[..|s + t| - 1] == s + t0;
      assert (s + t)[|s + t| - 1] == t[|t| - 1];
    }
  }

  lemma {:induction false} SelectNone(s: seq<Element>, b: nat, n: nat)
    requires 0 < n
    requires forall i :: 0 <= i < |s| ==> Slot(s[i].hashv, n) != b
    ensures Select(s, b, n) == []
  {
    if s != [] {
      SelectNone(s[..|s| - 1], b, n);
    }
  }

  /** Chains `from..` of a table of `n`: only chain `b % n` feeds bucket `b` of the doubled table. */
  lemma {:induction false} SelectFlatten(cs: seq<seq<Element>>, from: nat, b: nat, n: nat)
    requires 0 < n && b < 2 * n && from + |cs| == n
    requires forall c, i :: 0 <= c < |cs| && 0 <= i < |cs[c]| ==> Slot(cs[c][i].hashv, n) == from + c
    ensures Select(Flatten(cs), b, 2 * n) == if b % n >= from then Select(cs[b % n - from], b, 2 * n) else []
    decreases |cs|
  {
    if cs != [] {
      assert forall c :: 0 <= c < |cs[1..]| ==> cs[1..][c] == cs[c + 1];
      SelectFlatten(cs[1..], from + 1, b, n);
      SelectConcat(cs[0], Flatten(cs[1..]), b, 2 * n);
      if b % n != from {
        forall i | 0 <= i < |cs[0]|
          ensures Slot(cs[0][i].hashv, 2 * n) != b
        {
          ModOfDouble(cs[0][i].hashv, n);
        }
        SelectNone(cs[0], b, 2 * n);
      }
    }
  }

  /** Doubling splits each chain: bucket `b` receives, reversed, exactly the
      elements of the old bucket `b % n` whose hash selects `b` among `2n`. */
  lemma {:induction false} ExpandedChain(v: View, b: nat)
    requires Inv(v) && b < 2 * |v.chains|
    ensures |Expanded(v).chains| == 2 * |v.chains|
    ensures Expanded(v).chains[b] == Reverse(Select(v.chains[b % |v.chains|], b, 2 * |v.chains|))
  {
    var n := |v.chains|;
    PushAllSelects(2 * n, Flatten(v.chains), b);
    SelectFlatten(v.chains, 0, b, n);
  }

  lemma ExpandedInv(v: View)
    requires Placed(v.items, v.chains) && Distinct(v.items) && v.items != []
    requires |v.chains| == |v.mults| == Pow2(v.log2)
    requires v.stats.ineff > 1 ==> v.stats.noexpand
    ensures Inv(Expanded(v))
  {
    var n := 2 * |v.chains|;
    var s := Flatten(v.chains);
    FlattenPlaced(v.items, v.chains);
    PushAllPlaced(n, s);
    PlacedSame(s, v.items, PushAll(EmptyChains(n), s));
  }

  // ---------- Every operation keeps the invariant ----------

  lemma EmptyInv()
    ensures Inv(EmptyView())
  {
  }

  lemma HashedInv(v: View, s: seq<Element>, x: Element)
    requires Inv(v) && x !in v.items
    requires Distinct(s)
    requires forall y :: y in s <==> y in v.items || y == x
    ensures Inv(Hashed(v.(items := s), x))
    ensures Hashed(v.(items := s), x).items == s
  {
    PushPlaced(v.items, s, v.chains, x);
    var w := v.(items := s, chains := Push(v.chains, x));
    assert x in s;
    if Overfull(w, Slot(x.hashv, |w.chains|)) {
      ExpandedInv(w);
    }
  }

  lemma AppendedInv(v: View, x: Element)
    requires Inv(v) && x !in v.items
    ensures Inv(Appended(v, x))
    ensures Appended(v, x).items == v.items + [x]
  {
    HashedInv(v, v.items + [x], x);
  }

  lemma {:induction false} InsertMembers<T>(cmp: Cmp<T>, s: seq<T>, x: T)
    requires Distinct(s)
    requires x !in s
    ensures var r := Insert(cmp, s, x);
            && (forall y :: y in r <==> y in s || y == x)
            && Distinct(r)
  {
    if s != [] {
      assert s == [s[0]] + s[1..];
      if cmp(s[0], x) <= 0 {
        InsertMembers(cmp, s[1..], x);
        DistinctConcat([s[0]], Insert(cmp, s[1..], x));
      } else {
        DistinctConcat([x], s);
      }
    }
  }

  lemma {:induction false} InsertedInv(cmp: Cmp<Element>, v: View, x: Element)
    requires Inv(v) && x !in v.items
    ensures Inv(Inserted(cmp, v, x))
    ensures Inserted(cmp, v, x).items == Insert(cmp, v.items, x)
  {
    InsertMembers(cmp, v.items, x);
    HashedInv(v, Insert(cmp, v.items, x), x);
  }

  lemma {:induction false} DeletedInv(v: View, x: Element)
    requires Inv(v) && x in v.items
    ensures Inv(Deleted(v, x))
    ensures Deleted(v, x).items == Remove(v.items, x)
  {
    RemoveMembers(v.items, x);
    if |v.items| > 1 {
      RemovePlaced(v.items, v.chains, x);
    } else {
      assert v.items == [x];
    }
  }

  lemma PermutationDistinct(s: seq<Element>, t: seq<Element>)
    requires multiset(s) == multiset(t) && Distinct(s)
    ensures Distinct(t)
    ensures forall x :: x in s <==> x in t
  {
    forall x
      ensures x in s <==> x in t
    {
      assert x in multiset(s) <==> x in s;
      assert x in multiset(t) <==> x in t;
    }
    assert |t| == |multiset(t)| == |multiset(s)| == |s|;
    DistinctSize(s);
    assert SetOf(s) == SetOf(t);
    FullSizeDistinct(t);
  }

  lemma ElementsBound(s: seq<Element>)
    ensures |SetOf(s)| <= |s|
  {
    if s != [] {
      ElementsBound(s[1..]);
      assert s == [s[0]] + s[1..];
      assert SetOf(s) == {s[0]} + SetOf(s[1..]);
    }
  }

  /** A sequence with as many different elements as positions has no duplicates. */
  lemma {:induction false} FullSizeDistinct(s: seq<Element>)
    requires |SetOf(s)| == |s|
    ensures Distinct(s)
  {
    if s != [] {
      var t := s[1..];
      assert s == [s[0]] + t;
      assert SetOf(s) == {s[0]} + SetOf(t);
      ElementsBound(t);
      assert s[0] in t ==> SetOf(s) == SetOf(t);
      FullSizeDistinct(t);
    }
  }

  lemma SortedInv(cmp: Cmp<Element>, v: View)
    requires Inv(v)
    ensures Inv(SortedView(cmp, v))
  {
    var t := MergeSort(cmp, v.items);
    SortPermutes(cmp, v.items, 1);
    PermutationDistinct(v.items, t);
    PlacedSame(v.items, t, v.chains);
    assert |t| == |multiset(t)| == |multiset(v.items)|;
  }

  // ---------- Expansion statistics ----------

  /** The multiplier that the moving loop leaves behind, in closed form. */
  lemma {:induction false} MultClosed(count: nat, ideal: nat)
    requires 0 < ideal
    ensures MultAfter(count, ideal) == Min(Excess(count, ideal), CeilDiv(count, ideal))
  {
    if count == 0 {
      CeilBounds(0, ideal);
    } else {
      var c := count - 1;
      MultClosed(c, ideal);
      CeilStep(c, ideal);
      CeilBounds(c, ideal);
      var k := CeilDiv(c, ideal);
      if count > ideal && c - ideal < k {
        ExcessBelow(c - ideal, ideal, k, c);
      }
    }
  }

  /** A chain is never longer than its multiplier plus one times the ideal length. */
  lemma {:induction false} MultBound(count: nat, ideal: nat)
    requires 0 < ideal
    ensures count <= ideal * (MultAfter(count, ideal) + 1)
  {
    MultClosed(count, ideal);
    CeilBounds(count, ideal);
    BoundFromMin(count, ideal, CeilDiv(count, ideal), MultAfter(count, ideal));
  }

  lemma BoundFromMin(count: nat, ideal: nat, k: nat, m: nat)
    requires 0 < ideal && count <= k * ideal
    requires m == Min(Excess(count, ideal), k)
    ensures count <= ideal * (m + 1)
  {
    assert ideal * (m + 1) == m * ideal + ideal;
    if m != k && count > ideal {
      MulAtMost(1, ideal, m);
      assert ideal * m == m * ideal;
    }
  }

  lemma CeilBounds(n: nat, d: nat)
    requires 0 < d
    ensures n <= CeilDiv(n, d) * d < n + d
  {
    var q, r := n / d, n % d;
    assert n == d * q + r;
    assert q * d == d * q && (q + 1) * d == d * q + d;
  }

  lemma CeilStep(n: nat, d: nat)
    requires 0 < d
    ensures CeilDiv(n + 1, d) == CeilDiv(n, d) + (if n == CeilDiv(n, d) * d then 1 else 0)
  {
    var q, r := n / d, n % d;
    assert n == d * q + r;
    assert q * d == d * q && (q + 1) * d == d * q + d;
    if r + 1 < d {
      ModUnique(n + 1, d, q, r + 1);
    } else {
      ModUnique(n + 1, d, q + 1, 0);
    }
  }

  /** While the excess is below the ceiling, one more element still exceeds the multiplier's reach. */
  lemma ExcessBelow(e: nat, ideal: nat, k: nat, c: nat)
    requires 0 < ideal && c == e + ideal && e < k && k * ideal < c + ideal
    ensures c + 1 > e * ideal
  {
    assert (e + 1) * ideal <= k * ideal by {
      MulAtMost(e + 1, k, ideal);
    }
    assert (e + 1) * ideal == e * ideal + ideal;
  }

  lemma MulAtMost(a: nat, b: nat, d: nat)
    requires a <= b
    ensures a * d <= b * d
  {
  }

  /** Every element is in the chain that its hash, modulo the number of buckets, selects, and in no other. */
  lemma PlacedByHash(v: View, x: Element, b: nat)
    requires Inv(v) && x in v.items && b < |v.chains|
    ensures x in v.chains[b] <==> b == x.hashv % |v.chains|
  {
  }
}

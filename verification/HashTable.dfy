/** The pointer code of `uthash.h`: one table with its application-order list
    and its bucket chains.  The table record that the source reaches through
    the head element is kept in the table object itself; `head == null` means
    there is no table.  The ghost field `v` is the abstract value of
    `TableSpec`; every method is proved to apply one of its operations to it. */
module HashTable {
  import opened Bits
  import opened Elements
  import opened StableSort
  import opened TableSpec
  import opened TableLemmas
  import ListSort

  datatype Bucket = Bucket(head: Element?, count: nat, expandMult: nat)

  ghost function Members(cs: seq<seq<Element>>): set<Element> {
    set b, i | 0 <= b < |cs| && 0 <= i < |cs[b]| :: cs[b][i]
  }

  /** Chain `b` of the array is exactly `cs[b]`, with its count and multiplier. */
  ghost predicate BucketsHold(bk: array<Bucket>, cs: seq<seq<Element>>, ms: seq<nat>)
    reads bk, Members(cs)`hhNext, Members(cs)`hhPrev
  {
    && bk.Length == |cs| == |ms|
    && (forall b :: 0 <= b < |cs| ==> bk[b] == Bucket(At(cs[b], 0), |cs[b]|, ms[b]))
    && (forall b :: 0 <= b < |cs| ==>
          assert forall i :: 0 <= i < |cs[b]| ==> cs[b][i] in Members(cs);
          ChainLinked(cs[b]))
  }

  /** No element is in two chains. */
  ghost predicate ChainsApart(cs: seq<seq<Element>>) {
    forall b, c, x :: 0 <= b < |cs| && 0 <= c < |cs| && b != c && x in cs[b] ==> x !in cs[c]
  }

  /** `HASH_TO_BKT`. */
  function ToBkt(hashv: nat, numBkts: nat): nat
    requires 0 < numBkts
  {
    BitAnd(hashv, numBkts - 1)
  }

  lemma {:induction false} ToBktIsSlot(hashv: nat, log2: nat)
    ensures ToBkt(hashv, Pow2(log2)) == Slot(hashv, Pow2(log2))
  {
    MaskIsMod(hashv, log2);
  }

  /** Links `x` in front of the chain that starts at `h`. */
  method LinkFront(x: Element, h: Element?, ghost c: seq<Element>)
    requires ChainLinked(c) && h == At(c, 0) && x !in c
    modifies x`hhNext, x`hhPrev, (if h == null then {} else {h})`hhPrev
    ensures ChainLinked([x] + c)
  {
    x.hhNext := h;
    x.hhPrev := null;
    if h != null {
      h.hhPrev := x;
    }
  }

  lemma OtherChain(cs: seq<seq<Element>>, b: nat, c: nat, x: Element)
    requires ChainsApart(cs) && b < |cs| && c < |cs| && b != c && x !in cs[c]
    ensures forall i :: 0 <= i < |cs[c]| ==> cs[c][i] != x && cs[c][i] !in cs[b]
  {
  }

  /** The linking half of `HASH_ADD_TO_BKT`. */
  method AddToBkt(bk: array<Bucket>, b: nat, x: Element, ghost cs: seq<seq<Element>>, ghost ms: seq<nat>)
    requires BucketsHold(bk, cs, ms) && ChainsApart(cs)
    requires b < |cs| && forall c :: 0 <= c < |cs| ==> x !in cs[c]
    modifies bk, x`hhNext, x`hhPrev, cs[b]`hhPrev
    ensures BucketsHold(bk, cs[b := [x] + cs[b]], ms)
  {
    var h := bk[b].head;
    bk[b] := bk[b].(count := bk[b].count + 1);
    LinkFront(x, h, cs[b]);
    bk[b] := bk[b].(head := x);
    ghost var r := cs[b := [x] + cs[b]];
    forall c | 0 <= c < |r|
      ensures ChainLinked(r[c])
    {
      if c != b {
        OtherChain(cs, b, c, x);
      }
    }
  }

  /** Unlinks `x`, the element at index `k` of its chain, from its neighbours. */
  method Unlink(x: Element, ghost c: seq<Element>, ghost k: nat)
    requires ChainLinked(c) && k < |c| && x == c[k]
    modifies c`hhNext, c`hhPrev
    ensures ChainLinked(c[..k] + c[k + 1..])
    ensures x.hhNext == At(c, k + 1)
  {
    if x.hhPrev != null {
      x.hhPrev.hhNext := x.hhNext;
    }
    if x.hhNext != null {
      x.hhNext.hhPrev := x.hhPrev;
    }
    ghost var t := c[..k] + c[k + 1..];
    forall i | 0 <= i < |t|
      ensures t[i].hhNext == At(t, i + 1) && t[i].hhPrev == At(t, i - 1)
    {
      assert t[i] == if i < k then c[i] else c[i + 1];
      assert i + 1 < |t| ==> t[i + 1] == if i + 1 < k then c[i + 1] else c[i + 2];
      assert 0 < i ==> t[i - 1] == if i - 1 < k then c[i - 1] else c[i];
    }
  }

  /** `HASH_DEL_IN_BKT`. */
  method DelInBkt(bk: array<Bucket>, b: nat, x: Element, ghost cs: seq<seq<Element>>, ghost ms: seq<nat>)
    requires BucketsHold(bk, cs, ms) && ChainsApart(cs)
    requires b < |cs| && x in cs[b]
    modifies bk, cs[b]`hhNext, cs[b]`hhPrev
    ensures BucketsHold(bk, cs[b := Remove(cs[b], x)], ms)
  {
    ghost var c := cs[b];
    ghost var k :| 0 <= k < |c| && c[k] == x;
    RemoveAt(c, k);
    bk[b] := bk[b].(count := bk[b].count - 1);
    if bk[b].head == x {
      bk[b] := bk[b].(head := x.hhNext);
    }
    Unlink(x, c, k);
    ghost var r := cs[b := Remove(c, x)];
    forall j | 0 <= j < |r|
      ensures ChainLinked(r[j])
    {
      if j != b {
        assert forall i :: 0 <= i < |cs[j]| ==> cs[j][i] !in c;
      }
    }
  }

  // ---------- Doubling the buckets ----------

  /** The chains of the new array after the elements of `s` were moved, in that order. */
  ghost function Moved(n: nat, s: seq<Element>): (r: seq<seq<Element>>)
    requires 0 < n
    ensures |r| == n
  {
    PushAll(EmptyChains(n), s)
  }

  lemma MovedSnoc(n: nat, s: seq<Element>, x: Element)
    requires 0 < n
    ensures Moved(n, s + [x]) == Push(Moved(n, s), x)
  {
    assert (s + [x])[..|s + [x]| - 1] == s;
  }

  lemma {:induction false} NonidealUpdate(cs: seq<seq<Element>>, b: nat, c: seq<Element>, ideal: nat)
    requires b < |cs|
    ensures Nonideal(cs[b := c], ideal) == Nonideal(cs, ideal) - Excess(|cs[b]|, ideal) + Excess(|c|, ideal)
  {
    if b == 0 {
      assert cs[0 := c][1..] == cs[1..];
    } else {
      NonidealUpdate(cs[1..], b - 1, c, ideal);
      assert cs[b := c][1..] == cs[1..][b - 1 := c];
    }
  }

  lemma {:induction false} NonidealEmpty(n: nat, ideal: nat)
    ensures Nonideal(EmptyChains(n), ideal) == 0
  {
    if n > 0 {
      assert EmptyChains(n)[1..] == EmptyChains(n - 1);
      NonidealEmpty(n - 1, ideal);
    }
  }

  lemma PlacedApart(s: seq<Element>, cs: seq<seq<Element>>)
    requires Placed(s, cs)
    ensures ChainsApart(cs)
  {
  }

  /** Counts a newcomer in bucket `b` and charges the statistics for it. */
  method CountIn(nb: array<Bucket>, b: nat, ideal: nat, nonideal0: nat) returns (nonideal: nat)
    requires b < nb.Length && nb[b].expandMult == MultAfter(nb[b].count, ideal)
    modifies nb
    ensures nb[..] == old(nb[..])[b := Bucket(old(nb[b].head), old(nb[b].count) + 1, MultAfter(old(nb[b].count) + 1, ideal))]
    ensures nonideal == nonideal0 + (if old(nb[b].count) + 1 > ideal then 1 else 0)
  {
    nonideal := nonideal0;
    nb[b] := nb[b].(count := nb[b].count + 1);
    if nb[b].count > ideal {
      nonideal := nonideal + 1;
      if nb[b].count > nb[b].expandMult * ideal {
        nb[b] := nb[b].(expandMult := nb[b].expandMult + 1);
      }
    }
  }

  /** Puts `x`, already counted, at the head of chain `b`. */
  method PushCounted(x: Element, nb: array<Bucket>, b: nat, ideal: nat, nonideal0: nat,
                     ghost cs: seq<seq<Element>>, ghost ms: seq<nat>)
    returns (nonideal: nat)
    requires BucketsHold(nb, cs, ms) && ChainsApart(cs)
    requires b < |cs| && forall c :: 0 <= c < |cs| ==> x !in cs[c]
    requires ms[b] == MultAfter(|cs[b]|, ideal)
    modifies nb, x`hhNext, x`hhPrev, cs[b]`hhPrev
    ensures BucketsHold(nb, cs[b := [x] + cs[b]], ms[b := MultAfter(|cs[b]| + 1, ideal)])
    ensures nonideal == nonideal0 + (if |cs[b]| + 1 > ideal then 1 else 0)
  {
    hide MultAfter;
    var h := nb[b].head;
    ghost var before := nb[..];
    nonideal := CountIn(nb, b, ideal, nonideal0);
    assert forall c :: 0 <= c < |cs| && c != b ==> nb[c] == nb[..][c] == before[c];
    assert nb[b] == nb[..][b];
    LinkFront(x, h, cs[b]);
    nb[b] := nb[b].(head := x);
    ghost var r := cs[b := [x] + cs[b]];
    forall c | 0 <= c < |r|
      ensures ChainLinked(r[c])
    {
      if c != b {
        OtherChain(cs, b, c, x);
      }
    }
  }

  lemma {:induction false} MovedFacts(n: nat, done: seq<Element>, x: Element, ideal: nat)
    requires 0 < n && Distinct(done) && x !in done
    ensures var cs := Moved(n, done);
            var b := Slot(x.hashv, n);
            && ChainsApart(cs)
            && (forall c :: 0 <= c < n ==> x !in cs[c])
            && (forall i :: 0 <= i < |cs[b]| ==> cs[b][i] in done)
            && Moved(n, done + [x]) == cs[b := [x] + cs[b]]
            && MultsAfter(Moved(n, done + [x]), ideal) == MultsAfter(cs, ideal)[b := MultAfter(|cs[b]| + 1, ideal)]
            && Nonideal(Moved(n, done + [x]), ideal) == Nonideal(cs, ideal) + (if |cs[b]| + 1 > ideal then 1 else 0)
  {
    var cs := Moved(n, done);
    var b := Slot(x.hashv, n);
    PushAllPlaced(n, done);
    PlacedApart(done, cs);
    NonidealUpdate(cs, b, [x] + cs[b], ideal);
    MovedSnoc(n, done, x);
  }

  /** Moves one element to its new bucket: the body of the inner loop. */
  method MoveOne(x: Element, nb: array<Bucket>, n: nat, ideal: nat, nonideal0: nat,
                 ghost log2: nat, ghost done: seq<Element>)
    returns (nonideal: nat)
    requires n == Pow2(log2)
    requires Distinct(done) && x !in done
    requires BucketsHold(nb, Moved(n, done), MultsAfter(Moved(n, done), ideal))
    requires nonideal0 == Nonideal(Moved(n, done), ideal)
    modifies nb, x`hhNext, x`hhPrev, done`hhPrev
    ensures BucketsHold(nb, Moved(n, done + [x]), MultsAfter(Moved(n, done + [x]), ideal))
    ensures nonideal == Nonideal(Moved(n, done + [x]), ideal)
  {
    hide BucketsHold; hide Nonideal; hide Moved; hide ChainsApart;
    MovedFacts(n, done, x, ideal);
    ToBktIsSlot(x.hashv, log2);
    var b := ToBkt(x.hashv, n);
    ghost var cs := Moved(n, done);
    nonideal := PushCounted(x, nb, b, ideal, nonideal0, cs, MultsAfter(cs, ideal));
  }

  /** The new array holds exactly the elements of `s`, moved in that order. */
  ghost predicate HoldsMoved(nb: array<Bucket>, n: nat, s: seq<Element>, ideal: nat, nonideal: nat)
    requires 0 < n
    reads nb, Members(Moved(n, s))`hhNext, Members(Moved(n, s))`hhPrev
  {
    && BucketsHold(nb, Moved(n, s), MultsAfter(Moved(n, s), ideal))
    && nonideal == Nonideal(Moved(n, s), ideal)
  }

  lemma DistinctCut(done: seq<Element>, rest: seq<Element>, s: seq<Element>)
    requires Distinct(s) && done + rest == s && rest != []
    ensures Distinct(done) && rest[0] !in done && rest[0] in s
    ensures forall i :: 0 <= i < |done| ==> done[i] in s
    ensures forall i :: 0 <= i < |rest[1..]| ==> rest[1..][i] !in done && rest[1..][i] != rest[0]
    ensures (done + [rest[0]]) + rest[1..] == s
  {
    assert forall i :: 0 <= i < |done| ==> done[i] == s[i];
    assert forall i :: 0 <= i < |rest| ==> rest[i] == s[|done| + i];
  }

  /** Moves one old chain: the inner loop. */
  method MoveChain(h: Element?, nb: array<Bucket>, n: nat, ideal: nat, nonideal0: nat,
                   ghost log2: nat, ghost done0: seq<Element>, ghost c: seq<Element>)
    returns (nonideal: nat)
    requires n == Pow2(log2)
    requires ChainForward(c) && h == At(c, 0)
    requires Distinct(done0 + c)
    requires HoldsMoved(nb, n, done0, ideal, nonideal0)
    modifies nb, (done0 + c)`hhNext, (done0 + c)`hhPrev
    ensures HoldsMoved(nb, n, done0 + c, ideal, nonideal)
  {
    hide BucketsHold; hide Nonideal; hide Moved; hide MultsAfter;
    var thh := h;
    nonideal := nonideal0;
    ghost var done: seq<Element>, rest: seq<Element> := done0, c;
    while thh != null
      invariant done + rest == done0 + c
      invariant ChainForward(rest) && thh == At(rest, 0)
      invariant HoldsMoved(nb, n, done, ideal, nonideal)
      decreases |rest|
    {
      var nxt := thh.hhNext;
      DistinctCut(done, rest, done0 + c);
      nonideal := MoveOne(thh, nb, n, ideal, nonideal, log2, done);
      done, rest := done + [thh], rest[1..];
      thh := nxt;
    }
    assert done == done0 + c;
  }

  lemma FlattenFrom(cs: seq<seq<Element>>, i: nat)
    requires i < |cs|
    ensures Flatten(cs[i..]) == cs[i] + Flatten(cs[i + 1..])
  {
    assert cs[i..][1..] == cs[i + 1..];
  }

  /** What is moved by the time chain `i` has been moved does not touch the later chains. */
  lemma LaterChains(cs: seq<seq<Element>>, i: nat, done: seq<Element>, s: seq<Element>)
    requires i < |cs| && Distinct(s) && done + Flatten(cs[i..]) == s
    ensures Distinct(done + cs[i]) && (done + cs[i]) + Flatten(cs[i + 1..]) == s
    ensures forall k :: 0 <= k < |done + cs[i]| ==> (done + cs[i])[k] in s
    ensures forall j, k :: i < j < |cs| && 0 <= k < |cs[j]| ==> cs[j][k] !in done + cs[i]
  {
    FlattenFrom(cs, i);
    var front, rest := done + cs[i], Flatten(cs[i + 1..]);
    assert front + rest == s;
    assert forall k :: 0 <= k < |front| ==> front[k] == s[k];
    forall j, l | i < j < |cs| && 0 <= l < |cs[j]|
      ensures cs[j][l] !in front
    {
      var x := cs[j][l];
      assert x in cs[i + 1..][j - i - 1];
      FlattenMembers(cs[i + 1..], x);
      var k :| 0 <= k < |rest| && rest[k] == x;
      assert s[|front| + k] == x;
    }
  }

  /** Moves every chain of the old array `bk`: the outer loop. */
  method MoveAll(bk: array<Bucket>, nb: array<Bucket>, nOld: nat, ideal: nat,
                 ghost log2: nat, ghost cs: seq<seq<Element>>, ghost ms: seq<nat>, ghost s: seq<Element>)
    returns (nonideal: nat)
    requires bk != nb && nOld == bk.Length == |cs| == Pow2(log2)
    requires s == Flatten(cs) && Distinct(s)
    requires BucketsHold(bk, cs, ms)
    requires nb.Length == 2 * nOld && forall b :: 0 <= b < nb.Length ==> nb[b] == Bucket(null, 0, 0)
    modifies nb, s`hhNext, s`hhPrev
    ensures HoldsMoved(nb, 2 * nOld, s, ideal, nonideal)
  {
    hide MultsAfter; hide Moved; hide BucketsHold; hide HoldsMoved; hide Flatten; hide ChainForward;
    var n := 2 * nOld;
    ghost var done: seq<Element> := [];
    nonideal := 0;
    NothingMoved(nb, n, ideal);
    OldChains(bk, cs, ms);
    assert cs[0..] == cs;
    for i := 0 to nOld
      invariant done + Flatten(cs[i..]) == s
      invariant forall j {:trigger cs[j]} :: i <= j < |cs| ==> ChainForward(cs[j])
      invariant HoldsMoved(nb, n, done, ideal, nonideal)
      invariant forall b :: 0 <= b < |cs| ==> bk[b].head == At(cs[b], 0)
    {
      LaterChains(cs, i, done, s);
      nonideal := MoveChain(bk[i].head, nb, n, ideal, nonideal, log2 + 1, done, cs[i]);
      done := done + cs[i];
    }
    AllMoved(cs, nOld, done, s);
  }

  lemma OldChains(bk: array<Bucket>, cs: seq<seq<Element>>, ms: seq<nat>)
    requires BucketsHold(bk, cs, ms)
    ensures |cs| == bk.Length
    ensures forall b :: 0 <= b < |cs| ==> bk[b].head == At(cs[b], 0)
    ensures forall b {:trigger cs[b]} :: 0 <= b < |cs| ==> ChainForward(cs[b])
  {
  }

  lemma ExpandedFields(v: View, nb: array<Bucket>, ideal: nat, nonideal: nat)
    requires 0 < |v.chains|
    requires ideal == CeilDiv(|v.items|, 2 * |v.chains|)
    requires HoldsMoved(nb, 2 * |v.chains|, Flatten(v.chains), ideal, nonideal)
    ensures var w := Expanded(v);
            && w.items == v.items && |w.chains| == 2 * |v.chains| && w.log2 == v.log2 + 1
            && BucketsHold(nb, w.chains, w.mults)
            && (var ineff := if nonideal > |v.items| / 2 then v.stats.ineff + 1 else 0;
                w.stats == Stats(ideal, nonideal, ineff, v.stats.noexpand || ineff > 1))
  {
  }

  lemma AllMoved(cs: seq<seq<Element>>, n: nat, done: seq<Element>, s: seq<Element>)
    requires n == |cs| && done + Flatten(cs[n..]) == s
    ensures done == s
  {
  }

  lemma NothingMoved(nb: array<Bucket>, n: nat, ideal: nat)
    requires 0 < n == nb.Length && forall b :: 0 <= b < nb.Length ==> nb[b] == Bucket(null, 0, 0)
    ensures HoldsMoved(nb, n, [], ideal, 0)
  {
    NonidealEmpty(n, ideal);
  }

  // ---------- The application-order list ----------

  /** `HASH_APPEND_LIST`, apart from moving the tail pointer. */
  method LinkLast(x: Element, tail: Element, ghost s: seq<Element>)
    requires AppLinked(s) && s != [] && tail == s[|s| - 1] && x !in s
    modifies x`next, x`prev, tail`next
    ensures AppLinked(s + [x])
  {
    x.next := null;
    x.prev := tail;
    tail.next := x;
  }

  /** Links `x` in front of `iter`, the element at index `k`. */
  method LinkBefore(x: Element, iter: Element, ghost s: seq<Element>, ghost k: nat)
    requires AppLinked(s) && k < |s| && iter == s[k] && x !in s
    modifies x`next, x`prev, s`next, s`prev
    ensures AppLinked(s[..k] + [x] + s[k..])
    ensures x.prev == At(s, k - 1)
  {
    x.next := iter;
    x.prev := iter.prev;
    if x.prev != null {
      x.prev.next := x;
    }
    iter.prev := x;
    ghost var t := s[..k] + [x] + s[k..];
    forall i | 0 <= i < |t|
      ensures t[i].next == At(t, i + 1) && t[i].prev == At(t, i - 1)
    {
      assert t[i] == if i < k then s[i] else if i == k then x else s[i - 1];
      assert i + 1 < |t| ==> t[i + 1] == if i + 1 < k then s[i + 1] else if i + 1 == k then x else s[i];
      assert 0 < i ==> t[i - 1] == if i - 1 < k then s[i - 1] else if i - 1 == k then x else s[i - 2];
    }
  }

  /** Takes `x`, the element at index `k`, out of the list. */
  method UnlinkApp(x: Element, ghost s: seq<Element>, ghost k: nat)
    requires AppLinked(s) && k < |s| && x == s[k]
    modifies s`next, s`prev
    ensures AppLinked(s[..k] + s[k + 1..])
    ensures x.next == At(s, k + 1) && x.prev == At(s, k - 1)
  {
    if x.prev != null {
      x.prev.next := x.next;
    }
    if x.next != null {
      x.next.prev := x.prev;
    }
    ghost var t := s[..k] + s[k + 1..];
    forall i | 0 <= i < |t|
      ensures t[i].next == At(t, i + 1) && t[i].prev == At(t, i - 1)
    {
      assert t[i] == if i < k then s[i] else s[i + 1];
      assert i + 1 < |t| ==> t[i + 1] == if i + 1 < k then s[i + 1] else s[i + 2];
      assert 0 < i ==> t[i - 1] == if i - 1 < k then s[i - 1] else s[i];
    }
  }

  lemma LinksAt(s: seq<Element>, k: nat)
    requires AppLinked(s) && k < |s|
    ensures s[k].next == At(s, k + 1) && s[k].prev == At(s, k - 1)
    ensures s[k] == s[|s| - 1] <==> k == |s| - 1
  {
  }

  /** The first element that compares greater than `x`: `HASH_AKBI_INNER_LOOP`. */
  method FindGreater(cmp: Cmp<Element>, head: Element, x: Element, ghost s: seq<Element>)
    returns (iter: Element?, ghost k: nat)
    requires AppLinked(s) && s != [] && head == s[0]
    ensures k <= |s| && iter == At(s, k)
    ensures Insert(cmp, s, x) == s[..k] + [x] + s[k..]
  {
    iter, k := head, 0;
    while iter != null
      invariant k <= |s| && iter == At(s, k)
      invariant Insert(cmp, s, x) == s[..k] + Insert(cmp, s[k..], x)
      decreases |s| - k
    {
      InsertHead(cmp, s, k, x);
      if cmp(iter, x) > 0 {
        break;
      }
      iter := iter.next;
      k := k + 1;
    }
  }

  lemma {:induction false} InsertAt(cmp: Cmp<Element>, s: seq<Element>, k: nat, x: Element)
    requires k < |s|
    ensures Insert(cmp, s[k..], x) == if cmp(s[k], x) > 0 then [x] + s[k..] else [s[k]] + Insert(cmp, s[k + 1..], x)
  {
    assert s[k..][0] == s[k] && s[k..][1..] == s[k + 1..];
  }

  /** One step of the search, seen from the whole list. */
  lemma {:induction false} InsertHead(cmp: Cmp<Element>, s: seq<Element>, k: nat, x: Element)
    requires k < |s|
    ensures s[..k] + Insert(cmp, s[k..], x) ==
              if cmp(s[k], x) > 0 then s[..k] + [x] + s[k..] else s[..k + 1] + Insert(cmp, s[k + 1..], x)
  {
    hide Insert;
    InsertAt(cmp, s, k, x);
    Assoc(s[..k], [x], s[k..]);
    Assoc(s[..k], [s[k]], Insert(cmp, s[k + 1..], x));
    assert s[..k + 1] == s[..k] + [s[k]];
  }

  // ---------- The table ----------

  class Table {
    ghost var v: View
    var head: Element?            // the application's head variable
    var buckets: array?<Bucket>
    var numBuckets: nat
    var log2NumBuckets: nat
    var numItems: nat
    var tail: Element?
    var idealChainMaxlen: nat
    var nonidealItems: nat
    var ineffExpands: nat
    var noexpand: bool

    /** The table record and the chains are those of `v`. */
    ghost predicate RecordHolds()
      reads this, buckets, Members(v.chains)`hhNext, Members(v.chains)`hhPrev
    {
      && buckets != null && BucketsHold(buckets, v.chains, v.mults)
      && numBuckets == |v.chains| && log2NumBuckets == v.log2
      && v.stats == Stats(idealChainMaxlen, nonidealItems, ineffExpands, noexpand)
    }

    ghost predicate ListHolds()
      reads this, v.items`next, v.items`prev
    {
      && AppLinked(v.items) && head == At(v.items, 0)
      && (v.items != [] ==> tail == v.items[|v.items| - 1])
    }

    ghost predicate Valid()
      reads this, buckets, v.items`next, v.items`prev, Members(v.chains)`hhNext, Members(v.chains)`hhPrev
    {
      && Inv(v) && ListHolds()
      && (v.items != [] ==> RecordHolds() && numItems == |v.items|)
    }

    constructor ()
      ensures Valid() && v == EmptyView() && buckets == null
    {
      head, tail, buckets := null, null, null;
      v := EmptyView();
      new;
      EmptyInv();
    }

    /** `HASH_MAKE_TABLE`. */
    method MakeTable(x: Element)
      requires v == EmptyView()
      modifies this`buckets, this`numBuckets, this`log2NumBuckets, this`numItems, this`tail,
               this`idealChainMaxlen, this`nonidealItems, this`ineffExpands, this`noexpand
      ensures RecordHolds() && fresh(buckets)
      ensures numItems == 0 && tail == x
    {
      tail := x;
      numBuckets, log2NumBuckets := 32, INITIAL_LOG2;
      assert Pow2(5) == 32;
      buckets := new Bucket[32](_ => Bucket(null, 0, 0));
      numItems, idealChainMaxlen, nonidealItems, ineffExpands, noexpand := 0, 0, 0, 0, false;
    }

    /** The first half of `HASH_EXPAND_BUCKETS`: a new array with every element moved into it. */
    method Redistribute() returns (nb: array<Bucket>)
      requires RecordHolds() && numItems == |v.items|
      requires Placed(v.items, v.chains) && Distinct(v.items) && |v.chains| == Pow2(v.log2)
      modifies this`idealChainMaxlen, this`nonidealItems, Flatten(v.chains)`hhNext, Flatten(v.chains)`hhPrev
      ensures fresh(nb)
      ensures idealChainMaxlen == CeilDiv(|v.items|, 2 * |v.chains|)
      ensures HoldsMoved(nb, 2 * |v.chains|, Flatten(v.chains), idealChainMaxlen, nonidealItems)
    {
      hide BucketsHold; hide HoldsMoved; hide Flatten; hide Placed; hide CeilDiv;
      OldChains(buckets, v.chains, v.mults);
      nb := new Bucket[numBuckets * 2](_ => Bucket(null, 0, 0));
      FlattenPlaced(v.items, v.chains);
      IdealIsCeil(numItems, log2NumBuckets);
      idealChainMaxlen := ShiftRight(numItems, log2NumBuckets + 1)
        + (if BitAnd(numItems, numBuckets * 2 - 1) != 0 then 1 else 0);
      nonidealItems := MoveAll(buckets, nb, numBuckets, idealChainMaxlen, v.log2, v.chains, v.mults, Flatten(v.chains));
    }

    /** `HASH_EXPAND_BUCKETS`. */
    method ExpandBuckets()
      requires RecordHolds() && numItems == |v.items|
      requires Placed(v.items, v.chains) && Distinct(v.items) && |v.chains| == Pow2(v.log2)
      modifies this`buckets, this`numBuckets, this`log2NumBuckets, this`v,
               this`idealChainMaxlen, this`nonidealItems, this`ineffExpands, this`noexpand,
               Flatten(v.chains)`hhNext, Flatten(v.chains)`hhPrev
      ensures v == Expanded(old(v)) && RecordHolds() && fresh(buckets)
      ensures v.items == old(v.items)
    {
      hide BucketsHold; hide HoldsMoved; hide Expanded; hide Flatten; hide Placed; hide CeilDiv;
      var nb := Redistribute();
      ExpandedFields(v, nb, idealChainMaxlen, nonidealItems);
      IdealIsCeil(numItems, log2NumBuckets);
      numBuckets := numBuckets * 2;
      log2NumBuckets := log2NumBuckets + 1;
      buckets := nb;
      ineffExpands := if nonidealItems > ShiftRight(numItems, 1) then ineffExpands + 1 else 0;
      if ineffExpands > 1 {
        noexpand := true;
      }
      v := Expanded(v);
    }

    /** `HASH_ADD_TO_TABLE`: counts `x`, which the list already holds, and hashes it. */
    method AddToTable(x: Element, ghost s: seq<Element>)
      requires RecordHolds() && numItems + 1 == |v.items| && |v.chains| == Pow2(v.log2)
      requires Placed(s, v.chains) && x !in s && Distinct(v.items)
      requires forall y :: y in v.items <==> y in s || y == x
      modifies this`buckets, this`numBuckets, this`log2NumBuckets, this`numItems, this`v,
               this`idealChainMaxlen, this`nonidealItems, this`ineffExpands, this`noexpand,
               buckets, v.items`hhNext, v.items`hhPrev
      ensures v == Hashed(old(v), x) && RecordHolds() && numItems == |v.items|
      ensures buckets == old(buckets) || fresh(buckets)
    {
      hide BucketsHold; hide Push; hide Expanded; hide Pow2;
      numItems := numItems + 1;
      ToBktIsSlot(x.hashv, v.log2);
      OldChains(buckets, v.chains, v.mults);
      var b := ToBkt(x.hashv, numBuckets);
      BeforePush(s, v.items, v.chains, x);
      AddToBkt(buckets, b, x, v.chains, v.mults);
      v := v.(chains := Push(v.chains, x));
      HeadBucket(buckets, v.chains, v.mults, b);
      if buckets[b].count >= (buckets[b].expandMult + 1) * CAPACITY_THRESH && !noexpand {
        ExpandBuckets();
      }
    }

    /** The first element: a table is made for it. */
    method FirstItem(x: Element)
      requires Valid() && v.items == []
      modifies this, x`next, x`prev
      ensures v == old(v).(items := [x]) && ListHolds() && RecordHolds() && numItems == 0
      ensures fresh(buckets)
    {
      hide BucketsHold; hide Members;
      ShapeOf(v);
      x.next := null;
      x.prev := null;
      MakeTable(x);
      head := x;
      v := v.(items := [x]);
    }

    /** `HASH_APPEND_LIST`. */
    method AppendList(x: Element)
      requires Valid() && v.items != [] && x !in v.items
      modifies this`v, this`tail, x`next, x`prev, v.items`next
      ensures v == old(v).(items := old(v.items) + [x]) && ListHolds() && RecordHolds()
    {
      hide BucketsHold; hide Inv;
      assert forall y :: y in Members(v.chains) ==> allocated(y);
      ghost var s := v.items;
      LinkLast(x, tail, s);
      tail := x;
      v := v.(items := s + [x]);
    }

    /** Links `x` before `iter`, which may be the head. */
    method InsertBefore(x: Element, iter: Element, ghost k: nat)
      requires Valid() && x !in v.items && k < |v.items| && iter == v.items[k]
      modifies this`v, this`head, x`next, x`prev, v.items`next, v.items`prev
      ensures v == old(v).(items := old(v.items)[..k] + [x] + old(v.items)[k..]) && ListHolds() && RecordHolds()
    {
      hide BucketsHold; hide Inv; hide Distinct; hide Forward; hide Backward;
      assert forall y :: y in Members(v.chains) ==> allocated(y);
      ghost var s := v.items;
      LinkBefore(x, iter, s, k);
      if x.prev == null {
        head := x;
      }
      v := v.(items := s[..k] + [x] + s[k..]);
    }

    /** Links `x` before the first element that compares greater, or last. */
    method InsertList(cmp: Cmp<Element>, x: Element)
      requires Valid() && v.items != [] && x !in v.items
      modifies this`v, this`head, this`tail, x`next, x`prev, v.items`next, v.items`prev
      ensures v == old(v).(items := Insert(cmp, old(v.items), x)) && ListHolds() && RecordHolds()
    {
      hide Insert; hide Inv;
      var iter, k := FindGreater(cmp, head, x, v.items);
      if iter != null {
        InsertBefore(x, iter, k);
      } else {
        assert v.items[..k] + [x] + v.items[k..] == v.items + [x];
        AppendList(x);
      }
    }

    /** Lists `x` last, making the table if there is none. */
    method ListLast(x: Element)
      requires Valid() && x !in v.items
      modifies this, x`next, x`prev, v.items`next
      ensures v == old(v).(items := old(v.items) + [x]) && ListHolds() && RecordHolds() && numItems == |old(v.items)|
      ensures buckets == old(buckets) || fresh(buckets)
    {
      hide BucketsHold; hide Inv; hide AppLinked; hide Members;
      if head == null {
        FirstItem(x);
      } else {
        AppendList(x);
      }
    }

    /** `HASH_ADD_KEYPTR_BYHASHVALUE`: adds at the end of the application order. */
    method Append(x: Element)
      requires Valid() && x !in v.items
      modifies this, buckets, x`next, x`prev, x`hhNext, x`hhPrev,
               v.items`next, v.items`prev, v.items`hhNext, v.items`hhPrev
      ensures Valid() && v == Appended(old(v), x)
      ensures buckets == old(buckets) || fresh(buckets)
    {
      hide BucketsHold; hide Placed; hide Hashed; hide Inv; hide Distinct; hide Pow2; hide AppLinked; hide Members;
      ghost var s := v.items;
      AppendedInv(v, x);
      ShapeOf(v);
      DistinctConcat(s, [x]);
      ListLast(x);
      AddToTable(x, s);
    }

    /** Lists `x` before the first element that compares greater, making the table if there is none. */
    method ListOrdered(cmp: Cmp<Element>, x: Element)
      requires Valid() && x !in v.items
      modifies this, x`next, x`prev, v.items`next, v.items`prev
      ensures v == old(v).(items := Insert(cmp, old(v.items), x)) && ListHolds() && RecordHolds()
      ensures numItems == |old(v.items)|
      ensures buckets == old(buckets) || fresh(buckets)
    {
      hide BucketsHold; hide Inv; hide AppLinked; hide Members; hide Insert;
      if head == null {
        InsertEmpty(cmp, v.items, x);
        FirstItem(x);
      } else {
        InsertList(cmp, x);
      }
    }

    /** `HASH_ADD_KEYPTR_BYHASHVALUE_INORDER`: adds before the first element that compares greater. */
    method AddInOrder(cmp: Cmp<Element>, x: Element)
      requires Valid() && x !in v.items
      modifies this, buckets, x`next, x`prev, x`hhNext, x`hhPrev,
               v.items`next, v.items`prev, v.items`hhNext, v.items`hhPrev
      ensures Valid() && v == Inserted(cmp, old(v), x)
      ensures buckets == old(buckets) || fresh(buckets)
    {
      hide BucketsHold; hide Placed; hide Hashed; hide Insert; hide Inv; hide Distinct; hide Pow2; hide AppLinked; hide Members;
      ghost var s := v.items;
      InsertedInv(cmp, v, x);
      ShapeOf(v);
      InsertMembers(cmp, s, x);
      InsertWithin(cmp, s, x);
      ListOrdered(cmp, x);
      AddToTable(x, s);
    }

    /** Takes `x`, the element at index `k`, out of the application order. */
    method UnlinkItem(x: Element, ghost k: nat)
      requires Valid() && |v.items| > 1 && k < |v.items| && x == v.items[k]
      modifies this`v, this`head, this`tail, v.items`next, v.items`prev
      ensures v == old(v).(items := old(v.items)[..k] + old(v.items)[k + 1..]) && ListHolds() && RecordHolds()
    {
      hide BucketsHold; hide Inv; hide Forward; hide Backward; hide Pow2; hide Distinct; hide AppLinked;
      assert forall y :: y in Members(v.chains) ==> allocated(y);
      ghost var s := v.items;
      LinksAt(s, k);
      if x == tail {
        tail := x.prev;
      }
      if x.prev == null {
        head := x.next;
      }
      UnlinkApp(x, s, k);
      v := v.(items := s[..k] + s[k + 1..]);
    }

    /** Takes `x`, already out of the list, out of its bucket. */
    method DropFromBucket(x: Element, ghost s: seq<Element>)
      requires RecordHolds() && numItems == |v.items| + 1 && |v.chains| == Pow2(v.log2)
      requires Placed(s, v.chains) && x in s
      modifies this`v, this`numItems, buckets, s`hhNext, s`hhPrev
      ensures var b := Slot(x.hashv, |old(v.chains)|);
              v == old(v).(chains := old(v.chains)[b := Remove(old(v.chains)[b], x)])
      ensures RecordHolds() && numItems == |v.items|
    {
      hide BucketsHold; hide Remove; hide Pow2;
      BeforeDelete(s, v.chains, x);
      ToBktIsSlot(x.hashv, v.log2);
      OldChains(buckets, v.chains, v.mults);
      var b := ToBkt(x.hashv, numBuckets);
      DelInBkt(buckets, b, x, v.chains, v.mults);
      numItems := numItems - 1;
      v := v.(chains := v.chains[b := Remove(v.chains[b], x)]);
    }

    /** Deleting the last element frees the table. */
    method FreeTable()
      requires ListHolds() && |v.items| == 1
      modifies this`buckets, this`head, this`v
      ensures Valid() && v == EmptyView() && buckets == null
    {
      EmptyInv();
      buckets := null;
      head := null;
      v := EmptyView();
    }

    /** Takes `x`, the element at index `k`, out of both lists; others remain. */
    method TakeOut(x: Element, ghost k: nat)
      requires Valid() && |v.items| > 1 && k < |v.items| && x == v.items[k]
      modifies this, buckets, v.items`next, v.items`prev, v.items`hhNext, v.items`hhPrev
      ensures v == Deleted(old(v), x) && ListHolds() && RecordHolds() && numItems == |v.items|
      ensures buckets == old(buckets)
    {
      hide BucketsHold; hide Placed; hide EmptyView; hide Remove; hide Inv; hide Pow2; hide Members; hide AppLinked;
      ghost var s := v.items;
      ShapeOf(v);
      RemoveAt(s, k);
      UnlinkItem(x, k);
      DropFromBucket(x, s);
    }

    /** `HASH_DELETE_HH`. */
    method Delete(x: Element)
      requires Valid() && x in v.items
      modifies this, buckets, v.items`next, v.items`prev, v.items`hhNext, v.items`hhPrev
      ensures Valid() && v == Deleted(old(v), x)
      ensures buckets == old(buckets) || buckets == null
    {
      hide BucketsHold; hide Placed; hide EmptyView; hide Remove; hide Inv; hide Pow2; hide Members; hide AppLinked;
      DeletedInv(v, x);
      ghost var k :| 0 <= k < |v.items| && v.items[k] == x;
      LinksAt(v.items, k);
      if x.prev == null && x.next == null {
        FreeTable();
      } else {
        TakeOut(x, k);
      }
    }

    /** `HASH_FIND_BYHASHVALUE`. */
    method Find(key: seq<byte>, hashval: nat) returns (out: Element?)
      requires Valid()
      ensures out == Lookup(v, key, hashval)
    {
      hide BucketsHold; hide Placed; hide Distinct; hide Pow2;
      out := null;
      if head != null {
        ToBktIsSlot(hashval, v.log2);
        OldChains(buckets, v.chains, v.mults);
        var b := ToBkt(hashval, numBuckets);
        out := FindInBkt(buckets[b].head, key, hashval, v.chains[b]);
      }
    }

    /** Sorts a nonempty application-order list. */
    method SortItems(cmp: Cmp<Element>)
      requires Valid() && v.items != []
      modifies this`v, this`head, this`tail, v.items`next, v.items`prev
      ensures v == old(v).(items := MergeSort(cmp, old(v.items))) && ListHolds() && RecordHolds()
    {
      hide BucketsHold; hide Inv; hide Distinct; hide MergeSort; hide Forward; hide Backward;
      assert forall y :: y in Members(v.chains) ==> allocated(y);
      ghost var s := v.items;
      var h, t := ListSort.Sort(cmp, head, s);
      head, tail := h, t;
      v := v.(items := MergeSort(cmp, s));
    }

    /** `HASH_SRT`. */
    method Sort(cmp: Cmp<Element>)
      requires Valid()
      modifies this`v, this`head, this`tail, v.items`next, v.items`prev
      ensures Valid() && v == SortedView(cmp, old(v))
    {
      hide BucketsHold; hide Inv; hide MergeSort; hide SortedView;
      SortedInv(cmp, v);
      SortedFields(cmp, v);
      if head != null {
        SortItems(cmp);
      }
    }

    /** The lists that `HASH_FSCK` walks end, and are `v`'s. */
    ghost predicate Walkable()
      reads this, buckets, v.items`next, Members(v.chains)`hhNext
    {
      && Forward(v.items) && head == At(v.items, 0)
      && (head != null ==> buckets != null && buckets.Length == numBuckets == |v.chains|)
      && (head != null ==> forall b :: 0 <= b < |v.chains| ==>
            assert forall i :: 0 <= i < |v.chains[b]| ==> v.chains[b][i] in Members(v.chains);
            buckets[b].head == At(v.chains[b], 0) && ChainForward(v.chains[b]))
    }

    /** Everything `HASH_FSCK` compares agrees. */
    ghost predicate Consistent()
      requires Walkable()
      reads this, buckets, v.items`next, v.items`prev, Members(v.chains)`hhNext, Members(v.chains)`hhPrev
    {
      && (forall b :: 0 <= b < |v.chains| ==>
            assert forall i :: 0 <= i < |v.chains[b]| ==> v.chains[b][i] in Members(v.chains);
            head != null ==> buckets[b].count == |v.chains[b]| && ChainBackward(v.chains[b]))
      && (head != null ==> |Flatten(v.chains)| == numItems == |v.items|)
      && Backward(v.items)
    }

    /** `HASH_FSCK`: false where the source reports an inconsistency and exits. */
    method Fsck() returns (ok: bool)
      requires Walkable()
      ensures ok <==> Consistent()
    {
      if head == null {
        return true;
      }
      var count := 0;
      for b := 0 to numBuckets
        invariant forall c :: 0 <= c < b ==> buckets[c].count == |v.chains[c]| && ChainBackward(v.chains[c])
        invariant count + |Flatten(v.chains[b..])| == |Flatten(v.chains)|
      {
        var good, bktCount := CheckChain(buckets[b].head, v.chains[b]);
        if !good {
          return false;
        }
        FlattenFrom(v.chains, b);
        count := count + bktCount;
        if buckets[b].count != bktCount {
          return false;
        }
      }
      if count != numItems {
        return false;
      }
      var good, appCount := CheckApp(head, v.items);
      return good && appCount == numItems;
    }
  }

  /** `hhPrev` leads back through `s`. */
  ghost predicate ChainBackward(s: seq<Element>)
    reads s`hhPrev
  {
    forall i {:trigger s[i].hhPrev} :: 0 <= i < |s| ==> s[i].hhPrev == At(s, i - 1)
  }

  method CheckChain(h: Element?, ghost c: seq<Element>) returns (good: bool, count: nat)
    requires ChainForward(c) && h == At(c, 0)
    ensures good <==> ChainBackward(c)
    ensures good ==> count == |c|
  {
    var thh := h;
    var prev: Element? := null;
    count := 0;
    while thh != null
      invariant count <= |c| && thh == At(c, count) && prev == At(c, count - 1)
      invariant forall i :: 0 <= i < count ==> c[i].hhPrev == At(c, i - 1)
      decreases |c| - count
    {
      if prev != thh.hhPrev {
        return false, count;
      }
      count := count + 1;
      prev := thh;
      thh := thh.hhNext;
    }
    good := true;
  }

  method CheckApp(h: Element?, ghost s: seq<Element>) returns (good: bool, count: nat)
    requires Forward(s) && h == At(s, 0)
    ensures good <==> Backward(s)
    ensures good ==> count == |s|
  {
    var thh := h;
    var prev: Element? := null;
    count := 0;
    while thh != null
      invariant count <= |s| && thh == At(s, count) && prev == At(s, count - 1)
      invariant forall i :: 0 <= i < count ==> s[i].prev == At(s, i - 1)
      decreases |s| - count
    {
      if prev != thh.prev {
        return false, count;
      }
      count := count + 1;
      prev := thh;
      thh := thh.next;
    }
    good := true;
  }

  /** The element of chain `c` that a search for `key` stops at. */
  function FirstMatch(c: seq<Element>, key: seq<byte>, hashval: nat): Element? {
    if c == [] then null
    else if c[0].hashv == hashval && c[0].key == key then c[0]
    else FirstMatch(c[1..], key, hashval)
  }

  function Lookup(v: View, key: seq<byte>, hashval: nat): Element?
  {
    if v.items == [] || v.chains == [] then null
    else FirstMatch(v.chains[Slot(hashval, |v.chains|)], key, hashval)
  }

  /** `HASH_FIND_IN_BKT`. */
  method FindInBkt(h: Element?, key: seq<byte>, hashval: nat, ghost c: seq<Element>) returns (out: Element?)
    requires ChainForward(c) && h == At(c, 0)
    ensures out == FirstMatch(c, key, hashval)
  {
    out := h;
    ghost var rest := c;
    while out != null
      invariant ChainForward(rest) && out == At(rest, 0)
      invariant FirstMatch(rest, key, hashval) == FirstMatch(c, key, hashval)
      decreases |rest|
    {
      if out.hashv == hashval && |out.key| == |key| {
        if out.key == key {
          break;
        }
      }
      out := out.hhNext;
      rest := rest[1..];
    }
  }

  lemma {:induction false} FirstMatchMeaning(c: seq<Element>, key: seq<byte>, hashval: nat)
    ensures var r := FirstMatch(c, key, hashval);
            if r == null then forall i :: 0 <= i < |c| ==> !(c[i].hashv == hashval && c[i].key == key)
            else r in c && r.hashv == hashval && r.key == key
  {
    if c != [] {
      FirstMatchMeaning(c[1..], key, hashval);
      assert c == [c[0]] + c[1..];
    }
  }

  /** A search finds an element with the key and hash if and only if the table has one. */
  lemma LookupMeaning(v: View, key: seq<byte>, hashval: nat)
    requires Inv(v)
    ensures var r := Lookup(v, key, hashval);
            if r == null then forall i :: 0 <= i < |v.items| ==> !(v.items[i].hashv == hashval && v.items[i].key == key)
            else r in v.items && r.hashv == hashval && r.key == key
  {
    if v.items != [] {
      var c := v.chains[Slot(hashval, |v.chains|)];
      FirstMatchMeaning(c, key, hashval);
      forall i | 0 <= i < |v.items| && v.items[i].hashv == hashval
        ensures v.items[i] in c
      {
        assert v.items[i] in v.items;
      }
    }
  }

  /** A valid table always passes the check. */
  lemma ValidIsConsistent(t: Table)
    requires t.Valid()
    ensures t.Walkable() && t.Consistent()
  {
    if t.head != null {
      FlattenPlaced(t.v.items, t.v.chains);
    }
  }

  /** The chain's back links are in order. */
  ghost predicate LinkedBack(c: seq<Element>)
    reads c`hhPrev
  {
    forall i {:trigger c[i].hhPrev} :: 0 <= i < |c| ==> c[i].hhPrev == if i == 0 then null else c[i - 1]
  }

  lemma LinkedBackIs(c: seq<Element>)
    ensures LinkedBack(c) <==> ChainBackward(c)
  {
  }

  /** The check passes if and only if every bucket's count and back links, the
      total over all chains, the number of listed elements and their back links are right. */
  lemma ConsistentMeans(t: Table)
    requires t.Walkable() && t.head != null
    ensures t.Consistent() <==>
              && (forall b :: 0 <= b < |t.v.chains| ==> t.buckets[b].count == |t.v.chains[b]| && LinkedBack(t.v.chains[b]))
              && |Flatten(t.v.chains)| == t.numItems && |t.v.items| == t.numItems
              && (forall i {:trigger t.v.items[i].prev} :: 0 <= i < |t.v.items| ==> t.v.items[i].prev == if i == 0 then null else t.v.items[i - 1])
  {
    forall b | 0 <= b < |t.v.chains|
      ensures LinkedBack(t.v.chains[b]) <==> ChainBackward(t.v.chains[b])
    {
      LinkedBackIs(t.v.chains[b]);
    }
  }

  lemma SortedFields(cmp: Cmp<Element>, v: View)
    ensures SortedView(cmp, v) == v.(items := MergeSort(cmp, v.items))
    ensures |MergeSort(cmp, v.items)| == |v.items|
    ensures v.items == [] ==> SortedView(cmp, v) == v
  {
    SortPermutes(cmp, v.items, 1);
    assert |MergeSort(cmp, v.items)| == |multiset(MergeSort(cmp, v.items))|;
  }

  lemma BeforeDelete(s: seq<Element>, cs: seq<seq<Element>>, x: Element)
    requires Placed(s, cs) && x in s
    ensures ChainsApart(cs) && x in cs[Slot(x.hashv, |cs|)]
    ensures forall b, i :: 0 <= b < |cs| && 0 <= i < |cs[b]| ==> cs[b][i] in s
  {
  }

  lemma ShapeOf(v: View)
    requires Inv(v)
    ensures |v.chains| == Pow2(v.log2) && Placed(v.items, v.chains) && Distinct(v.items)
    ensures v.items == [] ==> v == EmptyView()
    ensures forall b, i :: 0 <= b < |v.chains| && 0 <= i < |v.chains[b]| ==> v.chains[b][i] in v.items
  {
  }

  lemma {:induction false} InsertWithin<T>(cmp: Cmp<T>, s: seq<T>, x: T)
    ensures forall i {:trigger Insert(cmp, s, x)[i]} ::
              0 <= i < |Insert(cmp, s, x)| ==> Insert(cmp, s, x)[i] in s || Insert(cmp, s, x)[i] == x
  {
    if s != [] && cmp(s[0], x) <= 0 {
      InsertWithin(cmp, s[1..], x);
    }
  }

  lemma {:induction false} InsertEmpty(cmp: Cmp<Element>, s: seq<Element>, x: Element)
    requires s == []
    ensures Insert(cmp, s, x) == [x]
  {
  }

  lemma HeadBucket(bk: array<Bucket>, cs: seq<seq<Element>>, ms: seq<nat>, b: nat)
    requires BucketsHold(bk, cs, ms) && b < |cs|
    ensures bk.Length == |cs| == |ms|
    ensures bk[b] == Bucket(At(cs[b], 0), |cs[b]|, ms[b])
  {
  }

  lemma BeforePush(s: seq<Element>, t: seq<Element>, cs: seq<seq<Element>>, x: Element)
    requires Placed(s, cs) && x !in s && Distinct(t)
    requires forall y :: y in t <==> y in s || y == x
    ensures ChainsApart(cs)
    ensures forall c :: 0 <= c < |cs| ==> x !in cs[c]
    ensures forall c, i :: 0 <= c < |cs| && 0 <= i < |cs[c]| ==> cs[c][i] in t
    ensures Push(cs, x) == cs[Slot(x.hashv, |cs|) := [x] + cs[Slot(x.hashv, |cs|)]]
    ensures Placed(t, Push(cs, x))
    ensures forall i {:trigger Flatten(Push(cs, x))[i]} ::
              0 <= i < |Flatten(Push(cs, x))| ==> Flatten(Push(cs, x))[i] in t
  {
    PushPlaced(s, t, cs, x);
    FlattenWithin(t, Push(cs, x));
  }

  lemma {:induction false} FlattenWithin(s: seq<Element>, cs: seq<seq<Element>>)
    requires forall b, i :: 0 <= b < |cs| && 0 <= i < |cs[b]| ==> cs[b][i] in s
    ensures forall i {:trigger Flatten(cs)[i]} :: 0 <= i < |Flatten(cs)| ==> Flatten(cs)[i] in s
  {
    if cs != [] {
      assert forall b :: 0 <= b < |cs[1..]| ==> cs[1..][b] == cs[b + 1];
      FlattenWithin(s, cs[1..]);
    }
  }

  lemma {:induction false} IdealIsCeil(n: nat, log2: nat)
    ensures ShiftRight(n, log2 + 1) + (if BitAnd(n, 2 * Pow2(log2) - 1) != 0 then 1 else 0) == CeilDiv(n, 2 * Pow2(log2))
    ensures ShiftRight(n, 1) == n / 2
  {
    ShiftMaskIsCeil(n, log2 + 1);
    ShiftIsDiv(n, 1);
    assert Pow2(1) == 2;
  }
}

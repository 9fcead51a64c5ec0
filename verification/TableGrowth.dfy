/** When the table grows: which adds double the buckets, and what that comes to
    over whole runs. */
module TableGrowth {
  import opened Bits
  import opened Elements
  import opened StableSort
  import opened TableSpec
  import opened TableLemmas
  import opened TableRuns

  /** The add of `x` finds its chain, counted with it, at ten times its multiplier plus one, and may expand. */
  ghost predicate Doubles(v: View, x: Element)
    requires 0 < |v.chains| == |v.mults|
  {
    var b := x.hashv % |v.chains|;
    !v.stats.noexpand && |v.chains[b]| + 1 >= 10 * (v.mults[b] + 1)
  }

  /** `w` has the buckets, multipliers and statistics of `v`. */
  predicate SameBuckets(v: View, w: View) {
    |w.chains| == |v.chains| && w.mults == v.mults && w.log2 == v.log2 && w.stats == v.stats
  }

  lemma HashedGrows(v: View, x: Element)
    requires 0 < |v.chains| == |v.mults|
    ensures |Hashed(v, x).chains| == if Doubles(v, x) then 2 * |v.chains| else |v.chains|
    ensures !Doubles(v, x) ==> SameBuckets(v, Hashed(v, x))
  {
    hide PushAll; hide Flatten; hide Nonideal; hide MultsAfter;
  }

  /** An add doubles the number of buckets if and only if expansion is not
      inhibited and the chain of the new element reaches ten times its multiplier
      plus one; otherwise buckets, multipliers and statistics stay. */
  lemma AddGrows(cmp: Cmp<Element>, v: View, x: Element)
    requires Inv(v) && x !in v.items
    ensures |Appended(v, x).chains| == if Doubles(v, x) then 2 * |v.chains| else |v.chains|
    ensures !Doubles(v, x) ==> SameBuckets(v, Appended(v, x))
    ensures |Inserted(cmp, v, x).chains| == if Doubles(v, x) then 2 * |v.chains| else |v.chains|
    ensures !Doubles(v, x) ==> SameBuckets(v, Inserted(cmp, v, x))
  {
    hide Hashed;
    HashedGrows(v.(items := v.items + [x]), x);
    HashedGrows(v.(items := Insert(cmp, v.items, x)), x);
  }

  /** Nothing but an add changes the buckets of a table that lives on; a sort does not even touch a chain. */
  lemma OthersKeepBuckets(cmp: Cmp<Element>, v: View, x: Element)
    requires Inv(v)
    ensures |v.items| > 1 ==> SameBuckets(v, Deleted(v, x))
    ensures SameBuckets(v, SortedView(cmp, v)) && SortedView(cmp, v).chains == v.chains
  {
  }

  /** An add that does not double only puts `x` at the head of the chain that its hash selects. */
  lemma AddWithoutDoubling(v: View, x: Element)
    requires Inv(v) && x !in v.items && !Doubles(v, x)
    ensures var b := x.hashv % |v.chains|;
            Appended(v, x) == v.(items := v.items + [x], chains := v.chains[b := [x] + v.chains[b]])
  {
  }

  // ---------- The first doubling is due after 288 elements at the latest ----------

  /** While there are 32 buckets no multiplier has moved and no chain is longer than nine. */
  ghost predicate Young(v: View) {
    |v.chains| == 32 ==>
      && !v.stats.noexpand && v.stats.ineff == 0
      && |v.mults| == 32 && (forall b :: 0 <= b < 32 ==> v.mults[b] == 0 && |v.chains[b]| <= 9)
  }

  lemma YoungEmpty()
    ensures Young(EmptyView()) && |EmptyView().chains| == 32
  {
    assert Pow2(5) == 32;
  }

  lemma AddKeepsYoung(v: View, x: Element, s: seq<Element>)
    requires 32 <= |v.chains| == |v.mults| && Young(v)
    ensures Young(Hashed(v.(items := s), x)) && 32 <= |Hashed(v.(items := s), x).chains|
  {
    hide PushAll; hide Flatten; hide Nonideal; hide MultsAfter;
  }

  lemma {:induction false} RemoveShortens<T>(s: seq<T>, x: T)
    ensures |Remove(s, x)| <= |s|
  {
    if s != [] && s[0] != x {
      RemoveShortens(s[1..], x);
    }
  }

  lemma ApplyKeepsYoung(v: View, op: Op)
    requires Inv(v) && Legal(v, op) && Young(v) && 32 <= |v.chains|
    ensures Young(Apply(v, op)) && 32 <= |Apply(v, op).chains|
  {
    hide Hashed; hide Inv; hide Remove; hide EmptyView;
    InvLengths(v);
    match op
    case Add(x) => AddKeepsYoung(v, x, v.items + [x]);
    case AddOrdered(x, cmp) => AddKeepsYoung(v, x, Insert(cmp, v.items, x));
    case Del(x) =>
      YoungEmpty();
      RemoveShortens(v.chains[Slot(x.hashv, |v.chains|)], x);
    case SortAll(cmp) =>
  }

  lemma InvLengths(v: View)
    requires Inv(v)
    ensures 0 < |v.chains| == |v.mults|
  {
  }

  lemma {:induction false} RunKeepsYoung(v: View, ops: seq<Op>)
    requires Inv(v) && LegalRun(v, ops) && Young(v) && 32 <= |v.chains|
    ensures Young(RunOps(v, ops)) && 32 <= |RunOps(v, ops).chains|
    decreases |ops|
  {
    hide Inv; hide Legal; hide Apply; hide Young;
    if ops != [] {
      ApplyKeepsYoung(v, ops[0]);
      RunKeepsYoung(Apply(v, ops[0]), ops[1..]);
    }
  }

  lemma {:induction false} FlattenBound(cs: seq<seq<Element>>, m: nat)
    requires forall b :: 0 <= b < |cs| ==> |cs[b]| <= m
    ensures |Flatten(cs)| <= m * |cs|
  {
    if cs != [] {
      FlattenBound(cs[1..], m);
      assert m * |cs| == m + m * |cs[1..]|;
    }
  }

  /** After any run from the empty table, a table of more than 288 elements has more than 32 buckets. */
  lemma {:induction false} ManyElements(ops: seq<Op>)
    requires Inv(EmptyView()) && LegalRun(EmptyView(), ops)
    ensures var w := RunOps(EmptyView(), ops);
            |w.items| > 288 ==> |w.chains| > 32
  {
    hide EmptyView; hide LegalRun; hide RunOps; hide Apply; hide Flatten;
    YoungEmpty();
    RunKeepsYoung(EmptyView(), ops);
    var w := RunOps(EmptyView(), ops);
    FlattenPlaced(w.items, w.chains);
    if |w.chains| == 32 {
      FlattenBound(w.chains, 9);
    }
  }

  // ---------- Elements that all have one hash ----------

  ghost predicate OneHash(s: seq<Element>, h: nat) {
    forall i :: 0 <= i < |s| ==> s[i].hashv == h
  }

  /** Elements of one hash are all in one chain. */
  lemma OneChain(s: seq<Element>, cs: seq<seq<Element>>, h: nat)
    requires Placed(s, cs) && Distinct(s) && OneHash(s, h)
    ensures |cs[h % |cs|]| == |s|
    ensures forall b :: 0 <= b < |cs| && b != h % |cs| ==> cs[b] == []
  {
    var c := cs[h % |cs|];
    forall b | 0 <= b < |cs|
      ensures cs[b] != [] ==> b == h % |cs|
    {
      if cs[b] != [] {
        assert cs[b][0] in s;
      }
    }
    assert forall x :: x in s ==> x in c;
    assert SetOf(c) == SetOf(s);
    DistinctSize(c);
    DistinctSize(s);
  }

  lemma {:induction false} NonidealOne(cs: seq<seq<Element>>, b: nat, ideal: nat)
    requires b < |cs| && forall c :: 0 <= c < |cs| && c != b ==> cs[c] == []
    ensures Nonideal(cs, ideal) == Excess(|cs[b]|, ideal)
  {
    if b > 0 {
      NonidealOne(cs[1..], b - 1, ideal);
    } else {
      NonidealNone(cs[1..], ideal);
    }
  }

  lemma {:induction false} NonidealNone(cs: seq<seq<Element>>, ideal: nat)
    requires forall c :: 0 <= c < |cs| ==> cs[c] == []
    ensures Nonideal(cs, ideal) == 0
  {
    if cs != [] {
      NonidealNone(cs[1..], ideal);
    }
  }

  /** The buckets, the multiplier of the one chain in use, and the ineffective
      expansions after `n` elements of one hash were added. */
  function BucketsAfter(n: nat): nat { if n < 10 then 32 else if n < 100 then 64 else 128 }
  function MultiplierAfter(n: nat): nat { if n < 10 then 0 else if n < 100 then 9 else 99 }
  function IneffectiveAfter(n: nat): nat { if n < 10 then 0 else if n < 100 then 1 else 2 }

  ghost predicate Crowded(v: View, h: nat) {
    var n := |v.items|;
    && |v.chains| == |v.mults| == BucketsAfter(n)
    && v.mults[h % |v.chains|] == MultiplierAfter(n)
    && v.stats.ineff == IneffectiveAfter(n)
    && (v.stats.noexpand <==> n >= 100)
  }

  /** The expansion that the tenth, and the one that the hundredth element of one hash causes. */
  lemma CrowdedExpands(v: View, h: nat, n: nat)
    requires n == |v.items| && (n == 10 || n == 100)
    requires Placed(v.items, v.chains) && Distinct(v.items) && OneHash(v.items, h)
    requires |v.chains| == |v.mults| == Pow2(v.log2) == BucketsAfter(n - 1)
    requires v.stats.ineff == IneffectiveAfter(n - 1) && !v.stats.noexpand
    ensures Crowded(Expanded(v), h)
  {
    hide PushAll; hide Flatten; hide Nonideal; hide Inv; hide Placed; hide Distinct; hide CeilDiv; hide MultAfter; hide Pow2;
    hide OneHash;
    ExpandedInv(v);
    var w := Expanded(v);
    InvParts(w);
    OneChain(w.items, w.chains, h);
    NonidealOne(w.chains, h % |w.chains|, 1);
    MultClosed(n, 1);
    Ceilings();
  }

  lemma Ceilings()
    ensures CeilDiv(10, 64) == CeilDiv(100, 128) == 1 && CeilDiv(10, 1) == 10 && CeilDiv(100, 1) == 100
  {
  }

  lemma CrowdedAdd(v: View, x: Element, h: nat)
    requires Inv(v) && x !in v.items && x.hashv == h && OneHash(v.items, h) && Crowded(v, h)
    ensures Crowded(Appended(v, x), h)
  {
    hide Expanded; hide Placed; hide Distinct; hide EmptyView;
    var n := |v.items| + 1;
    var s := v.items + [x];
    InvParts(v);
    OneChain(v.items, v.chains, h);
    if Doubles(v, x) {
      var w := v.(items := s, chains := Push(v.chains, x));
      DistinctConcat2(v.items, x);
      PushPlaced(v.items, s, v.chains, x);
      assert n == 10 || n == 100;
      CrowdedExpands(w, h, n);
      assert Appended(v, x) == Expanded(w);
    } else {
      AddWithoutDoubling(v, x);
    }
  }

  lemma InvParts(v: View)
    requires Inv(v)
    ensures Placed(v.items, v.chains) && Distinct(v.items) && |v.chains| == |v.mults| == Pow2(v.log2)
  {
  }

  lemma DistinctConcat2(s: seq<Element>, x: Element)
    requires Distinct(s) && x !in s
    ensures Distinct(s + [x])
  {
    DistinctConcat(s, [x]);
  }

  /** Plain adds of elements of one hash: 32 buckets for up to nine, 64 for up to
      99, and 128 for ever after, since both expansions were ineffective. */
  lemma {:induction false} OneHashGrowth(s: seq<Element>, h: nat)
    requires Distinct(s) && OneHash(s, h)
    ensures Inv(EmptyView()) && LegalRun(EmptyView(), Adds(s))
    ensures Crowded(RunOps(EmptyView(), Adds(s)), h)
    ensures |RunOps(EmptyView(), Adds(s)).chains| == BucketsAfter(|s|)
  {
    hide Inv; hide EmptyView; hide Appended; hide LegalRun; hide RunOps;
    AddsItems(s);
    EmptyRun();
    if s == [] {
      assert Adds(s) == [];
      CrowdedEmpty(h);
    } else {
      var s0, x := s[..|s| - 1], s[|s| - 1];
      AddsItems(s0);
      OneHashGrowth(s0, h);
      RunSnoc(EmptyView(), Adds(s0), Add(x));
      assert Adds(s) == Adds(s0) + [Add(x)];
      CrowdedAdd(RunOps(EmptyView(), Adds(s0)), x, h);
    }
  }

  lemma CrowdedEmpty(h: nat)
    ensures Crowded(EmptyView(), h)
  {
    assert Pow2(5) == 32;
  }
}

/** Whole runs of the hash table: any sequence of appends, ordered adds,
    deletions and sorts, starting from no table at all. */
module TableRuns {
  import opened Bits
  import opened Elements
  import opened StableSort
  import opened TableSpec
  import opened TableLemmas
  import opened HashTable

  /** Each ordered add and each sort brings its own comparison function. */
  datatype Op =
    | Add(x: Element)
    | AddOrdered(x: Element, cmp: Cmp<Element>)
    | Del(x: Element)
    | SortAll(cmp: Cmp<Element>)

  /** An element is added only while it is not in the table, and deleted only while it is. */
  ghost predicate Legal(v: View, op: Op) {
    match op
    case Add(x) => x !in v.items
    case AddOrdered(x, cmp) => x !in v.items
    case Del(x) => x in v.items
    case SortAll(cmp) => true
  }

  ghost function Apply(v: View, op: Op): (w: View)
    requires Inv(v) && Legal(v, op)
    ensures Inv(w)
  {
    match op
    case Add(x) => AppendedInv(v, x); Appended(v, x)
    case AddOrdered(x, cmp) => InsertedInv(cmp, v, x); Inserted(cmp, v, x)
    case Del(x) => DeletedInv(v, x); Deleted(v, x)
    case SortAll(cmp) => SortedInv(cmp, v); SortedView(cmp, v)
  }

  ghost predicate LegalRun(v: View, ops: seq<Op>)
    requires Inv(v)
    decreases |ops|
  {
    ops == [] || (Legal(v, ops[0]) && LegalRun(Apply(v, ops[0]), ops[1..]))
  }

  /** The table value after a run; every value on the way satisfies the invariant. */
  ghost function RunOps(v: View, ops: seq<Op>): (w: View)
    requires Inv(v) && LegalRun(v, ops)
    ensures Inv(w)
    decreases |ops|
  {
    if ops == [] then v else RunOps(Apply(v, ops[0]), ops[1..])
  }

  /** Runs the pointer code, checking the table after every operation as a
      build with `HASH_DEBUG` does: the check never fails. */
  method Execute(t: Table, ops: seq<Op>, ghost all: set<Element>) returns (ok: bool)
    requires t.Valid() && LegalRun(t.v, ops)
    requires Within(t.v.items, all)
    requires forall i :: 0 <= i < |ops| && !ops[i].SortAll? ==> ops[i].x in all
    modifies t, t.buckets, all
    ensures t.Valid() && t.v == RunOps(old(t.v), ops)
    ensures ok
    decreases |ops|
  {
    hide Inv; hide Legal; hide Apply; hide Within;
    if ops == [] {
      return true;
    }
    Step(t, ops[0], all);
    ValidIsConsistent(t);
    ok := t.Fsck();
    if ok {
      ok := Execute(t, ops[1..], all);
    }
  }

  method Step(t: Table, op: Op, ghost all: set<Element>)
    requires t.Valid() && Legal(t.v, op)
    requires Within(t.v.items, all) && (!op.SortAll? ==> op.x in all)
    modifies t, t.buckets, all
    ensures t.Valid() && t.v == Apply(old(t.v), op)
    ensures Within(t.v.items, all)
    ensures t.buckets == old(t.buckets) || t.buckets == null || fresh(t.buckets)
  {
    hide Inv; hide Appended; hide Inserted; hide Deleted; hide SortedView;
    ApplyWithin(t.v, op, all);
    match op
    case Add(x) => t.Append(x);
    case AddOrdered(x, cmp) => t.AddInOrder(cmp, x);
    case Del(x) => t.Delete(x);
    case SortAll(cmp) => t.Sort(cmp);
  }

  lemma ApplyWithin(v: View, op: Op, all: set<Element>)
    requires Inv(v) && Legal(v, op)
    requires Within(v.items, all) && (!op.SortAll? ==> op.x in all)
    ensures Within(Apply(v, op).items, all)
  {
    match op
    case Add(x) => AppendedInv(v, x);
    case AddOrdered(x, cmp) =>
      InsertedInv(cmp, v, x);
      InsertWithin(cmp, v.items, x);
    case Del(x) =>
      DeletedInv(v, x);
      RemoveWithin(v.items, x);
    case SortAll(cmp) =>
      SortPermutes(cmp, v.items, 1);
      PermutationWithin(v.items, MergeSort(cmp, v.items), all);
  }

  // ---------- Two routes to one order ----------

  function Adds(s: seq<Element>): seq<Op> { seq(|s|, i requires 0 <= i < |s| => Add(s[i])) }
  function OrderedAdds(cmp: Cmp<Element>, s: seq<Element>): seq<Op> {
    seq(|s|, i requires 0 <= i < |s| => AddOrdered(s[i], cmp))
  }

  /** A run may be extended by one legal operation. */
  lemma {:induction false} RunSnoc(v: View, ops: seq<Op>, op: Op)
    requires Inv(v) && LegalRun(v, ops) && Legal(RunOps(v, ops), op)
    ensures LegalRun(v, ops + [op])
    ensures RunOps(v, ops + [op]) == Apply(RunOps(v, ops), op)
    decreases |ops|
  {
    hide Inv; hide Legal; hide Apply;
    if ops == [] {
      assert (ops + [op])[0] == op && (ops + [op])[1..] == [];
    } else {
      RunSnoc(Apply(v, ops[0]), ops[1..], op);
      assert (ops + [op])[0] == ops[0] && (ops + [op])[1..] == ops[1..] + [op];
    }
  }

  lemma {:induction false} AddsItems(s: seq<Element>)
    requires Distinct(s)
    ensures Inv(EmptyView()) && LegalRun(EmptyView(), Adds(s))
    ensures RunOps(EmptyView(), Adds(s)).items == s
  {
    hide Inv; hide EmptyView; hide Appended; hide LegalRun; hide RunOps;
    EmptyInv();
    EmptyRun();
    if s == [] {
      assert Adds(s) == [];
    } else {
      var s0, x := s[..|s| - 1], s[|s| - 1];
      AddsItems(s0);
      var v := RunOps(EmptyView(), Adds(s0));
      AppendedInv(v, x);
      RunSnoc(EmptyView(), Adds(s0), Add(x));
      assert Adds(s) == Adds(s0) + [Add(x)];
      assert s == s0 + [x];
    }
  }

  lemma EmptyRun()
    ensures Inv(EmptyView()) && LegalRun(EmptyView(), [])
    ensures RunOps(EmptyView(), []) == EmptyView()
    ensures EmptyView().items == []
  {
    EmptyInv();
  }

  lemma {:induction false} OrderedAddsItems(cmp: Cmp<Element>, s: seq<Element>)
    requires Distinct(s)
    ensures Inv(EmptyView()) && LegalRun(EmptyView(), OrderedAdds(cmp, s))
    ensures RunOps(EmptyView(), OrderedAdds(cmp, s)).items == InsertAll(cmp, s)
  {
    hide Inv; hide EmptyView; hide Inserted; hide Insert; hide LegalRun; hide RunOps;
    EmptyInv();
    EmptyRun();
    if s == [] {
      assert OrderedAdds(cmp, s) == [];
    } else {
      var s0, x := s[..|s| - 1], s[|s| - 1];
      OrderedAddsItems(cmp, s0);
      var v := RunOps(EmptyView(), OrderedAdds(cmp, s0));
      InsertAllPermutes(cmp, s0);
      PermutationDistinct(s0, v.items);
      InsertedInv(cmp, v, x);
      RunSnoc(EmptyView(), OrderedAdds(cmp, s0), AddOrdered(x, cmp));
      assert OrderedAdds(cmp, s) == OrderedAdds(cmp, s0) + [AddOrdered(x, cmp)];
    }
  }

  /** Ordered adds one by one, and plain adds followed by one sort, leave the same order. */
  lemma TwoRoutes(cmp: Cmp<Element>, s: seq<Element>)
    requires Distinct(s) && TotalPreorder(cmp, SetOf(s))
    ensures Inv(EmptyView())
    ensures LegalRun(EmptyView(), OrderedAdds(cmp, s)) && LegalRun(EmptyView(), Adds(s) + [SortAll(cmp)])
    ensures RunOps(EmptyView(), OrderedAdds(cmp, s)).items == RunOps(EmptyView(), Adds(s) + [SortAll(cmp)]).items
  {
    AddsItems(s);
    OrderedAddsItems(cmp, s);
    var v := RunOps(EmptyView(), Adds(s));
    RunSnoc(EmptyView(), Adds(s), SortAll(cmp));
    InsertionEqualsMergeSort(cmp, s);
  }

  // ---------- Expansion is given up for good ----------

  /** The run never empties the table, so the table record lives through it. */
  ghost predicate NeverEmpties(v: View, ops: seq<Op>)
    requires Inv(v) && LegalRun(v, ops)
    decreases |ops|
  {
    v.items != [] && (ops == [] || NeverEmpties(Apply(v, ops[0]), ops[1..]))
  }

  /** Once two consecutive expansions were ineffective, no later operation
      changes the number of buckets or any multiplier. */
  lemma {:induction false} ExpansionInhibited(v: View, ops: seq<Op>)
    requires Inv(v) && LegalRun(v, ops) && NeverEmpties(v, ops)
    requires v.stats.ineff > 1
    ensures var w := RunOps(v, ops);
            |w.chains| == |v.chains| && w.mults == v.mults && w.stats == v.stats
    decreases |ops|
  {
    if ops != [] {
      ExpansionInhibited(Apply(v, ops[0]), ops[1..]);
    }
  }

  /** What an expansion records, in closed form. */
  lemma ExpansionStatistics(v: View)
    requires Inv(v) && v.items != []
    ensures var w := Expanded(v);
            var ideal := CeilDiv(|v.items|, |w.chains|);
            && |w.chains| == |w.mults| == 2 * |v.chains| == Pow2(w.log2)
            && 0 < ideal == w.stats.ideal
            && w.stats.nonideal == Nonideal(w.chains, ideal)
            && w.stats.ineff == (if 2 * w.stats.nonideal > |v.items| then v.stats.ineff + 1 else 0)
            && (w.stats.noexpand <==> v.stats.noexpand || w.stats.ineff >= 2)
            && (forall b :: 0 <= b < |w.chains| ==>
                  && w.mults[b] == Min(Excess(|w.chains[b]|, ideal), CeilDiv(|w.chains[b]|, ideal))
                  && |w.chains[b]| <= ideal * (w.mults[b] + 1))
  {
    var w := Expanded(v);
    ExpandedInv(v);
    var ideal := CeilDiv(|v.items|, |w.chains|);
    CeilBounds(|v.items|, |w.chains|);
    assert ideal == 0 ==> ideal * |w.chains| == 0;
    forall b | 0 <= b < |w.chains|
      ensures w.mults[b] == Min(Excess(|w.chains[b]|, ideal), CeilDiv(|w.chains[b]|, ideal))
      ensures |w.chains[b]| <= ideal * (w.mults[b] + 1)
    {
      MultClosed(|w.chains[b]|, ideal);
      MultBound(|w.chains[b]|, ideal);
    }
  }
}

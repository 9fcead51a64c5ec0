/** The hash table as a mathematical value: the elements in application order,
    the chain of every bucket, and the expansion statistics.  The operations of
    `uthash.h` are functions on this value; `HashTable` shows that the pointer
    code computes them.  Having no table at all is the same value as a new
    table of 32 empty buckets, since the first add makes one. */
module TableSpec {
  import opened Bits
  import opened Elements
  import opened StableSort

  const INITIAL_LOG2: nat := 5
  const CAPACITY_THRESH: nat := 10

  datatype Stats = Stats(
    ideal: nat,        // ideal_chain_maxlen of the last expansion
    nonideal: nat,     // nonideal_items of the last expansion
    ineff: nat,        // consecutive ineffective expansions
    noexpand: bool)

  datatype View = View(
    items: seq<Element>,
    chains: seq<seq<Element>>,
    mults: seq<nat>,
    log2: nat,
    stats: Stats)

  function EmptyChains(n: nat): (cs: seq<seq<Element>>)
    ensures |cs| == n && forall b :: 0 <= b < n ==> cs[b] == []
  {
    seq(n, _ => [])
  }

  function Zeros(n: nat): (ms: seq<nat>)
    ensures |ms| == n && forall b :: 0 <= b < n ==> ms[b] == 0
  {
    seq(n, _ => 0)
  }

  function EmptyView(): View {
    View([], EmptyChains(Pow2(INITIAL_LOG2)), Zeros(Pow2(INITIAL_LOG2)), INITIAL_LOG2, Stats(0, 0, 0, false))
  }

  /** The index of the bucket of hash value `h` among `n` buckets. */
  function Slot(h: nat, n: nat): (b: nat)
    requires 0 < n
    ensures b < n
  {
    h % n
  }

  function Remove<T(==)>(s: seq<T>, x: T): seq<T> {
    if s == [] then [] else if s[0] == x then s[1..] else [s[0]] + Remove(s[1..], x)
  }

  /** Adds `x` at the head of its chain. */
  function Push(cs: seq<seq<Element>>, x: Element): (r: seq<seq<Element>>)
    requires 0 < |cs|
    ensures |r| == |cs|
  {
    var b := Slot(x.hashv, |cs|);
    cs[b := [x] + cs[b]]
  }

  function PushAll(cs: seq<seq<Element>>, s: seq<Element>): (r: seq<seq<Element>>)
    requires 0 < |cs|
    ensures |r| == |cs|
  {
    if s == [] then cs else Push(PushAll(cs, s[..|s| - 1]), s[|s| - 1])
  }

  /** All chains end to end, in bucket order. */
  function Flatten(cs: seq<seq<Element>>): seq<Element> {
    if cs == [] then [] else cs[0] + Flatten(cs[1..])
  }

  // ---------- Expansion statistics ----------

  function Excess(count: nat, ideal: nat): nat {
    if count > ideal then count - ideal else 0
  }

  /** The multiplier a bucket has after `count` elements were moved into it. */
  function MultAfter(count: nat, ideal: nat): nat {
    if count == 0 then 0
    else
      var m := MultAfter(count - 1, ideal);
      if count > ideal && count > m * ideal then m + 1 else m
  }

  function MultsAfter(cs: seq<seq<Element>>, ideal: nat): (ms: seq<nat>)
    ensures |ms| == |cs|
    ensures forall b :: 0 <= b < |cs| ==> ms[b] == MultAfter(|cs[b]|, ideal)
  {
    seq(|cs|, b requires 0 <= b < |cs| => MultAfter(|cs[b]|, ideal))
  }

  /** The number of elements whose chain position exceeds the ideal length. */
  function Nonideal(cs: seq<seq<Element>>, ideal: nat): nat {
    if cs == [] then 0 else Excess(|cs[0]|, ideal) + Nonideal(cs[1..], ideal)
  }

  // ---------- The operations ----------

  function Expanded(v: View): View
    requires 0 < |v.chains|
  {
    var n := 2 * |v.chains|;
    var cs := PushAll(EmptyChains(n), Flatten(v.chains));
    var ideal := CeilDiv(|v.items|, n);
    var nonideal := Nonideal(cs, ideal);
    var ineff := if nonideal > |v.items| / 2 then v.stats.ineff + 1 else 0;
    View(v.items, cs, MultsAfter(cs, ideal), v.log2 + 1,
         Stats(ideal, nonideal, ineff, v.stats.noexpand || ineff > 1))
  }

  /** A push into bucket `b` asks for an expansion. */
  predicate Overfull(v: View, b: nat)
    requires b < |v.chains| == |v.mults|
  {
    |v.chains[b]| >= (v.mults[b] + 1) * CAPACITY_THRESH && !v.stats.noexpand
  }

  /** Hashes `x`, already in the application order, into its bucket. */
  function Hashed(v: View, x: Element): View
    requires 0 < |v.chains| == |v.mults|
  {
    var w := v.(chains := Push(v.chains, x));
    if Overfull(w, Slot(x.hashv, |w.chains|)) then Expanded(w) else w
  }

  function Appended(v: View, x: Element): View
    requires 0 < |v.chains| == |v.mults|
  {
    Hashed(v.(items := v.items + [x]), x)
  }

  function Inserted(cmp: Cmp<Element>, v: View, x: Element): View
    requires 0 < |v.chains| == |v.mults|
  {
    Hashed(v.(items := Insert(cmp, v.items, x)), x)
  }

  function Deleted(v: View, x: Element): View
    requires 0 < |v.chains|
  {
    if |v.items| <= 1 then EmptyView()
    else
      var b := Slot(x.hashv, |v.chains|);
      v.(items := Remove(v.items, x), chains := v.chains[b := Remove(v.chains[b], x)])
  }

  function SortedView(cmp: Cmp<Element>, v: View): View {
    v.(items := MergeSort(cmp, v.items))
  }

  // ---------- The invariant ----------

  /** Every element sits in exactly one chain, the one its hash selects. */
  ghost predicate Placed(items: seq<Element>, chains: seq<seq<Element>>) {
    && 0 < |chains|
    && (forall x :: x in items ==> x in chains[Slot(x.hashv, |chains|)])
    && (forall b, i {:trigger chains[b][i]} :: 0 <= b < |chains| && 0 <= i < |chains[b]| ==>
          chains[b][i] in items && Slot(chains[b][i].hashv, |chains|) == b)
    && (forall b :: 0 <= b < |chains| ==> Distinct(chains[b]))
  }

  ghost predicate Inv(v: View) {
    && Distinct(v.items)
    && |v.chains| == |v.mults| == Pow2(v.log2)
    && Placed(v.items, v.chains)
    && (v.stats.ineff > 1 ==> v.stats.noexpand)
    && (v.items == [] ==> v == EmptyView())
  }
}

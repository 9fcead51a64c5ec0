/** The process registry of `hashtable.c`: a hash table of child processes keyed
    by pid, next to a separate entry counter.  It is an insertion-ordered map
    from pids to virtual clocks. */
module Registry {
  import opened Bits
  import opened Elements
  import opened TableSpec
  import opened TableLemmas
  import opened HashTable
  import opened Jenkins

  type Pid = x: int | -0x8000_0000 <= x < 0x8000_0000

  datatype Clock = Clock(sec: int, nsec: int)

  const FIRST_CLOCK: Clock := Clock(1718099106, 516453925)

  /** The four bytes of a pid in memory, two's complement, little-endian. */
  function PidKey(pid: Pid): (k: seq<byte>)
    ensures |k| == 4
  {
    var u := if pid < 0 then pid + WORD else pid;
    [u % 0x100, u / 0x100 % 0x100, u / 0x1_0000 % 0x100, u / 0x100_0000]
  }

  lemma PidKeyInjective(p: Pid, q: Pid)
    requires PidKey(p) == PidKey(q)
    ensures p == q
  {
    var u := if p < 0 then p + WORD else p;
    var w := if q < 0 then q + WORD else q;
    assert PidKey(p)[0] == PidKey(q)[0] && PidKey(p)[1] == PidKey(q)[1];
    assert PidKey(p)[2] == PidKey(q)[2] && PidKey(p)[3] == PidKey(q)[3];
    FromDigits(u);
    FromDigits(w);
  }

  lemma FromDigits(u: word)
    ensures u == u % 0x100 + 0x100 * (u / 0x100 % 0x100) + 0x1_0000 * (u / 0x1_0000 % 0x100) + 0x100_0000 * (u / 0x100_0000)
  {
  }

  /** The key bytes spell the pid modulo 2^32, lowest byte first. */
  lemma PidKeySpells(pid: Pid)
    ensures var k := PidKey(pid);
            (k[0] + 0x100 * k[1] + 0x1_0000 * k[2] + 0x100_0000 * k[3] - pid) % 0x1_0000_0000 == 0
  {
    var u := if pid < 0 then pid + WORD else pid;
    FromDigits(u);
  }

  function HashOf(pid: Pid): nat {
    Hash(PidKey(pid))
  }

  /** The registry as a value: pids in insertion order, each with its clock. */
  datatype Procs = Procs(order: seq<Pid>, clocks: map<Pid, Clock>)

  ghost predicate ProcsValid(p: Procs) {
    && Distinct(p.order)
    && (forall q :: q in p.order <==> q in p.clocks)
  }

  const NO_PROCS: Procs := Procs([], map[])

  function Registered(p: Procs, pid: Pid): Procs {
    if pid in p.clocks then p
    else Procs(p.order + [pid], p.clocks[pid := FIRST_CLOCK])
  }

  function Unregistered(p: Procs, pid: Pid): Procs {
    if pid in p.clocks then Procs(Remove(p.order, pid), p.clocks - {pid}) else p
  }

  function Ticked(p: Procs, pid: Pid, c: Clock): Procs {
    if pid in p.clocks then p.(clocks := p.clocks[pid := c]) else p
  }

  /** `x` is the record of `pid` with clock `c`. */
  ghost predicate IsRecord(x: Element, pid: Pid, c: Clock)
    reads x`sec, x`nsec
  {
    x.key == PidKey(pid) && x.hashv == HashOf(pid) && x.sec == c.sec && x.nsec == c.nsec
  }

  /** The elements in application order are the records of the pids in insertion order. */
  ghost predicate Records(items: seq<Element>, p: Procs)
    reads items`sec, items`nsec
  {
    && ProcsValid(p) && |items| == |p.order|
    && (forall i {:trigger items[i]} {:trigger p.order[i]} :: 0 <= i < |items| ==>
          IsRecord(items[i], p.order[i], p.clocks[p.order[i]]))
  }

  lemma RecordOf(items: seq<Element>, p: Procs, x: Element, pid: Pid)
    requires Records(items, p) && x in items && x.key == PidKey(pid)
    ensures pid in p.clocks && IsRecord(x, pid, p.clocks[pid])
    ensures forall i :: 0 <= i < |items| && items[i] == x ==> p.order[i] == pid
  {
    forall i | 0 <= i < |items| && items[i] == x
      ensures p.order[i] == pid
    {
      PidKeyInjective(pid, p.order[i]);
    }
    var i :| 0 <= i < |items| && items[i] == x;
    assert p.order[i] in p.order;
  }

  lemma RecordExists(items: seq<Element>, p: Procs, pid: Pid)
    requires Records(items, p) && pid in p.clocks
    ensures exists i :: 0 <= i < |items| && items[i].hashv == HashOf(pid) && items[i].key == PidKey(pid)
  {
    var i :| 0 <= i < |p.order| && p.order[i] == pid;
    assert items[i].key == PidKey(pid);
  }

  lemma RecordsRegistered(items: seq<Element>, p: Procs, x: Element, pid: Pid)
    requires Records(items, p) && pid !in p.clocks && IsRecord(x, pid, FIRST_CLOCK)
    ensures Records(items + [x], Registered(p, pid))
  {
    hide PidKey; hide HashOf; hide Registered;
    var r := Registered(p, pid);
    RegisteredShape(p, pid);
    forall i | 0 <= i < |items + [x]|
      ensures IsRecord((items + [x])[i], r.order[i], r.clocks[r.order[i]])
    {
      if i < |items| {
        assert p.order[i] in p.order;
      }
    }
  }

  lemma RegisteredAgain(p: Procs, pid: Pid)
    ensures pid in p.clocks ==> Registered(p, pid) == p
  {
  }

  lemma UnregisteredAbsent(p: Procs, pid: Pid)
    ensures pid !in p.clocks ==> Unregistered(p, pid) == p
  {
  }

  lemma RegisteredShape(p: Procs, pid: Pid)
    requires ProcsValid(p) && pid !in p.clocks
    ensures var r := Registered(p, pid);
            && ProcsValid(r) && r.order == p.order + [pid]
            && r.clocks.Keys == p.clocks.Keys + {pid} && r.clocks[pid] == FIRST_CLOCK
            && forall q :: q in p.clocks ==> r.clocks[q] == p.clocks[q]
  {
  }

  lemma UnregisteredShape(p: Procs, pid: Pid, k: nat)
    requires ProcsValid(p) && k < |p.order| && p.order[k] == pid
    ensures var r := Unregistered(p, pid);
            && ProcsValid(r) && r.order == p.order[..k] + p.order[k + 1..]
            && r.clocks.Keys == p.clocks.Keys - {pid}
            && forall q :: q in r.clocks ==> r.clocks[q] == p.clocks[q]
  {
    assert pid in p.order;
    RemoveAt(p.order, k);
    RemoveMembers(p.order, pid);
  }

  /** Cutting one record out of both sequences keeps them in step. */
  lemma RecordsCut(items: seq<Element>, p: Procs, r: Procs, k: nat)
    requires Records(items, p) && k < |items| && ProcsValid(r)
    requires r.order == p.order[..k] + p.order[k + 1..]
    requires forall q :: q in r.clocks ==> q in p.clocks && r.clocks[q] == p.clocks[q]
    ensures Records(items[..k] + items[k + 1..], r)
  {
    hide IsRecord; hide Distinct;
    var s := items[..k] + items[k + 1..];
    forall i | 0 <= i < |s|
      ensures IsRecord(s[i], r.order[i], r.clocks[r.order[i]])
    {
      var j := if i < k then i else i + 1;
      assert s[i] == items[j] && r.order[i] == p.order[j];
      assert IsRecord(items[j], p.order[j], p.clocks[p.order[j]]);
      assert r.order[i] in r.order;
    }
  }

  lemma {:induction false} RecordsUnregistered(items: seq<Element>, p: Procs, x: Element, pid: Pid)
    requires Records(items, p) && Distinct(items) && x in items && x.key == PidKey(pid)
    ensures Records(Remove(items, x), Unregistered(p, pid))
    ensures |Remove(items, x)| == |items| - 1
  {
    hide PidKey; hide HashOf; hide Unregistered; hide Remove; hide IsRecord; hide Records;
    RecordOf(items, p, x, pid);
    RecordsShape(items, p);
    var k :| 0 <= k < |items| && items[k] == x;
    RemoveAt(items, k);
    UnregisteredShape(p, pid, k);
    RecordsCut(items, p, Unregistered(p, pid), k);
  }

  lemma RecordsShape(items: seq<Element>, p: Procs)
    requires Records(items, p)
    ensures ProcsValid(p) && |items| == |p.order|
  {
  }

  lemma TableInv(t: Table)
    requires t.Valid()
    ensures Inv(t.v) && Distinct(t.v.items)
  {
  }

  lemma ProcsSize(p: Procs)
    requires ProcsValid(p)
    ensures |p.order| == |p.clocks|
  {
    DistinctCount(p.order, p.clocks.Keys);
  }

  lemma {:induction false} DistinctCount(order: seq<Pid>, keys: set<Pid>)
    requires Distinct(order) && forall q :: q in order <==> q in keys
    ensures |order| == |keys|
  {
    if order != [] {
      var rest, last := order[..|order| - 1], order[|order| - 1];
      assert order == rest + [last];
      DistinctCount(rest, keys - {last});
    }
  }

  /** The separate entry counter, the table's own count and the size of the map
      agree, and there is no table exactly when the map is empty. */
  lemma CountsAgree(t: ProcessTable)
    requires t.Valid()
    ensures t.entryCount == |t.procs.clocks|
    ensures t.table.head != null ==> t.table.numItems == |t.procs.clocks|
    ensures t.table.head == null <==> t.procs.clocks == map[]
  {
    hide Inv; hide IsRecord;
    ProcsSize(t.procs);
    assert t.procs.order != [] ==> t.procs.order[0] in t.procs.clocks;
  }

  class ProcessTable {
    const table: Table             // process_table and its hash table
    var entryCount: nat
    ghost var procs: Procs

    /** Everything the methods may change. */
    ghost function Footprint(): set<object>
      reads this, table
    {
      {this, table}
      + (if table.buckets == null then {} else {table.buckets})
      + (set i | 0 <= i < |table.v.items| :: table.v.items[i])
    }

    ghost predicate Valid()
      reads this, table, table.buckets, table.v.items`next, table.v.items`prev, table.v.items`sec, table.v.items`nsec,
            Members(table.v.chains)`hhNext, Members(table.v.chains)`hhPrev
    {
      table.Valid() && Records(table.v.items, procs) && entryCount == |table.v.items|
    }

    constructor ()
      ensures Valid() && procs == NO_PROCS
      ensures fresh(table) && table.buckets == null && table.v.items == []
    {
      table := new Table();
      entryCount := 0;
      procs := NO_PROCS;
    }

    /** `find_process`. */
    method Find(pid: Pid) returns (proc: Element?)
      requires Valid()
      ensures proc == null <==> pid !in procs.clocks
      ensures proc != null ==> proc in table.v.items && IsRecord(proc, pid, procs.clocks[pid])
    {
      hide PidKey; hide Hash; hide Inv; hide Lookup;
      var h := HashJen(PidKey(pid));
      proc := table.Find(PidKey(pid), h);
      LookupMeaning(table.v, PidKey(pid), h);
      if pid in procs.clocks {
        RecordExists(table.v.items, procs, pid);
      }
      if proc != null {
        RecordOf(table.v.items, procs, proc, pid);
      }
    }

    /** Adds a filled-in record to the table and counts it. */
    method AddRecord(proc: Element, pid: Pid)
      requires Valid() && pid !in procs.clocks && proc !in table.v.items && IsRecord(proc, pid, FIRST_CLOCK)
      modifies Footprint(), proc
      ensures Valid() && procs == Registered(old(procs), pid)
      ensures fresh(Footprint() - old(Footprint()) - {proc})
    {
      hide PidKey; hide Hash; hide Table.Valid; hide Inv; hide Records; hide Appended; hide Distinct; hide Pow2; hide Registered;
      assert forall i :: 0 <= i < |table.v.items| ==> allocated(table.v.items[i]);
      assert forall x :: x in Members(table.v.chains) ==> allocated(x);
      ghost var s := table.v.items;
      TableInv(table);
      AppendedInv(table.v, proc);
      table.Append(proc);
      RecordsRegistered(s, procs, proc, pid);
      entryCount := entryCount + 1;
      procs := Registered(procs, pid);
    }

    /** `insert_process`. */
    method Insert(pid: Pid) returns (inserted: bool)
      requires Valid()
      modifies Footprint()
      ensures Valid() && procs == Registered(old(procs), pid)
      ensures inserted <==> pid !in old(procs.clocks)
      ensures fresh(Footprint() - old(Footprint()))
    {
      hide PidKey; hide Hash; hide Table.Valid; hide Inv; hide Records; hide Registered; hide Distinct; hide Pow2;
      assert forall i :: 0 <= i < |table.v.items| ==> allocated(table.v.items[i]);
      assert forall x :: x in Members(table.v.chains) ==> allocated(x);
      RegisteredAgain(procs, pid);
      var found := Find(pid);
      if found != null {
        return false;
      }
      var h := HashJen(PidKey(pid));
      var proc := new Element(PidKey(pid), h, 1718099106, 516453925);
      AddRecord(proc, pid);
      inserted := true;
    }

    /** `delete_process`. */
    method Delete(pid: Pid)
      requires Valid()
      modifies Footprint()
      ensures Valid() && procs == Unregistered(old(procs), pid)
      ensures fresh(Footprint() - old(Footprint()))
    {
      hide PidKey; hide Hash; hide Table.Valid; hide Inv; hide Records; hide Deleted; hide Remove;
      assert forall i :: 0 <= i < |table.v.items| ==> allocated(table.v.items[i]);
      assert forall x :: x in Members(table.v.chains) ==> allocated(x);
      ghost var s := table.v.items;
      var found := Find(pid);
      if found != null {
        var proc: Element := found;
        TableInv(table);
        DeletedInv(table.v, proc);
        RemoveWithin(s, proc);
        table.Delete(proc);
        RecordsUnregistered(s, procs, proc, pid);
        entryCount := entryCount - 1;
        procs := Unregistered(procs, pid);
      }
    }

    /** `is_hash_table_empty`; the table's head is null in exactly the same case. */
    method IsEmpty() returns (empty: bool)
      requires Valid()
      ensures empty <==> procs.order == []
      ensures empty <==> procs.clocks == map[]
      ensures empty <==> table.head == null
    {
      empty := entryCount == 0;
      assert procs.order != [] ==> procs.order[0] in procs.clocks;
    }

    /** The clock update that `handle_syscall` makes through the record it found. */
    method SetClock(proc: Element, pid: Pid, c: Clock)
      requires Valid() && pid in procs.clocks && proc in table.v.items && IsRecord(proc, pid, procs.clocks[pid])
      modifies this`procs, proc`sec, proc`nsec
      ensures Valid() && procs == Ticked(old(procs), pid, c)
      ensures IsRecord(proc, pid, c)
    {
      hide PidKey; hide HashOf; hide Table.Valid; hide Inv;
      assert forall i :: 0 <= i < |table.v.items| ==> allocated(table.v.items[i]);
      assert forall x :: x in Members(table.v.chains) ==> allocated(x);
      TableInv(table);
      RecordOf(table.v.items, procs, proc, pid);
      ghost var p := procs;
      proc.sec, proc.nsec := c.sec, c.nsec;
      procs := Ticked(procs, pid, c);
      forall i | 0 <= i < |table.v.items|
        ensures IsRecord(table.v.items[i], procs.order[i], procs.clocks[procs.order[i]])
      {
        assert IsRecord(table.v.items[i], p.order[i], p.clocks[p.order[i]])
          || table.v.items[i] == proc;
      }
    }
  }
}

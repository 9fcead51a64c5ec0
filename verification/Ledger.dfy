/** Conservation in the event loop: the registry is what its successful
    insertions and effective deletions leave of it. */
module Ledger {
  import opened Elements
  import TableSpec
  import opened TableLemmas
  import opened Memory
  import opened Registry
  import opened Syscalls
  import opened Events
  import opened Phases

  datatype Change = Ins(pid: Pid) | Del(pid: Pid)

  /** The registry changes that serving a stop of `pid` makes. */
  function ServedChanges(w: World, pid: Pid, t: Tracee, after: Next): seq<Change> {
    if pid !in w.procs.clocks then (if Initialised(t).1 == Continues then [Ins(pid)] else [])
    else if Handled(t, w.procs.clocks[pid], after).2 == Continues
         && Handled(t, w.procs.clocks[pid], after).0.life == Requests(0) then [Del(pid)]
    else []
  }

  /** The insertions that succeed and the deletions that find their pid, in one event. */
  function Changes(w: World, e: Event): seq<Change>
    requires Known(w, e)
  {
    match e
    case Spawn(_, _, _, _) => []
    case FirstStop(pid, after) => ServedChanges(w, pid, w.tracees[pid].(run := Stopped), after)
    case ForkStop(pid, child, after) =>
      var t := AtEvent(w.tracees[pid]);
      var w0 := w.(tracees := w.tracees[pid := t]);
      (if child in w.procs.clocks then [] else [Ins(child)]) + ServedChanges(Adopted(w0, child), pid, t, after)
    case ExecStop(_, _) => []
    case SyscallStop(pid, now, after) => ServedChanges(w, pid, AtSyscall(w.tracees[pid], now), after)
    case Ended(pid) => if pid in w.procs.clocks then [Del(pid)] else []
  }

  /** All changes of a run, in order. */
  ghost function RunChanges(w: World, es: seq<Event>): seq<Change>
    requires KnownAll(w, es)
    decreases |es|
  {
    if es == [] || w.procs.order == [] then []
    else
      Changes(w, es[0])
      + if Handle(w, es[0]).1 == Continues then RunChanges(Handle(w, es[0]).0, es[1..]) else []
  }

  // ---------- Replaying a ledger on an order of pids ----------

  ghost predicate Valid(order: seq<Pid>, log: seq<Change>)
    decreases |log|
  {
    log == [] ||
    match log[0]
    case Ins(p) => p !in order && Valid(order + [p], log[1..])
    case Del(p) => p in order && Valid(TableSpec.Remove(order, p), log[1..])
  }

  function Replay(order: seq<Pid>, log: seq<Change>): seq<Pid>
    decreases |log|
  {
    if log == [] then order
    else
      match log[0]
      case Ins(p) => Replay(order + [p], log[1..])
      case Del(p) => Replay(TableSpec.Remove(order, p), log[1..])
  }

  function Insertions(log: seq<Change>): nat {
    if log == [] then 0 else (if log[0].Ins? then 1 else 0) + Insertions(log[1..])
  }

  function Deletions(log: seq<Change>): nat {
    if log == [] then 0 else (if log[0].Del? then 1 else 0) + Deletions(log[1..])
  }

  /** Whether `p` is registered after `log`, decided by its last entry alone. */
  ghost predicate LastInserted(order: seq<Pid>, log: seq<Change>, p: Pid)
    decreases |log|
  {
    if log == [] then p in order
    else
      var last := log[|log| - 1];
      if last.pid == p then last.Ins? else LastInserted(order, log[..|log| - 1], p)
  }

  lemma {:induction false} ReplayConcat(order: seq<Pid>, a: seq<Change>, b: seq<Change>)
    ensures Replay(order, a + b) == Replay(Replay(order, a), b)
    ensures Valid(order, a) && Valid(Replay(order, a), b) ==> Valid(order, a + b)
    decreases |a|
  {
    if a == [] {
      assert a + b == b;
    } else {
      assert (a + b)[0] == a[0] && (a + b)[1..] == a[1..] + b;
      match a[0]
      case Ins(p) => ReplayConcat(order + [p], a[1..], b);
      case Del(p) => ReplayConcat(TableSpec.Remove(order, p), a[1..], b);
    }
  }

  /** Insertions minus deletions is the change in size, and nothing is listed twice. */
  lemma {:induction false} ReplayCounts(order: seq<Pid>, log: seq<Change>)
    requires Distinct(order) && Valid(order, log)
    ensures Distinct(Replay(order, log))
    ensures |Replay(order, log)| == |order| + Insertions(log) - Deletions(log)
    decreases |log|
  {
    if log != [] {
      match log[0]
      case Ins(p) =>
        DistinctConcat(order, [p]);
        ReplayCounts(order + [p], log[1..]);
      case Del(p) =>
        RemoveMembers(order, p);
        ReplayCounts(TableSpec.Remove(order, p), log[1..]);
    }
  }

  /** A pid is registered exactly when its last entry is an insertion. */
  lemma {:induction false} ReplayLast(order: seq<Pid>, log: seq<Change>, p: Pid)
    requires Distinct(order) && Valid(order, log)
    ensures p in Replay(order, log) <==> LastInserted(order, log, p)
    decreases |log|
  {
    if log != [] {
      var init, last := log[..|log| - 1], log[|log| - 1];
      assert log == init + [last];
      ReplayConcat(order, init, [last]);
      ValidPrefix(order, init, [last]);
      ReplayLast(order, init, p);
      ReplayCounts(order, init);
      var mid := Replay(order, init);
      assert [last][1..] == [];
      match last
      case Ins(q) => assert Replay(mid, [last]) == mid + [q];
      case Del(q) =>
        assert Replay(mid, [last]) == TableSpec.Remove(mid, q);
        RemoveMembers(mid, q);
    }
  }

  lemma {:induction false} ValidPrefix(order: seq<Pid>, a: seq<Change>, b: seq<Change>)
    requires Valid(order, a + b)
    ensures Valid(order, a)
    decreases |a|
  {
    if a != [] {
      assert (a + b)[0] == a[0] && (a + b)[1..] == a[1..] + b;
      match a[0]
      case Ins(p) => ValidPrefix(order + [p], a[1..], b);
      case Del(p) => ValidPrefix(TableSpec.Remove(order, p), a[1..], b);
    }
  }

  // ---------- The loop keeps its ledger ----------

  lemma {:induction false} One(order: seq<Pid>, c: Change)
    ensures Valid(order, []) && Replay(order, []) == order
    ensures Replay(order, [c]) == if c.Ins? then order + [c.pid] else TableSpec.Remove(order, c.pid)
    ensures Valid(order, [c]) <==> (c.Ins? <==> c.pid !in order)
  {
    assert [c][1..] == [];
  }

  lemma ServedLedger(w: World, pid: Pid, t: Tracee, after: Next)
    requires ProcsValid(w.procs)
    ensures var log := ServedChanges(w, pid, t, after);
            var u := Served(w, pid, t, after).0;
            ProcsValid(u.procs) && Valid(w.procs.order, log) && u.procs.order == Replay(w.procs.order, log)
  {
    hide Initialised; hide Handled; hide Valid; hide Replay; hide LetRun; hide TableSpec.Remove;
    One(w.procs.order, Ins(pid));
    One(w.procs.order, Del(pid));
    if pid in w.procs.clocks {
      var c := Handled(t, w.procs.clocks[pid], after).1;
      RegistryKeepsValid(w.procs, pid, c);
      RegistryKeepsValid(Ticked(w.procs, pid, c), pid, c);
    } else {
      RegistryKeepsValid(w.procs, pid, FIRST_CLOCK);
    }
  }

  lemma EventLedger(w: World, e: Event)
    requires ProcsValid(w.procs) && Known(w, e)
    ensures var log := Changes(w, e);
            var u := Handle(w, e).0;
            ProcsValid(u.procs) && Valid(w.procs.order, log) && u.procs.order == Replay(w.procs.order, log)
  {
    hide Initialised; hide Served; hide ServedChanges; hide Valid; hide Replay; hide LetRun; hide NextStop; hide TableSpec.Remove;
    match e
    case Spawn(_, child, _, _) => One(w.procs.order, Ins(child));
    case FirstStop(pid, after) => ServedLedger(w, pid, w.tracees[pid].(run := Stopped), after);
    case ForkStop(pid, child, after) =>
      var t := AtEvent(w.tracees[pid]);
      var w1 := Adopted(w.(tracees := w.tracees[pid := t]), child);
      One(w.procs.order, Ins(child));
      RegistryKeepsValid(w.procs, child, FIRST_CLOCK);
      ServedLedger(w1, pid, t, after);
      var first := if child in w.procs.clocks then [] else [Ins(child)];
      ReplayConcat(w.procs.order, first, ServedChanges(w1, pid, t, after));
    case ExecStop(pid, _) => One(w.procs.order, Ins(pid));
    case SyscallStop(pid, now, after) => ServedLedger(w, pid, AtSyscall(w.tracees[pid], now), after);
    case Ended(pid) =>
      One(w.procs.order, Del(pid));
      RegistryKeepsValid(w.procs, pid, FIRST_CLOCK);
  }

  lemma {:induction false} RunLedger(w: World, es: seq<Event>)
    requires ProcsValid(w.procs) && KnownAll(w, es)
    ensures var log := RunChanges(w, es);
            var u := Loop(w, es).0;
            ProcsValid(u.procs) && Valid(w.procs.order, log) && u.procs.order == Replay(w.procs.order, log)
    decreases |es|
  {
    hide Handle; hide Known; hide Changes; hide Valid; hide Replay; hide ProcsValid;
    One(w.procs.order, Ins(0));
    if es == [] || w.procs.order == [] {
    } else {
      EventLedger(w, es[0]);
      var log := Changes(w, es[0]);
      if Handle(w, es[0]).1 == Continues {
        var u := Handle(w, es[0]).0;
        RunLedger(u, es[1..]);
        ReplayConcat(w.procs.order, log, RunChanges(u, es[1..]));
      } else {
        assert log + [] == log;
      }
    }
  }

  /** In every run the number of registered processes is the number at the start
      plus the successful insertions minus the effective deletions, and a pid is
      registered exactly when the last change to it was an insertion. */
  lemma {:induction false} Conservation(w: World, es: seq<Event>, p: Pid)
    requires ProcsValid(w.procs) && KnownAll(w, es)
    ensures var log := RunChanges(w, es);
            var u := Loop(w, es).0;
            && |u.procs.order| == |w.procs.order| + Insertions(log) - Deletions(log)
            && (p in u.procs.clocks <==> LastInserted(w.procs.order, log, p))
  {
    hide Loop; hide RunChanges; hide KnownAll;
    RunLedger(w, es);
    var log := RunChanges(w, es);
    ReplayCounts(w.procs.order, log);
    ReplayLast(w.procs.order, log, p);
  }

  lemma {:induction false} LeavesWhenEmpty(w: World, es: seq<Event>)
    requires KnownAll(w, es)
    requires Loop(w, es).1 == Continues && Taken(w, es) < |es|
    ensures Loop(w, es).0.procs.order == []
    decreases |es|
  {
    hide Handle; hide Known;
    if w.procs.order != [] {
      LeavesWhenEmpty(Handle(w, es[0]).0, es[1..]);
    }
  }

  /** While events are still coming, the loop leaves of its own accord only when
      every pid inserted so far has been deleted since its last insertion. */
  lemma {:induction false} LoopLeaves(w: World, es: seq<Event>)
    requires ProcsValid(w.procs) && KnownAll(w, es)
    requires Loop(w, es).1 == Continues && Taken(w, es) < |es|
    ensures Loop(w, es).0.procs == NO_PROCS
    ensures forall p :: !LastInserted(w.procs.order, RunChanges(w, es), p)
  {
    hide Loop; hide RunChanges; hide KnownAll; hide Taken;
    LeavesWhenEmpty(w, es);
    RunLedger(w, es);
    var procs := Loop(w, es).0.procs;
    assert procs.clocks == map[] by {
      assert forall p :: p in procs.clocks ==> p in procs.order;
    }
    forall p
      ensures !LastInserted(w.procs.order, RunChanges(w, es), p)
    {
      Conservation(w, es, p);
    }
  }
}

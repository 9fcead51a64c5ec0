/** The tracer's event loop.  The environment decides which traced process stops
    next and what it has done in between; the tracer looks the process up,
    handles the stop and lets it run on.  `World` is the state of both: the
    registry, and every traced process as the kernel knows it. */
module Events {
  import opened Bits
  import opened Elements
  import opened HashTable
  import opened Memory
  import opened CString
  import opened Vdso
  import opened Registry
  import opened Syscalls

  datatype World = World(procs: Procs, tracees: map<Pid, Tracee>)

  /** `after` is what the environment has ready at the stop after this one, for
      the calls that the handler itself lets run on. */
  datatype Event =
    | Spawn(parent: Pid, child: Pid, regs: Regs, mem: Mem)     // a fork in the kernel; the tracer sees nothing yet
    | FirstStop(pid: Pid, after: Next)                         // a new process's own first stop
    | ForkStop(pid: Pid, child: Pid, after: Next)              // PTRACE_EVENT_FORK, VFORK or CLONE
    | ExecStop(pid: Pid, image: Next)                          // PTRACE_EVENT_EXEC
    | SyscallStop(pid: Pid, now: Next, after: Next)            // entry or exit of a system call
    | Ended(pid: Pid)                                          // WIFEXITED or WIFSIGNALED

  const NR_CLONE: word64 := 56
  const NR_FORK: word64 := 57
  const NR_VFORK: word64 := 58
  const NR_EXECVE: word64 := 59
  const NR_EXECVEAT: word64 := 322
  const NR_CLONE3: word64 := 435

  predicate ForkCall(nr: word64) { nr == NR_CLONE || nr == NR_FORK || nr == NR_VFORK || nr == NR_CLONE3 }
  predicate ExecCall(nr: word64) { nr == NR_EXECVE || nr == NR_EXECVEAT }

  // ---------- What one stop does to the stopped process ----------

  /** A stopped process after PTRACE_SYSCALL, unless it is gone. */
  function LetRun(t: Tracee): Tracee {
    if t.life == Requests(0) then t else t.(run := Running, life := Spent(t.life, 1))
  }

  /** `proc_init`: remove the vDSO, then let the process run. */
  function Initialised(t: Tracee): (Tracee, Flow) {
    var (u, o) := VdsoRemoved(t);
    if o == Fatal then (u, TracerExits)
    else if o == Gone then (u, Continues)
    else (LetRun(u), Continues)
  }

  /** An event inside a system call, which the kernel is executing. */
  function AtEvent(t: Tracee): Tracee {
    t.(phase := Event, run := Stopped, ran := t.ran + [t.regs.origRax])
  }

  function Execed(t: Tracee, image: Next): Tracee {
    AtEvent(t).(regs := image.regs.(origRax := t.regs.origRax), mem := image.mem)
  }

  function AtSyscall(t: Tracee, now: Next): Tracee {
    NextStop(t, now).(run := Stopped)
  }

  // ---------- The loop body, branch by branch ----------

  /** The second half of the loop body: look the process up; initialise it if it
      is unexpected, else handle its system call; then let it run. */
  function Served(w: World, pid: Pid, t: Tracee, after: Next): (World, Flow) {
    if pid !in w.procs.clocks then
      var (u, f) := Initialised(t);
      (World(if f == Continues then Registered(w.procs, pid) else w.procs, w.tracees[pid := u]), f)
    else
      var (u, c, f) := Handled(t, w.procs.clocks[pid], after);
      var procs := Ticked(w.procs, pid, c);
      if f == TracerExits then (World(procs, w.tracees[pid := u]), f)
      else if u.life == Requests(0) then (World(Unregistered(procs, pid), w.tracees[pid := u]), f)
      else (World(procs, w.tracees[pid := LetRun(u)]), f)
  }

  /** `register_new_child`: a child not yet tracked is inserted, its first stop
      is waited for, and it is let run. */
  function Adopted(w: World, child: Pid): World
    requires child in w.tracees
  {
    if child in w.procs.clocks then w
    else World(Registered(w.procs, child), w.tracees[child := LetRun(w.tracees[child])])
  }

  /** The process an event is about is one the kernel traces. */
  predicate Known(w: World, e: Event) {
    match e
    case Spawn(_, child, _, _) => child !in w.tracees
    case FirstStop(pid, _) => pid in w.tracees
    case ForkStop(pid, child, _) => pid in w.tracees && child in w.tracees && pid != child
    case ExecStop(pid, _) => pid in w.tracees
    case SyscallStop(pid, _, _) => pid in w.tracees
    case Ended(pid) => pid in w.tracees
  }

  function Handle(w: World, e: Event): (World, Flow)
    requires Known(w, e)
  {
    match e
    case Spawn(_, child, regs, mem) =>
      (w.(tracees := w.tracees[child := Tracee(First, Pending, regs, mem, Forever, [])]), Continues)
    case FirstStop(pid, after) =>
      Served(w, pid, w.tracees[pid].(run := Stopped), after)
    case ForkStop(pid, child, after) =>
      var t := AtEvent(w.tracees[pid]);
      var w1 := Adopted(w.(tracees := w.tracees[pid := t]), child);
      Served(w1, pid, t, after)
    case ExecStop(pid, image) =>
      var (u, f) := Initialised(Execed(w.tracees[pid], image));
      (w.(tracees := w.tracees[pid := u]), f)
    case SyscallStop(pid, now, after) =>
      Served(w, pid, AtSyscall(w.tracees[pid], now), after)
    case Ended(pid) =>
      (World(Unregistered(w.procs, pid), w.tracees - {pid}), Continues)
  }

  /** The whole loop: it ends when the registry is empty, when the tracer exits,
      or when the environment has no more events. */
  ghost predicate KnownAll(w: World, es: seq<Event>)
    decreases |es|
  {
    es == [] || w.procs.order == []
    || (Known(w, es[0]) && (Handle(w, es[0]).1 == Continues ==> KnownAll(Handle(w, es[0]).0, es[1..])))
  }

  ghost function Loop(w: World, es: seq<Event>): (World, Flow)
    requires KnownAll(w, es)
    decreases |es|
  {
    if es == [] || w.procs.order == [] then (w, Continues)
    else
      var (u, f) := Handle(w, es[0]);
      if f == TracerExits then (u, f) else Loop(u, es[1..])
  }

  /** The number of events after which the tracer goes on. */
  ghost function Taken(w: World, es: seq<Event>): (n: nat)
    requires KnownAll(w, es)
    ensures n <= |es|
    decreases |es|
  {
    if es == [] || w.procs.order == [] || Handle(w, es[0]).1 == TracerExits then 0
    else 1 + Taken(Handle(w, es[0]).0, es[1..])
  }

  // ---------- The loop as the source runs it ----------

  class Tracer {
    const procs: ProcessTable
    var tracees: map<Pid, Tracee>
    const buffer: array<byte>

    ghost predicate Valid()
      reads this, procs, procs.table, procs.table.buckets, procs.table.v.items`next, procs.table.v.items`prev,
            procs.table.v.items`sec, procs.table.v.items`nsec,
            Members(procs.table.v.chains)`hhNext, Members(procs.table.v.chains)`hhPrev
    {
      procs.Valid() && buffer.Length == MAX_BUFFER_SIZE
    }

    ghost function W(): World
      reads this, procs
    {
      World(procs.procs, tracees)
    }

    /** `main` up to the loop: the first child is inserted before it runs on. */
    constructor (first: Pid, t: Tracee)
      ensures Valid() && W() == World(Registered(NO_PROCS, first), map[first := t])
      ensures fresh(procs.Footprint()) && fresh(buffer)
    {
      hide ProcessTable.Valid; hide Registered;
      procs := new ProcessTable();
      tracees := map[first := t];
      buffer := new byte[MAX_BUFFER_SIZE];
      new;
      var _ := procs.Insert(first);
    }

    /** `proc_init`. */
    method ProcInit(p: Process) returns (f: Flow)
      modifies p
      ensures p.t == Initialised(old(p.t)).0 && f == Initialised(old(p.t)).1
    {
      hide VdsoRemoved;
      var o := RemoveVdso(p);
      if o == Fatal {
        return TracerExits;
      }
      if o == Done {
        p.t := LetRun(p.t);
      }
      f := Continues;
    }

    /** `register_new_child`. */
    method RegisterNewChild(child: Pid)
      requires Valid() && child in tracees
      modifies this`tracees, procs.Footprint()
      ensures Valid() && W() == Adopted(old(W()), child)
      ensures fresh(procs.Footprint() - old(procs.Footprint()))
    {
      hide ProcessTable.Valid; hide Registered; hide LetRun;
      RegisteredAgain(procs.procs, child);
      var inserted := procs.Insert(child);
      if inserted {
        tracees := tracees[child := LetRun(tracees[child])];
      }
    }

    /** A process nobody has registered: initialise it, then track it. */
    method ServeUnexpected(pid: Pid, t: Tracee) returns (f: Flow)
      requires Valid() && pid !in procs.procs.clocks
      modifies this`tracees, procs.Footprint()
      ensures Valid()
      ensures var (u, g) := Initialised(t);
              f == g && W() == World(if g == Continues then Registered(old(procs.procs), pid) else old(procs.procs),
                                     old(tracees)[pid := u])
      ensures fresh(procs.Footprint() - old(procs.Footprint()))
    {
      hide ProcessTable.Valid; hide Registered; hide Initialised;
      assert forall i :: 0 <= i < |procs.table.v.items| ==> allocated(procs.table.v.items[i]);
      assert forall x :: x in Members(procs.table.v.chains) ==> allocated(x);
      var p := new Process(t);
      f := ProcInit(p);
      tracees := tracees[pid := p.t];
      if f == Continues {
        var _ := procs.Insert(pid);
      }
    }

    /** A tracked process: handle its system call, then let it run. */
    method ServeTracked(pid: Pid, child: Element, t: Tracee, after: Next) returns (f: Flow)
      requires Valid() && pid in procs.procs.clocks
      requires child in procs.table.v.items && IsRecord(child, pid, procs.procs.clocks[pid])
      modifies this`tracees, procs.Footprint(), buffer
      ensures Valid() && W() == Served(old(W()), pid, t, after).0 && f == Served(old(W()), pid, t, after).1
      ensures fresh(procs.Footprint() - old(procs.Footprint()))
    {
      hide ProcessTable.Valid; hide Unregistered; hide Handled; hide IsRecord; hide Ticked;
      assert forall i :: 0 <= i < |procs.table.v.items| ==> allocated(procs.table.v.items[i]);
      assert forall x :: x in Members(procs.table.v.chains) ==> allocated(x);
      var p := new Process(t);
      f := HandleSyscall(procs, child, pid, p, after, buffer);
      if f == TracerExits {
        tracees := tracees[pid := p.t];
        return;
      }
      if p.t.life == Requests(0) {
        tracees := tracees[pid := p.t];
        procs.Delete(pid);
      } else {
        tracees := tracees[pid := LetRun(p.t)];
      }
    }

    /** The second half of the loop body. */
    method Serve(pid: Pid, t: Tracee, after: Next) returns (f: Flow)
      requires Valid()
      modifies this`tracees, procs.Footprint(), buffer
      ensures Valid() && W() == Served(old(W()), pid, t, after).0 && f == Served(old(W()), pid, t, after).1
      ensures fresh(procs.Footprint() - old(procs.Footprint()))
    {
      hide ProcessTable.Valid; hide Handled; hide Initialised; hide IsRecord; hide Registered; hide Unregistered; hide Ticked;
      assert forall i :: 0 <= i < |procs.table.v.items| ==> allocated(procs.table.v.items[i]);
      assert forall x :: x in Members(procs.table.v.chains) ==> allocated(x);
      var child := procs.Find(pid);
      if child == null {
        f := ServeUnexpected(pid, t);
      } else {
        f := ServeTracked(pid, child, t, after);
      }
    }

    /** The branch for fork, vfork and clone events. */
    method HandleFork(pid: Pid, child: Pid, after: Next) returns (f: Flow)
      requires Valid() && Known(W(), ForkStop(pid, child, after))
      modifies this`tracees, procs.Footprint(), buffer
      ensures Valid() && W() == Handle(old(W()), ForkStop(pid, child, after)).0
      ensures f == Handle(old(W()), ForkStop(pid, child, after)).1
      ensures fresh(procs.Footprint() - old(procs.Footprint()))
    {
      hide ProcessTable.Valid; hide Served; hide Adopted;
      var t := AtEvent(tracees[pid]);
      tracees := tracees[pid := t];
      RegisterNewChild(child);
      f := Serve(pid, t, after);
    }

    /** One event through the loop body. */
    method Step(e: Event) returns (f: Flow)
      requires Valid() && Known(W(), e)
      modifies this`tracees, procs.Footprint(), buffer
      ensures Valid() && W() == Handle(old(W()), e).0 && f == Handle(old(W()), e).1
      ensures fresh(procs.Footprint() - old(procs.Footprint()))
    {
      hide ProcessTable.Valid; hide Served; hide Initialised; hide Unregistered; hide Adopted; hide NextStop;
      assert forall i :: 0 <= i < |procs.table.v.items| ==> allocated(procs.table.v.items[i]);
      assert forall x :: x in Members(procs.table.v.chains) ==> allocated(x);
      match e
      case Spawn(_, child, regs, mem) =>
        tracees := tracees[child := Tracee(First, Pending, regs, mem, Forever, [])];
        f := Continues;
      case FirstStop(pid, after) =>
        f := Serve(pid, tracees[pid].(run := Stopped), after);
      case ForkStop(pid, child, after) =>
        f := HandleFork(pid, child, after);
      case ExecStop(pid, image) =>
        var p := new Process(Execed(tracees[pid], image));
        f := ProcInit(p);
        tracees := tracees[pid := p.t];
      case SyscallStop(pid, now, after) =>
        f := Serve(pid, AtSyscall(tracees[pid], now), after);
      case Ended(pid) =>
        procs.Delete(pid);
        tracees := tracees - {pid};
        f := Continues;
    }

    /** `handle_event`: events are consumed while the registry is not empty. */
    method HandleEvents(es: seq<Event>) returns (f: Flow)
      requires Valid() && KnownAll(W(), es)
      modifies this`tracees, procs.Footprint(), buffer
      ensures Valid() && (W(), f) == Loop(old(W()), es)
    {
      hide ProcessTable.Valid; hide Handle; hide Known;
      f := Continues;
      ghost var rest := es;
      var i := 0;
      while i < |es|
        invariant 0 <= i <= |es| && rest == es[i..]
        invariant Valid() && KnownAll(W(), rest) && f == Continues
        invariant Loop(W(), rest) == Loop(old(W()), es)
        invariant fresh(procs.Footprint() - old(procs.Footprint()))
      {
        assert forall i :: 0 <= i < |procs.table.v.items| ==> allocated(procs.table.v.items[i]);
        assert forall x :: x in Members(procs.table.v.chains) ==> allocated(x);
        var empty := procs.IsEmpty();
        if empty {
          break;
        }
        f := Step(es[i]);
        if f == TracerExits {
          return;
        }
        i := i + 1;
        rest := es[i..];
      }
    }
  }

  /** `main` from the first child's first stop on: the loop over a registry of its own. */
  method Trace(first: Pid, t: Tracee, es: seq<Event>) returns (tr: Tracer, f: Flow)
    requires KnownAll(World(Registered(NO_PROCS, first), map[first := t]), es)
    ensures (tr.W(), f) == Loop(World(Registered(NO_PROCS, first), map[first := t]), es)
    ensures fresh(tr) && tr.Valid()
  {
    hide Loop; hide KnownAll; hide Registered; hide ProcessTable.Valid;
    tr := new Tracer(first, t);
    f := tr.HandleEvents(es);
  }
}

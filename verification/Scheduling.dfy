/** What one traced process experiences depends on its own history alone, not on
    how the tracer's events interleave. */
module Scheduling {
  import opened Memory
  import opened Vdso
  import opened Registry
  import opened Syscalls
  import opened Events
  import opened Phases

  datatype Maybe<T> = Nothing | Just(value: T)

  /** One process's share of the world: its registers and memory, and its virtual clock. */
  datatype Local = Local(tracee: Maybe<Tracee>, clock: Maybe<Clock>)

  function View(w: World, p: Pid): Local {
    Local(if p in w.tracees then Just(w.tracees[p]) else Nothing,
          if p in w.procs.clocks then Just(w.procs.clocks[p]) else Nothing)
  }

  /** What can happen to one process, seen from that process. */
  datatype Action =
    | Born(regs: Regs, mem: Mem)
    | Adopt                            // its parent's fork event was handled
    | Begin(after: Next)
    | Fork(after: Next)
    | Exec(image: Next)
    | Call(now: Next, after: Next)
    | Die

  function ActionsOf(e: Event, p: Pid): seq<Action> {
    match e
    case Spawn(_, child, regs, mem) => if p == child then [Born(regs, mem)] else []
    case FirstStop(pid, after) => if p == pid then [Begin(after)] else []
    case ForkStop(pid, child, after) => if p == pid then [Fork(after)] else if p == child then [Adopt] else []
    case ExecStop(pid, image) => if p == pid then [Exec(image)] else []
    case SyscallStop(pid, now, after) => if p == pid then [Call(now, after)] else []
    case Ended(pid) => if p == pid then [Die] else []
  }

  /** The history of `p` within a sequence of events. */
  function History(es: seq<Event>, p: Pid): seq<Action> {
    if es == [] then [] else ActionsOf(es[0], p) + History(es[1..], p)
  }

  // ---------- A process alone with the tracer ----------

  function ServeAlone(t: Tracee, clock: Maybe<Clock>, after: Next): Local {
    match clock
    case Nothing => Local(Just(Initialised(t).0), Just(FIRST_CLOCK))
    case Just(c) =>
      var (u, d, _) := Handled(t, c, after);
      if u.life == Requests(0) then Local(Just(u), Nothing) else Local(Just(LetRun(u)), Just(d))
  }

  /** The effect of one action on the process it concerns; no other process appears here. */
  function Act(l: Local, a: Action): Local {
    match a
    case Born(regs, mem) => Local(Just(Tracee(First, Pending, regs, mem, Forever, [])), l.clock)
    case Die => Local(Nothing, Nothing)
    case _ =>
      if l.tracee == Nothing then l
      else
        var t := l.tracee.value;
        match a
        case Adopt => if l.clock.Just? then l else Local(Just(LetRun(t)), Just(FIRST_CLOCK))
        case Begin(after) => ServeAlone(t.(run := Stopped), l.clock, after)
        case Fork(after) => ServeAlone(AtEvent(t), l.clock, after)
        case Exec(image) => Local(Just(Initialised(Execed(t, image)).0), l.clock)
        case Call(now, after) => ServeAlone(AtSyscall(t, now), l.clock, after)
        case _ => l
  }

  function ActAll(l: Local, actions: seq<Action>): Local
    decreases |actions|
  {
    if actions == [] then l else ActAll(Act(l, actions[0]), actions[1..])
  }

  lemma {:induction false} ActAllConcat(l: Local, a: seq<Action>, b: seq<Action>)
    ensures ActAll(l, a + b) == ActAll(ActAll(l, a), b)
    decreases |a|
  {
    hide Act;
    if a == [] {
      assert a + b == b;
    } else {
      ActAllConcat(Act(l, a[0]), a[1..], b);
      assert (a + b)[0] == a[0] && (a + b)[1..] == a[1..] + b;
    }
  }

  lemma {:induction false} ActOne(l: Local, a: Action)
    ensures ActAll(l, [a]) == Act(l, a) && ActAll(l, []) == l
  {
    assert [a][1..] == [];
  }

  lemma ServedView(w: World, pid: Pid, t: Tracee, after: Next, p: Pid)
    requires Served(w, pid, t, after).1 == Continues
    ensures View(Served(w, pid, t, after).0, p) == if p == pid then ServeAlone(t, View(w, pid).clock, after) else View(w, p)
  {
    hide Handled; hide Initialised; hide LetRun;
  }

  /** One event, seen by one process. */
  lemma EventView(w: World, e: Event, p: Pid)
    requires Known(w, e) && Handle(w, e).1 == Continues
    ensures View(Handle(w, e).0, p) == ActAll(View(w, p), ActionsOf(e, p))
  {
    hide Served; hide Initialised; hide ServeAlone; hide LetRun; hide NextStop;
    var l := View(w, p);
    ActOne(l, Die);
    match e
    case Spawn(_, child, regs, mem) => ActOne(l, Born(regs, mem));
    case FirstStop(pid, after) =>
      ServedView(w, pid, w.tracees[pid].(run := Stopped), after, p);
      ActOne(l, Begin(after));
    case ForkStop(pid, child, after) =>
      var t := AtEvent(w.tracees[pid]);
      ServedView(Adopted(w.(tracees := w.tracees[pid := t]), child), pid, t, after, p);
      ActOne(l, Fork(after));
      ActOne(l, Adopt);
    case ExecStop(pid, image) => ActOne(l, Exec(image));
    case SyscallStop(pid, now, after) =>
      ServedView(w, pid, AtSyscall(w.tracees[pid], now), after, p);
      ActOne(l, Call(now, after));
    case Ended(pid) =>
  }

  /** An event at which the tracer exits leaves everyone it is not about alone. */
  lemma ExitView(w: World, e: Event, p: Pid)
    requires Known(w, e) && Handle(w, e).1 == TracerExits && ActionsOf(e, p) == []
    ensures View(Handle(w, e).0, p) == View(w, p)
  {
    hide Handled; hide Initialised; hide LetRun; hide NextStop;
  }

  lemma {:induction false} HistoryConcat(a: seq<Event>, b: seq<Event>, p: Pid)
    ensures History(a + b, p) == History(a, p) + History(b, p)
    decreases |a|
  {
    hide ActionsOf;
    if a == [] {
      assert a + b == b;
    } else {
      assert (a + b)[0] == a[0] && (a + b)[1..] == a[1..] + b;
      HistoryConcat(a[1..], b, p);
    }
  }

  /** What `p` lived through before the loop ended. */
  ghost function Lived(w: World, es: seq<Event>, p: Pid): seq<Action>
    requires KnownAll(w, es)
  {
    History(es[..Taken(w, es)], p)
  }

  lemma {:induction false} LivedPrefix(w: World, es: seq<Event>, p: Pid)
    requires KnownAll(w, es)
    ensures History(es, p) == Lived(w, es, p) + History(es[Taken(w, es)..], p)
  {
    var n := Taken(w, es);
    assert es == es[..n] + es[n..];
    HistoryConcat(es[..n], es[n..], p);
  }

  lemma {:induction false} LivedStep(w: World, es: seq<Event>, p: Pid)
    requires KnownAll(w, es) && es != [] && w.procs.order != [] && Handle(w, es[0]).1 == Continues
    ensures Taken(w, es) == 1 + Taken(Handle(w, es[0]).0, es[1..])
    ensures Lived(w, es, p) == ActionsOf(es[0], p) + Lived(Handle(w, es[0]).0, es[1..], p)
  {
    hide ActionsOf; hide Handle; hide Known;
    var n := Taken(w, es);
    assert es[..n][0] == es[0] && es[..n][1..] == es[1..][..n - 1];
  }

  /** After any run, a process is exactly where its own history, up to the end of
      the loop, has brought it; only the process whose stop made the tracer exit
      may be further. */
  lemma {:induction false} RunView(w: World, es: seq<Event>, p: Pid)
    requires KnownAll(w, es)
    ensures Loop(w, es).1 == TracerExits ==> Taken(w, es) < |es|
    ensures Loop(w, es).1 == TracerExits ==> ActionsOf(es[Taken(w, es)], p) == [] ==>
              View(Loop(w, es).0, p) == ActAll(View(w, p), Lived(w, es, p))
    ensures Loop(w, es).1 == Continues ==> View(Loop(w, es).0, p) == ActAll(View(w, p), Lived(w, es, p))
    decreases |es|
  {
    hide Handle; hide ActionsOf; hide View; hide Known; hide Lived;
    if es == [] || w.procs.order == [] {
      NothingLived(w, es, p);
    } else if Handle(w, es[0]).1 == TracerExits {
      NothingLived(w, es, p);
      if ActionsOf(es[0], p) == [] { ExitView(w, es[0], p); }
    } else {
      var u := Handle(w, es[0]).0;
      RunView(u, es[1..], p);
      EventView(w, es[0], p);
      LivedStep(w, es, p);
      ActAllConcat(View(w, p), ActionsOf(es[0], p), Lived(u, es[1..], p));
    }
  }

  lemma {:induction false} NothingLived(w: World, es: seq<Event>, p: Pid)
    requires KnownAll(w, es) && Taken(w, es) == 0
    ensures Lived(w, es, p) == []
  {
  }

  /** What `p` was left as after each event that concerned it, up to the end of the loop. */
  ghost function Seen(w: World, es: seq<Event>, p: Pid): seq<Local>
    requires KnownAll(w, es)
    decreases |es|
  {
    if es == [] || w.procs.order == [] || Handle(w, es[0]).1 == TracerExits then []
    else
      var u := Handle(w, es[0]).0;
      (if ActionsOf(es[0], p) == [] then [] else [View(u, p)]) + Seen(u, es[1..], p)
  }

  function SeenAlone(l: Local, actions: seq<Action>): (r: seq<Local>)
    ensures |r| == |actions|
    decreases |actions|
  {
    if actions == [] then []
    else
      var k := Act(l, actions[0]);
      [k] + SeenAlone(k, actions[1..])
  }

  lemma {:induction false} SeenAloneConcat(l: Local, a: seq<Action>, b: seq<Action>)
    ensures SeenAlone(l, a + b) == SeenAlone(l, a) + SeenAlone(ActAll(l, a), b)
    decreases |a|
  {
    hide Act;
    if a == [] {
      assert a + b == b;
    } else {
      assert (a + b)[0] == a[0] && (a + b)[1..] == a[1..] + b;
      SeenAloneConcat(Act(l, a[0]), a[1..], b);
    }
  }

  /** In every run, all that a process is left as before the loop ends is the
      beginning of what its own history produces with no other process there. */
  lemma {:induction false} RunSeen(w: World, es: seq<Event>, p: Pid)
    requires KnownAll(w, es)
    ensures Seen(w, es, p) == SeenAlone(View(w, p), Lived(w, es, p))
    ensures Seen(w, es, p) <= SeenAlone(View(w, p), History(es, p))
    decreases |es|
  {
    hide Handle; hide View; hide Known; hide Act; hide ActAll; hide Lived;
    LivedPrefix(w, es, p);
    SeenAloneConcat(View(w, p), Lived(w, es, p), History(es[Taken(w, es)..], p));
    if es == [] || w.procs.order == [] || Handle(w, es[0]).1 == TracerExits {
      NothingLived(w, es, p);
    } else {
      var u := Handle(w, es[0]).0;
      var now, later := ActionsOf(es[0], p), Lived(u, es[1..], p);
      RunSeen(u, es[1..], p);
      EventView(w, es[0], p);
      LivedStep(w, es, p);
      ActOne(View(w, p), if now == [] then Die else now[0]);
      if now == [] {
        assert now + later == later;
      } else {
        assert now == [now[0]] && (now + later)[0] == now[0] && (now + later)[1..] == later;
      }
    }
  }

  /** Scheduling independence: in any two runs that give a process the same
      start and the same history, however they interleave it with others, the
      states it is left in are the same one after the other, up to the end of the
      shorter run.  They are all the same exactly when both loops come equally far
      in that history, and if both come to its end so is the state they leave. */
  lemma {:induction false} SchedulingIndependence(w: World, es: seq<Event>, w': World, es': seq<Event>, p: Pid)
    requires KnownAll(w, es) && KnownAll(w', es')
    requires View(w, p) == View(w', p) && History(es, p) == History(es', p)
    ensures Seen(w, es, p) <= Seen(w', es', p) || Seen(w', es', p) <= Seen(w, es, p)
    ensures Seen(w, es, p) == Seen(w', es', p) <==> |Lived(w, es, p)| == |Lived(w', es', p)|
    ensures Loop(w, es).1 == Loop(w', es').1 == Continues && |Lived(w, es, p)| == |Lived(w', es', p)| ==>
              View(Loop(w, es).0, p) == View(Loop(w', es').0, p)
  {
    hide Loop; hide Seen; hide SeenAlone; hide History; hide View; hide Lived; hide ActAll; hide KnownAll;
    RunSeen(w, es, p);
    RunSeen(w', es', p);
    RunView(w, es, p);
    RunView(w', es', p);
    LivedPrefix(w, es, p);
    LivedPrefix(w', es', p);
    var s := SeenAlone(View(w, p), History(es, p));
    var a, b := Seen(w, es, p), Seen(w', es', p);
    assert a == s[..|a|] && b == s[..|b|];
    var h := History(es, p);
    assert Lived(w, es, p) == h[..|Lived(w, es, p)|] && Lived(w', es', p) == h[..|Lived(w', es', p)|];
  }

  // ---------- The registration race ----------

  /** A parent has forked `child`; neither the parent's event nor the child's first stop was seen yet. */
  ghost predicate Forking(w: World, parent: Pid, child: Pid) {
    && PhaseInv(w) && parent != child
    && parent in w.procs.clocks && child in w.tracees
    && w.tracees[parent].run == Running && w.tracees[parent].phase == Entry
    && ForkCall(w.tracees[parent].regs.origRax)
    && w.tracees[child].run == Pending
  }

  /** Both orders of the race: the parent's event first, or the child's own stop first. */
  function ParentFirst(parent: Pid, child: Pid, after: Next): seq<Event> {
    [ForkStop(parent, child, after)]
  }

  function ChildFirst(parent: Pid, child: Pid, after: Next, childAfter: Next): seq<Event> {
    [FirstStop(child, childAfter), ForkStop(parent, child, after)]
  }

  lemma ArrivedLives(t: Tracee)
    requires Arrived(t)
    ensures t.life == Forever
  {
  }

  /** At a fork event the tracer never exits. */
  lemma ForkGoesOn(w: World, pid: Pid, child: Pid, after: Next)
    requires PhaseInv(w) && Legal(w, ForkStop(pid, child, after))
    ensures Handle(w, ForkStop(pid, child, after)).1 == Continues
  {
    hide Registered; hide Handled; hide Arrived; hide Settled; hide ProcsValid;
    var t := AtEvent(w.tracees[pid]);
    EventArrives(w.tracees[pid], after);
    ArrivedLives(t);
    RegistryKeepsValid(w.procs, child, FIRST_CLOCK);
    var w1 := Adopted(w.(tracees := w.tracees[pid := t]), child);
    UntouchedCall(t, w1.procs.clocks[pid], after);
  }

  /** In the first order the child is tracked once, with the initial clock, and runs. */
  lemma AfterParentFirst(w: World, parent: Pid, child: Pid, after: Next)
    requires Forking(w, parent, child)
    ensures Legal(w, ForkStop(parent, child, after))
    ensures var (u, f) := Handle(w, ForkStop(parent, child, after));
            && f == Continues
            && u.procs == Registered(w.procs, child)
            && u.tracees == w.tracees[parent := LetRun(AtEvent(w.tracees[parent]))][child := LetRun(w.tracees[child])]
  {
    hide Registered; hide ProcsValid; hide LetRun; hide Handled; hide Arrived; hide Settled;
    var t := AtEvent(w.tracees[parent]);
    EventArrives(w.tracees[parent], after);
    ArrivedLives(t);
    var w1 := Adopted(w.(tracees := w.tracees[parent := t]), child);
    RegisteredShape(w.procs, child);
    OtherStopsPass(t, w1.procs.clocks[parent], after);
    TickedSame(w1.procs, parent);
    assert w1.procs.clocks[parent] == w.procs.clocks[parent];
    assert w.tracees[parent := t][child := LetRun(w.tracees[child])][parent := LetRun(t)]
        == w.tracees[parent := LetRun(t)][child := LetRun(w.tracees[child])];
  }

  /** Handling a fork event again for a child already tracked leaves the child and its clock alone. */
  lemma LateForkEvent(w: World, parent: Pid, child: Pid, after: Next)
    requires PhaseInv(w) && Legal(w, ForkStop(parent, child, after)) && child in w.procs.clocks
    ensures var (u, f) := Handle(w, ForkStop(parent, child, after));
            && f == Continues && u.procs == w.procs
            && u.tracees == w.tracees[parent := LetRun(AtEvent(w.tracees[parent]))]
  {
    hide Registered; hide ProcsValid; hide LetRun;
    var t := AtEvent(w.tracees[parent]);
    EventArrives(w.tracees[parent], after);
    OtherStopsPass(t, w.procs.clocks[parent], after);
    TickedSame(w.procs, parent);
    assert w.tracees[parent := t][parent := LetRun(t)] == w.tracees[parent := LetRun(t)];
  }

  /** What the vDSO scan does to a new process at its first stop. */
  lemma {:induction false} FirstScan(t: Tracee)
    requires t.life == Forever
    ensures var (u, o) := VdsoRemoved(t.(run := Stopped));
            && (o == Done <==> StackEndsIn(t, AT_NULL) || StackEndsIn(t, AT_SYSINFO_EHDR))
            && (o == Done && u.mem == t.mem <==> StackEndsIn(t, AT_NULL))
  {
    hide VdsoRemoved; hide ScanMeets;
    ScanDecided(t.(run := Stopped));
  }

  /** In the second order the child is also tracked once, with the initial
      clock, and let run once; but the vDSO scan has run over its memory. */
  lemma AfterChildFirst(w: World, parent: Pid, child: Pid, after: Next, childAfter: Next)
    requires Forking(w, parent, child)
    ensures Legal(w, FirstStop(child, childAfter))
    ensures var scan := VdsoRemoved(w.tracees[child].(run := Stopped));
            var (u, f) := Handle(w, FirstStop(child, childAfter));
            && (f == Continues <==> scan.1 == Done)
            && (f == Continues <==> StackEndsIn(w.tracees[child], AT_NULL) || StackEndsIn(w.tracees[child], AT_SYSINFO_EHDR))
            && (f == Continues ==>
                  && PhaseInv(u) && Legal(u, ForkStop(parent, child, after))
                  && u.procs == Registered(w.procs, child)
                  && u.tracees == w.tracees[child := LetRun(w.tracees[child]).(mem := scan.0.mem)])
  {
    hide Registered; hide ProcsValid; hide VdsoRemoved; hide Settled; hide Arrived; hide StackEndsIn;
    var t := w.tracees[child].(run := Stopped);
    StopArrives(w.tracees[child]);
    PendingIsForever(w.tracees[child]);
    VdsoKeepsAll(t);
    FirstScan(w.tracees[child]);
    RegisteredShape(w.procs, child);
    EventKeeps(w, FirstStop(child, childAfter));
  }

  lemma PendingIsForever(t: Tracee)
    requires Settled(t)
    ensures t.life == Forever
  {
  }

  lemma AfterBoth(w: World, parent: Pid, child: Pid, after: Next, childAfter: Next)
    requires Forking(w, parent, child)
    requires VdsoRemoved(w.tracees[child].(run := Stopped)).1 == Done
    ensures Known(w, FirstStop(child, childAfter)) && Known(w, ForkStop(parent, child, after))
    ensures var u := Handle(w, FirstStop(child, childAfter)).0;
            var a := Handle(w, ForkStop(parent, child, after)).0;
            && Known(u, ForkStop(parent, child, after))
            && child in a.tracees
            && Handle(u, ForkStop(parent, child, after)) ==
                 (World(a.procs, a.tracees[child := a.tracees[child].(
                    mem := VdsoRemoved(w.tracees[child].(run := Stopped)).0.mem)]), Continues)
  {
    hide Registered; hide VdsoRemoved; hide Handle; hide PhaseInv; hide AtEvent;
    AfterParentFirst(w, parent, child, after);
    AfterChildFirst(w, parent, child, after, childAfter);
    RegisteredKeys(w.procs, child);
    LateForkEvent(Handle(w, FirstStop(child, childAfter)).0, parent, child, after);
    var m := VdsoRemoved(w.tracees[child].(run := Stopped)).0.mem;
    SwapUpdates(w.tracees, parent, child, LetRun(AtEvent(w.tracees[parent])), LetRun(w.tracees[child]), LetRun(w.tracees[child]).(mem := m));
  }

  lemma RegisteredKeys(p: Procs, pid: Pid)
    ensures pid in Registered(p, pid).clocks
  {
  }

  lemma SwapUpdates(m: map<Pid, Tracee>, p: Pid, c: Pid, tp: Tracee, tc: Tracee, td: Tracee)
    requires p != c
    ensures m[c := td][p := tp] == m[p := tp][c := tc][c := td]
  {
  }

  /** Both orders, by what the vDSO scan does to the child. */
  lemma {:induction false} RaceByScan(w: World, parent: Pid, child: Pid, after: Next, childAfter: Next)
    requires Forking(w, parent, child)
    ensures KnownAll(w, ParentFirst(parent, child, after)) && KnownAll(w, ChildFirst(parent, child, after, childAfter))
    ensures var (a, fa) := Loop(w, ParentFirst(parent, child, after));
            var (b, fb) := Loop(w, ChildFirst(parent, child, after, childAfter));
            var scan := VdsoRemoved(w.tracees[child].(run := Stopped));
            && fa == Continues && child in a.tracees
            && a.procs == Registered(w.procs, child)
            && (fb == Continues <==> scan.1 == Done)
            && (fb == Continues ==>
                  && b == a.(tracees := a.tracees[child := a.tracees[child].(mem := scan.0.mem)])
                  && (a == b <==> scan.0.mem == w.tracees[child].mem))
  {
    hide Registered; hide VdsoRemoved; hide Handle; hide PhaseInv; hide AtEvent; hide KnownAll; hide Loop;
    var e1, e2 := FirstStop(child, childAfter), ForkStop(parent, child, after);
    AfterParentFirst(w, parent, child, after);
    AfterChildFirst(w, parent, child, after, childAfter);
    ForkingNonempty(w, parent, child);
    LoopOne(w, e2);
    if Handle(w, e1).1 == Continues {
      AfterBoth(w, parent, child, after, childAfter);
      RegisteredKeys(w.procs, child);
      PhaseNonempty(Handle(w, e1).0, child);
      LoopTwo(w, e1, e2);
      var a := Handle(w, e2).0;
      var m := VdsoRemoved(w.tracees[child].(run := Stopped)).0.mem;
      assert a.tracees[child].mem == w.tracees[child].mem;
      assert m == a.tracees[child].mem ==> a.tracees[child := a.tracees[child].(mem := m)] == a.tracees;
    } else {
      LoopExits(w, e1, e2);
    }
  }

  /** The race, by the words above the child's stack pointer.  Both orders track
      the child once, with the initial clock, and let it run once from its first
      stop.  They end in the same world if and only if those words, read as two
      zero-terminated lists and pairs, reach the key AT_NULL before any
      AT_SYSINFO_EHDR.  If they reach neither, the child-first order makes the
      tracer exit. */
  lemma {:induction false} RaceConfluent(w: World, parent: Pid, child: Pid, after: Next, childAfter: Next)
    requires Forking(w, parent, child)
    ensures KnownAll(w, ParentFirst(parent, child, after)) && KnownAll(w, ChildFirst(parent, child, after, childAfter))
    ensures var (a, fa) := Loop(w, ParentFirst(parent, child, after));
            var (b, fb) := Loop(w, ChildFirst(parent, child, after, childAfter));
            var t := w.tracees[child];
            && fa == Continues && child in a.tracees
            && a.procs == Registered(w.procs, child)
            && (fb == Continues <==> StackEndsIn(t, AT_NULL) || StackEndsIn(t, AT_SYSINFO_EHDR))
            && (fb == Continues && b == a <==> StackEndsIn(t, AT_NULL))
  {
    hide Registered; hide VdsoRemoved; hide Settled; hide ProcsValid; hide KnownAll; hide Loop; hide StackEndsIn;
    var t := w.tracees[child];
    RaceByScan(w, parent, child, after, childAfter);
    PendingIsForever(t);
    FirstScan(t);
  }

  /** The word that the child-first order overwrites. */
  lemma {:induction false} RacePatched(w: World, parent: Pid, child: Pid, after: Next, childAfter: Next, i: nat, j: nat, n: nat)
    requires Forking(w, parent, child)
    requires w.tracees[child].regs.rsp != MINUS_ONE
    requires ScanMeets(w.tracees[child].mem, w.tracees[child].regs.rsp, i, j, n, AT_SYSINFO_EHDR)
    ensures KnownAll(w, ParentFirst(parent, child, after)) && KnownAll(w, ChildFirst(parent, child, after, childAfter))
    ensures var (a, fa) := Loop(w, ParentFirst(parent, child, after));
            var (b, fb) := Loop(w, ChildFirst(parent, child, after, childAfter));
            var t := w.tracees[child];
            var key := t.regs.rsp + 8 * (i + j + 3) + 16 * n;
            && fb == Continues && child in a.tracees && b != a
            && b == a.(tracees := a.tracees[child := a.tracees[child].(mem := Store(t.mem, key, ToLe(AT_IGNORE, 8)))])
  {
    hide Registered; hide VdsoRemoved; hide Settled; hide ProcsValid; hide KnownAll; hide Loop; hide ScanMeets; hide Store; hide ToLe;
    var t := w.tracees[child];
    RaceByScan(w, parent, child, after, childAfter);
    PendingIsForever(t);
    ScanEnds(t.(run := Stopped), i, j, n, AT_SYSINFO_EHDR);
    MetKey(t.mem, t.regs.rsp, i, j, n, AT_SYSINFO_EHDR);
    KeyPatched(t.mem, t.regs.rsp + 8 * (i + j + 3) + 16 * n);
  }

  lemma ForkingNonempty(w: World, parent: Pid, child: Pid)
    requires Forking(w, parent, child)
    ensures w.procs.order != []
  {
    OrderNonempty(w, parent);
  }

  lemma PhaseNonempty(w: World, p: Pid)
    requires PhaseInv(w) && p in w.procs.clocks
    ensures w.procs.order != []
  {
    OrderNonempty(w, p);
  }

  /** The two orders do differ when the child's stack happens to look like an
      initial stack with the vDSO key in it: only one of them rewrites that key. */
  lemma {:induction false} RaceDiverges(w: World, parent: Pid, child: Pid, after: Next, childAfter: Next,
                     argc: word64, argv: seq<word64>, envp: seq<word64>, aux: seq<Aux>, last: word64)
    requires Forking(w, parent, child)
    requires StackOf(w.tracees[child].(run := Stopped), argc, argv, envp, aux, last)
    requires Clean(argv, envp, aux) && VdsoIndex(aux) < |aux|
    ensures KnownAll(w, ParentFirst(parent, child, after)) && KnownAll(w, ChildFirst(parent, child, after, childAfter))
    ensures Loop(w, ParentFirst(parent, child, after)).0 != Loop(w, ChildFirst(parent, child, after, childAfter)).0
  {
    hide VdsoRemoved; hide Loop; hide KnownAll; hide Handle; hide PhaseInv; hide StackOf; hide Clean; hide Registered;
    var t := w.tracees[child].(run := Stopped);
    RaceByScan(w, parent, child, after, childAfter);
    VdsoExact(t, argc, argv, envp, aux, last);
    PatchChanges(t, argc, argv, envp, aux, last);
  }

  /** Patching a key that is there changes memory. */
  lemma {:induction false} PatchChanges(t: Tracee, argc: word64, argv: seq<word64>, envp: seq<word64>, aux: seq<Aux>, last: word64)
    requires StackOf(t, argc, argv, envp, aux, last) && VdsoIndex(aux) < |aux|
    ensures PatchedMem(t.mem, t.regs.rsp, argv, envp, aux) != t.mem
  {
    hide Store; hide ToLe; hide Layout; hide WordMapped; hide WordOf; hide WordBytes; hide HasWords; hide StackOf; hide Patched; hide PatchedMem; hide Prefix; hide VdsoIndex;
    var k := Prefix(argv, envp) + 2 * VdsoIndex(aux);
    var ws := Layout(argc, argv, envp, aux, last);
    StackWords(t, argc, argv, envp, aux, last);
    KeyWord(argc, argv, envp, aux, last);
    PatchedStore(t.mem, t.regs.rsp, argv, envp, aux, k);
    WordChanges(t.mem, t.regs.rsp, ws, k, AT_IGNORE);
  }

  lemma OrderNonempty(w: World, p: Pid)
    requires ProcsValid(w.procs) && p in w.procs.clocks
    ensures w.procs.order != []
  {
    assert p in w.procs.order;
  }

  lemma {:induction false} LoopOne(w: World, e: Event)
    requires w.procs.order != [] && Known(w, e)
    ensures KnownAll(w, [e]) && Loop(w, [e]) == Handle(w, e)
  {
    hide Handle; hide Known;
    assert [e][1..] == [];
  }

  lemma {:induction false} LoopTwo(w: World, e: Event, e': Event)
    requires w.procs.order != [] && Known(w, e) && Handle(w, e).1 == Continues
    requires Handle(w, e).0.procs.order != [] && Known(Handle(w, e).0, e')
    ensures KnownAll(w, [e, e']) && Loop(w, [e, e']) == Handle(Handle(w, e).0, e')
  {
    hide Handle; hide Known;
    LoopOne(Handle(w, e).0, e');
    assert [e, e'][1..] == [e'];
  }

  lemma {:induction false} LoopExits(w: World, e: Event, e': Event)
    requires w.procs.order != [] && Known(w, e) && Handle(w, e).1 == TracerExits
    ensures KnownAll(w, [e, e']) && Loop(w, [e, e']) == Handle(w, e)
  {
    hide Handle; hide Known;
  }

  /** A new process that nobody has registered yet. */
  ghost predicate Unseen(l: Local) {
    && l.tracee.Just? && l.clock == Nothing
    && l.tracee.value.life == Forever && l.tracee.value.run == Pending
  }

  /** Beginning by itself and being adopted are the same for a new process, if the
      vDSO scan, which only the first includes, changes nothing. */
  lemma {:induction false} BeginIsAdopt(l: Local, childAfter: Next)
    requires Unseen(l) && StackEndsIn(l.tracee.value, AT_NULL)
    ensures Act(l, Begin(childAfter)) == Act(l, Adopt)
  {
    hide VdsoRemoved; hide StackEndsIn;
    VdsoKeepsAll(l.tracee.value.(run := Stopped));
    FirstScan(l.tracee.value);
  }

  /** A child that has been registered, or has gone, is not changed by a late fork event. */
  lemma LateAdopt(l: Local)
    requires l.clock.Just? || l.tracee == Nothing
    ensures Act(l, Adopt) == l
  {
  }

  /** The two histories that the race can give a child are one, whatever the child
      does before its parent's fork event is seen and whatever it does afterwards:
      it is left in the same states, and the late fork event repeats one. */
  lemma {:induction false} RaceHistories(l: Local, childAfter: Next, calls: seq<Action>, later: seq<Action>)
    requires Unseen(l) && StackEndsIn(l.tracee.value, AT_NULL)
    requires var m := ActAll(l, [Adopt] + calls); m.clock.Just? || m.tracee == Nothing
    ensures var m := ActAll(l, [Adopt] + calls);
            var early, late := SeenAlone(l, [Adopt] + calls), SeenAlone(m, later);
            && SeenAlone(l, [Adopt] + calls + later) == early + late
            && SeenAlone(l, [Begin(childAfter)] + calls + [Adopt] + later) == early + [m] + late
            && ActAll(l, [Begin(childAfter)] + calls + [Adopt] + later) == ActAll(l, [Adopt] + calls + later)
  {
    hide Act; hide StackEndsIn;
    var b, a := [Begin(childAfter)] + calls, [Adopt] + calls;
    var m := ActAll(l, a);
    BeginIsAdopt(l, childAfter);
    assert b[1..] == calls && a[1..] == calls;
    assert ActAll(l, b) == m && SeenAlone(l, b) == SeenAlone(l, a);
    LateAdopt(m);
    ActOne(m, Adopt);
    SeenAloneConcat(l, a, later);
    SeenAloneConcat(l, b, [Adopt]);
    SeenAloneConcat(l, b + [Adopt], later);
    ActAllConcat(l, a, later);
    ActAllConcat(l, b, [Adopt]);
    ActAllConcat(l, b + [Adopt], later);
    assert [Adopt][1..] == [];
    assert SeenAlone(m, [Adopt]) == [m];
  }

  /** The race over whole runs: two runs that see a new child's two stops in
      opposite orders, with anything in between and afterwards, leave it in the same
      states as far as they go. */
  lemma {:induction false} RaceUnfelt(w: World, es: seq<Event>, w': World, es': seq<Event>, child: Pid,
                                      childAfter: Next, calls: seq<Action>, later: seq<Action>)
    requires KnownAll(w, es) && KnownAll(w', es')
    requires View(w, child) == View(w', child) && Unseen(View(w, child))
    requires StackEndsIn(View(w, child).tracee.value, AT_NULL)
    requires History(es, child) == [Begin(childAfter)] + calls + [Adopt] + later
    requires History(es', child) == [Adopt] + calls + later
    requires var m := ActAll(View(w, child), [Adopt] + calls); m.clock.Just? || m.tracee == Nothing
    ensures var l := View(w, child);
            var m := ActAll(l, [Adopt] + calls);
            var early, late := SeenAlone(l, [Adopt] + calls), SeenAlone(m, later);
            && Seen(w, es, child) <= early + [m] + late && Seen(w', es', child) <= early + late
            && (Loop(w, es).1 == Loop(w', es').1 == Continues && Taken(w, es) == |es| && Taken(w', es') == |es'| ==>
                  && Seen(w, es, child) == early + [m] + late && Seen(w', es', child) == early + late
                  && View(Loop(w, es).0, child) == View(Loop(w', es').0, child))
  {
    hide Loop; hide Seen; hide SeenAlone; hide View; hide ActAll; hide KnownAll; hide Taken; hide StackEndsIn; hide History;
    RaceHistories(View(w, child), childAfter, calls, later);
    RunSeen(w, es, child);
    RunSeen(w', es', child);
    RunView(w, es, child);
    RunView(w', es', child);
    assert es[..|es|] == es && es'[..|es'|] == es';
  }

  /** Both orders are legal runs. */
  lemma {:induction false} RaceLegal(w: World, parent: Pid, child: Pid, after: Next, childAfter: Next)
    requires Forking(w, parent, child)
    ensures LegalRun(w, ParentFirst(parent, child, after)) && LegalRun(w, ChildFirst(parent, child, after, childAfter))
  {
    hide Handle; hide PhaseInv; hide Legal; hide StackEndsIn; hide VdsoRemoved;
    AfterParentFirst(w, parent, child, after);
    AfterChildFirst(w, parent, child, after, childAfter);
    ForkingNonempty(w, parent, child);
    var e1, e2 := FirstStop(child, childAfter), ForkStop(parent, child, after);
    LegalOne(w, e2);
    assert [e1, e2][1..] == [e2];
    if Handle(w, e1).1 == Continues {
      RegisteredKeys(w.procs, child);
      PhaseNonempty(Handle(w, e1).0, child);
      LegalOne(Handle(w, e1).0, e2);
    }
  }

  lemma {:induction false} LegalOne(w: World, e: Event)
    requires w.procs.order != [] && Legal(w, e)
    ensures LegalRun(w, [e])
  {
    hide Handle; hide Legal;
    assert [e][1..] == [];
  }
}

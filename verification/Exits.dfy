/** When the tracer exits, and what that does to the other processes: the one way
    in which a process can come to feel another. */
module Exits {
  import opened Memory
  import opened CString
  import opened Vdso
  import opened Registry
  import opened Syscalls
  import opened SyscallFacts
  import opened Events
  import opened Phases
  import opened Scheduling

  /** The bytes that the answer to an emulated call takes. */
  function AnswerSize(t: Tracee): nat {
    if t.regs.origRax == NR_GETRANDOM then t.regs.rsi
    else if t.regs.origRax == NR_TIME && t.regs.rdi == 0 then 0
    else 16
  }

  function AnswerBuffer(t: Tracee): word64 {
    if t.regs.origRax == NR_GETRANDOM then t.regs.rdi else TimeBuffer(t)
  }

  /** The words that the answer to an emulated call touches are mapped. */
  ghost predicate Answerable(t: Tracee) {
    MappedRange(t.mem, AnswerBuffer(t), RoundUp(AnswerSize(t)))
  }

  /** Every word of the path, up to its end, is mapped and not -1. */
  ghost predicate PathReadable(t: Tracee) {
    forall k :: 0 <= k < WordsOf(t.mem, t.regs.rsi) ==> GoodWord(t.mem, t.regs.rsi + 8 * k)
  }

  /** The words above the stack pointer lead the vDSO scan to an end. */
  ghost predicate Scannable(t: Tracee) {
    StackEndsIn(t, AT_NULL) || StackEndsIn(t, AT_SYSINFO_EHDR)
  }

  /** The memory of the stopped process is such that the tracer exits. */
  ghost predicate Fails(w: World, e: Event)
    requires Known(w, e)
  {
    match e
    case FirstStop(pid, _) => !Scannable(w.tracees[pid])
    case ExecStop(pid, image) => !Scannable(Execed(w.tracees[pid], image))
    case SyscallStop(pid, now, _) =>
      var t := AtSyscall(w.tracees[pid], now);
      || (t.phase == Entry && Emulated(t.regs.origRax) && !Answerable(t))
      || (Opens(t.regs.origRax) && !PathReadable(t))
    case _ => false
  }

  lemma EmulatedExit(t: Tracee, c: Clock, after: Next)
    requires Arrived(t) && t.phase == Entry && Emulated(t.regs.origRax)
    ensures Handled(t, c, after).2 == TracerExits <==> !Answerable(t)
  {
    hide Handled; hide Store; hide ClockBytes; hide MappedRange;
    if t.regs.origRax == NR_GETRANDOM {
      GetrandomExact(t, c, after);
    } else {
      TimeExact(t, c, after);
    }
  }

  lemma OpensExit(t: Tracee, c: Clock, after: Next)
    requires t.life == Forever && Opens(t.regs.origRax)
    ensures Handled(t, c, after).2 == TracerExits <==> !PathReadable(t)
  {
    hide CStr; hide ScanWords; hide GoodWord;
    StringReadExact(t, t.regs.rsi);
  }

  lemma HandledExits(t: Tracee, c: Clock, after: Next)
    requires Arrived(t)
    ensures Handled(t, c, after).2 == TracerExits <==>
              || (t.phase == Entry && Emulated(t.regs.origRax) && !Answerable(t))
              || (Opens(t.regs.origRax) && !PathReadable(t))
  {
    hide Handled; hide Answerable; hide PathReadable;
    if Emulated(t.regs.origRax) {
      EmulatedExit(t, c, after);
    } else if Opens(t.regs.origRax) {
      OpensExit(t, c, after);
    } else {
      UntouchedCall(t, c, after);
    }
  }

  lemma InitialisedExits(t: Tracee)
    requires t.life == Forever
    ensures Initialised(t).1 == TracerExits <==> !Scannable(t)
  {
    hide VdsoRemoved; hide StackEndsIn;
    VdsoKeepsAll(t);
    ScanDecided(t);
  }

  /** A process that vanishes during the vDSO scan does not end the tracer; and on a
      stack that the scan can get through nothing does, however soon it vanishes. */
  lemma VanishedGoesOn(t: Tracee)
    ensures VdsoRemoved(t).1 == Gone ==> Initialised(t) == (VdsoRemoved(t).0, Continues)
    ensures Scannable(t) ==> Initialised(t).1 == Continues
    ensures Initialised(t).1 == TracerExits <==> VdsoRemoved(t).1 == Fatal
  {
    hide VdsoRemoved; hide StackEndsIn;
    if Scannable(t) {
      ScanCut(t);
    }
  }

  lemma SameStack(t: Tracee, u: Tracee)
    requires t.mem == u.mem && t.regs == u.regs
    ensures Scannable(t) <==> Scannable(u)
  {
  }

  /** The tracer exits at a legal event if and only if one of these holds of
      memory: the answer to a call just entered does not fit into mapped words, a
      path cannot be read, or a new process or program has a stack on which the
      vDSO scan comes to no end. */
  lemma ExitExact(w: World, e: Event)
    requires PhaseInv(w) && Legal(w, e)
    ensures Handle(w, e).1 == TracerExits <==> Fails(w, e)
  {
    hide Handled; hide Initialised; hide Registered; hide Answerable; hide PathReadable; hide Scannable; hide ProcsValid;
    hide NextStop; hide Settled; hide Arrived;
    match e
    case Spawn(_, _, _, _) =>
    case FirstStop(pid, _) =>
      var t := w.tracees[pid].(run := Stopped);
      StopArrives(w.tracees[pid]);
      ArrivedLives(t);
      InitialisedExits(t);
      SameStack(t, w.tracees[pid]);
    case ForkStop(pid, child, after) => ForkGoesOn(w, pid, child, after);
    case ExecStop(pid, image) =>
      EventArrives(w.tracees[pid], image);
      ArrivedLives(Execed(w.tracees[pid], image));
      InitialisedExits(Execed(w.tracees[pid], image));
    case SyscallStop(pid, now, after) =>
      SyscallArrives(w.tracees[pid], now);
      HandledExits(AtSyscall(w.tracees[pid], now), w.procs.clocks[pid], after);
    case Ended(_) =>
  }

  /** No event of the run makes the tracer exit. */
  ghost predicate NoneFails(w: World, es: seq<Event>)
    requires LegalRun(w, es)
    decreases |es|
  {
    es == [] || (!Fails(w, es[0]) && (Handle(w, es[0]).1 == Continues ==> NoneFails(Handle(w, es[0]).0, es[1..])))
  }

  /** Over whole runs: the tracer takes all events if and only if none of them fails. */
  lemma {:induction false} RunExits(w: World, es: seq<Event>)
    requires PhaseInv(w) && LegalRun(w, es)
    ensures KnownAll(w, es)
    ensures Loop(w, es).1 == Continues <==> NoneFails(w, es)
    ensures Taken(w, es) == |es| <==> NoneFails(w, es)
    decreases |es|
  {
    hide Handle; hide PhaseInv; hide Legal; hide Fails;
    LegalIsKnown(w, es);
    if es != [] {
      ExitExact(w, es[0]);
      if Handle(w, es[0]).1 == Continues {
        EventKeeps(w, es[0]);
        RunExits(Handle(w, es[0]).0, es[1..]);
      }
    }
  }

  /** Full independence: in legal runs none of whose events fails, a process lives
      through its whole history, and through the same states whatever else runs. */
  lemma {:induction false} WholeHistory(w: World, es: seq<Event>, w': World, es': seq<Event>, p: Pid)
    requires PhaseInv(w) && LegalRun(w, es) && NoneFails(w, es)
    requires PhaseInv(w') && LegalRun(w', es') && NoneFails(w', es')
    requires View(w, p) == View(w', p) && History(es, p) == History(es', p)
    ensures KnownAll(w, es) && KnownAll(w', es')
    ensures Seen(w, es, p) == Seen(w', es', p) == SeenAlone(View(w, p), History(es, p))
    ensures View(Loop(w, es).0, p) == View(Loop(w', es').0, p)
  {
    hide Loop; hide Seen; hide SeenAlone; hide History; hide View; hide Taken; hide LegalRun; hide KnownAll; hide PhaseInv; hide NoneFails;
    RunExits(w, es);
    RunExits(w', es');
    assert es[..|es|] == es && es'[..|es'|] == es';
    RunSeen(w, es, p);
    RunSeen(w', es', p);
    SchedulingIndependence(w, es, w', es', p);
  }

  // ---------- Where independence ends ----------

  lemma OnlyItsOwn(w: World, pid: Pid, now: Next, after: Next)
    requires PhaseInv(w) && Legal(w, SyscallStop(pid, now, after))
    requires Handle(w, SyscallStop(pid, now, after)).1 == Continues
    ensures forall q :: q != pid && q in w.tracees ==>
              q in Handle(w, SyscallStop(pid, now, after)).0.tracees
              && Handle(w, SyscallStop(pid, now, after)).0.tracees[q] == w.tracees[q]
  {
    hide Handled; hide NextStop; hide Settled; hide ProcsValid; hide LetRun;
  }

  /** The failing case: `p` enters an emulated call, and `q` stops in an open call
      whose path cannot be read.  With `p`'s stop first, its call is answered; with
      `q`'s stop first, the tracer exits and `p` stays as it was, although its own
      history is the same. */
  lemma {:induction false} ExitFelt(w: World, p: Pid, now: Next, after: Next, q: Pid, now': Next, after': Next)
    requires PhaseInv(w) && p != q
    requires Legal(w, SyscallStop(p, now, after)) && Legal(w, SyscallStop(q, now', after'))
    requires var t := AtSyscall(w.tracees[p], now); t.phase == Entry && Emulated(t.regs.origRax) && Answerable(t)
    requires var t := AtSyscall(w.tracees[q], now'); Opens(t.regs.origRax) && !PathReadable(t)
    ensures var ep, eq := SyscallStop(p, now, after), SyscallStop(q, now', after');
            && LegalRun(w, [ep, eq]) && LegalRun(w, [eq, ep]) && KnownAll(w, [ep, eq]) && KnownAll(w, [eq, ep])
            && History([ep, eq], p) == History([eq, ep], p)
            && |Seen(w, [ep, eq], p)| == 1 && Seen(w, [ep, eq], p)[0].tracee.Just?
            && Seen(w, [ep, eq], p)[0].tracee.value.phase == Exit && Seen(w, [ep, eq], p)[0].tracee.value.regs.origRax == MINUS_ONE
            && Seen(w, [eq, ep], p) == []
            && Loop(w, [eq, ep]).1 == TracerExits && View(Loop(w, [eq, ep]).0, p) == View(w, p)
            && Loop(w, [ep, eq]).1 == TracerExits && View(Loop(w, [ep, eq]).0, p) == Seen(w, [ep, eq], p)[0]
  {
    hide Handle; hide PhaseInv; hide Fails; hide Answerable; hide PathReadable; hide NextStop; hide Legal;
    var ep, eq := SyscallStop(p, now, after), SyscallStop(q, now', after');
    PhaseRunning(w, p, now, after);
    PhaseRunning(w, q, now', after');
    FailsAt(w, p, now, after);
    FailsAt(w, q, now', after');
    ExitExact(w, ep);
    ExitExact(w, eq);
    AnsweredOnce(w, p, now, after);
    OnlyItsOwn(w, p, now, after);
    EventKeeps(w, ep);
    var u := Handle(w, ep).0;
    LegalStill(w, u, q, now', after');
    PhaseNonempty(u, p);
    FailsAt(u, q, now', after');
    ExitExact(u, eq);
    assert [ep, eq][1..] == [eq] && [eq, ep][1..] == [ep] && [eq][1..] == [] && [ep][1..] == [];
    LegalIsKnown(w, [ep, eq]);
    LegalIsKnown(w, [eq, ep]);
    ExitView(w, eq, p);
    ExitView(u, eq, p);
  }

  lemma PhaseRunning(w: World, p: Pid, now: Next, after: Next)
    requires PhaseInv(w) && Legal(w, SyscallStop(p, now, after))
    ensures p in w.procs.clocks && w.procs.order != [] && p in w.tracees
    ensures Known(w, SyscallStop(p, now, after))
  {
    hide Settled;
    OrderNonempty(w, p);
  }

  lemma FailsAt(w: World, p: Pid, now: Next, after: Next)
    requires Known(w, SyscallStop(p, now, after))
    ensures var t := AtSyscall(w.tracees[p], now);
            Fails(w, SyscallStop(p, now, after)) <==>
              || (t.phase == Entry && Emulated(t.regs.origRax) && !Answerable(t))
              || (Opens(t.regs.origRax) && !PathReadable(t))
  {
  }

  lemma LegalStill(w: World, u: World, q: Pid, now: Next, after: Next)
    requires Legal(w, SyscallStop(q, now, after)) && q in u.tracees && u.tracees[q] == w.tracees[q]
    ensures Legal(u, SyscallStop(q, now, after))
  {
  }

  /** The loop also ends when the registry is empty, which a child that is not in
      it yet does feel: if the last registered process ends before the child's
      first stop is seen, the child is never let run. */
  lemma {:induction false} LeftBehind(w: World, parent: Pid, child: Pid, after: Next)
    requires PhaseInv(w) && w.procs.order == [parent]
    requires child in w.tracees && w.tracees[child].run == Pending && Scannable(w.tracees[child])
    ensures var ended, first := Event.Ended(parent), FirstStop(child, after);
            && KnownAll(w, [ended, first]) && KnownAll(w, [first, ended])
            && History([ended, first], child) == History([first, ended], child)
            && Loop(w, [ended, first]) == (World(NO_PROCS, w.tracees - {parent}), Continues)
            && Seen(w, [ended, first], child) == []
            && Loop(w, [first, ended]).1 == Continues && Loop(w, [first, ended]).0.procs == Procs([child], map[child := FIRST_CLOCK])
            && child in Loop(w, [first, ended]).0.tracees && Loop(w, [first, ended]).0.tracees[child].run == Running
  {
    hide Handle; hide PhaseInv; hide Known; hide Scannable;
    var ended, first := Event.Ended(parent), FirstStop(child, after);
    LastEnds(w, parent);
    FirstTaken(w, child, after);
    var v := Handle(w, first).0;
    PairEnds(w, v, parent, child);
    assert [ended, first][1..] == [first] && [first, ended][1..] == [ended] && [ended][1..] == [] && [first][1..] == [];
    LoopTwo(w, first, ended);
  }

  lemma {:induction false} LastEnds(w: World, parent: Pid)
    requires PhaseInv(w) && w.procs.order == [parent]
    ensures Known(w, Event.Ended(parent)) && parent in w.procs.clocks
    ensures Handle(w, Event.Ended(parent)) == (World(NO_PROCS, w.tracees - {parent}), Continues)
  {
    hide Settled;
    assert parent in w.procs.order;
    assert w.procs.clocks.Keys == {parent};
    assert [parent][1..] == [];
    assert w.procs.clocks - {parent} == map[];
  }

  lemma {:induction false} FirstTaken(w: World, child: Pid, after: Next)
    requires PhaseInv(w) && child in w.tracees && w.tracees[child].run == Pending && Scannable(w.tracees[child])
    ensures Known(w, FirstStop(child, after)) && child !in w.procs.clocks
    ensures var (v, f) := Handle(w, FirstStop(child, after));
            && f == Continues && v.procs == Registered(w.procs, child)
            && v.tracees.Keys == w.tracees.Keys && v.tracees[child].run == Running
  {
    hide Initialised; hide Scannable; hide Settled; hide Registered; hide ProcsValid;
    var t := w.tracees[child].(run := Stopped);
    StopArrives(w.tracees[child]);
    ArrivedLives(t);
    SameStack(t, w.tracees[child]);
    InitialisedExits(t);
    InitialisedSettles(t);
  }

  /** With two registered, the loop goes on after the first one's end. */
  lemma {:induction false} PairEnds(w: World, v: World, parent: Pid, child: Pid)
    requires PhaseInv(w) && w.procs.order == [parent] && child !in w.procs.clocks && child in w.tracees
    requires v.procs == Registered(w.procs, child) && v.tracees.Keys == w.tracees.Keys && v.tracees[child].run == Running
    ensures v.procs.order != [] && Known(v, Event.Ended(parent))
    ensures var (u, f) := Handle(v, Event.Ended(parent));
            && f == Continues && u.procs == Procs([child], map[child := FIRST_CLOCK])
            && child in u.tracees && u.tracees[child].run == Running
  {
    hide Settled;
    assert parent in w.procs.order && w.procs.clocks.Keys == {parent};
    assert [parent, child][1..] == [child];
    assert v.procs.clocks - {parent} == map[child := FIRST_CLOCK];
  }
}

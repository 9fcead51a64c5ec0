/** The entry/exit discipline of the tracer over whole runs: the kernel never
    executes a call that the tracer answers itself.  Such a call is answered at
    its entry, except where the exit of an open call swallows that entry. */
module Phases {
  import opened Bits
  import opened Memory
  import opened CString
  import opened Vdso
  import opened Registry
  import opened Syscalls
  import opened SyscallFacts
  import opened Events

  /** The path argument can be read, and is not a random device. */
  ghost predicate QuietPath(t: Tracee) {
    StringRead(t, t.regs.rsi).1 == Done && !RandomPath(CStr(t.mem, t.regs.rsi, MAX_BUFFER_SIZE - 1))
  }

  /** The path argument can be read, and is a random device. */
  ghost predicate LoudPath(t: Tracee) {
    StringRead(t, t.regs.rsi).1 == Done && RandomPath(CStr(t.mem, t.regs.rsi, MAX_BUFFER_SIZE - 1))
  }

  /** A process between two stops, as the tracer leaves it. */
  ghost predicate Settled(t: Tracee) {
    && t.life == Forever && t.run != Stopped
    && (forall i :: 0 <= i < |t.ran| ==> !Emulated(t.ran[i]))
    && (t.phase != Exit ==> !Emulated(t.regs.origRax))
    && (t.phase == Event || t.phase == First ==> !Opens(t.regs.origRax))
  }

  ghost predicate PhaseInv(w: World) {
    && ProcsValid(w.procs)
    && (forall p :: p in w.tracees ==> Settled(w.tracees[p]))
    && (forall p :: p in w.tracees ==> (w.tracees[p].run == Pending <==> p !in w.procs.clocks))
    && (forall p :: p in w.tracees ==> (w.tracees[p].run == Pending ==> w.tracees[p].phase == First))
    && (forall p :: p in w.procs.clocks ==> p in w.tracees)
  }

  /** What the kernel can do next: a process stops only while it runs, a new
      process first stops while its first stop is pending, and fork and exec
      events lie inside such calls. */
  ghost predicate Legal(w: World, e: Event) {
    && Known(w, e)
    && match e
       case Spawn(_, child, regs, _) => child !in w.procs.clocks && ForkCall(regs.origRax)
       case FirstStop(pid, _) => w.tracees[pid].run == Pending
       case ForkStop(pid, _, _) =>
         w.tracees[pid].run == Running && w.tracees[pid].phase == Entry && ForkCall(w.tracees[pid].regs.origRax)
       case ExecStop(pid, _) =>
         w.tracees[pid].run == Running && w.tracees[pid].phase == Entry && ExecCall(w.tracees[pid].regs.origRax)
       case SyscallStop(pid, _, _) => w.tracees[pid].run == Running
       case Ended(pid) => true
  }

  // ---------- One stop ----------

  /** At a stop: everything `Settled` says, except that the handler has yet to act. */
  ghost predicate Arrived(t: Tracee) {
    && t.life == Forever && t.run == Stopped
    && (forall i :: 0 <= i < |t.ran| ==> !Emulated(t.ran[i]))
    && (t.phase != Entry ==> !Emulated(t.regs.origRax))
    && (t.phase == Event || t.phase == First ==> !Opens(t.regs.origRax))
  }

  lemma SyscallArrives(t: Tracee, now: Next)
    requires Settled(t) && t.run == Running
    ensures Arrived(AtSyscall(t, now))
    ensures AtSyscall(t, now).phase == Entry <==> t.phase == Exit || t.phase == First
  {
  }

  /** At the exit stop of an open call the path is read again.  The handler
      changes nothing if and only if the path can still be read and still is no
      random device.  If it has become one, the child is let run on to the entry
      of its next call, and that call is overwritten by the old one. */
  lemma OpenExit(t: Tracee, c: Clock, after: Next)
    requires t.phase == Exit && t.life == Forever && Opens(t.regs.origRax)
    ensures Handled(t, c, after) == (t, c, Continues) <==> QuietPath(t)
    ensures Handled(t, c, after).2 == Continues <==> QuietPath(t) || LoudPath(t)
    ensures LoudPath(t) ==>
              Handled(t, c, after) == (t.(phase := Entry, mem := after.mem, regs := t.regs.(rax := STDIN)), c, Continues)
  {
    hide CStr; hide ScanWords; hide WordsOf;
    if StringRead(t, t.regs.rsi).1 == Done {
      ForeverScan(t, t.regs.rsi);
    }
  }

  /** At a stop that is not a fresh entry the handler changes neither the child
      nor its clock, if and only if this is not the exit of an open call whose
      path no longer reads as an ordinary one. */
  lemma OtherStopsPass(t: Tracee, c: Clock, after: Next)
    requires Arrived(t) && t.phase != Entry
    ensures Handled(t, c, after) == (t, c, Continues) <==> (Opens(t.regs.origRax) ==> QuietPath(t))
  {
    hide Handled; hide StringRead; hide CStr;
    if Opens(t.regs.origRax) {
      OpenExit(t, c, after);
    } else {
      UntouchedCall(t, c, after);
    }
  }

  lemma UntouchedCall(t: Tracee, c: Clock, after: Next)
    requires !Emulated(t.regs.origRax) && !Opens(t.regs.origRax)
    ensures Handled(t, c, after) == (t, c, Continues)
  {
  }

  lemma ForeverScan(t: Tracee, a: int)
    requires t.life == Forever && StringRead(t, a).1 == Done
    ensures StringRead(t, a) == (t, Done)
  {
    StringReadExact(t, a);
  }

  /** At a fresh entry the handler answers an emulated call, which the kernel
      then never runs, and leaves the child at the call's exit. */
  lemma EntryAnswered(t: Tracee, c: Clock, after: Next)
    requires Arrived(t) && t.phase == Entry && Emulated(t.regs.origRax)
    ensures var (u, d, f) := Handled(t, c, after);
            f == Continues ==> u.phase == Exit && u.ran == t.ran && u.regs.origRax == MINUS_ONE
                               && u.life == Forever && u.run == Stopped
  {
    hide Answered; hide Store; hide ClockBytes;
    if t.regs.origRax == NR_GETRANDOM {
      AnswerExact(t, after, t.regs.rdi, Fill(t.regs.rsi), t.regs.rsi);
    } else {
      TimeExact(t, c, after);
    }
  }

  lemma EntryPassed(t: Tracee, c: Clock, after: Next)
    requires Arrived(t) && t.phase == Entry && !Emulated(t.regs.origRax)
    ensures var (u, d, f) := Handled(t, c, after);
            f == Continues ==>
              && d == c && u.life == Forever && u.run == Stopped
              && (u == t || (u.phase == Exit && u.ran == t.ran + [t.regs.origRax]))
  {
    hide CStr; hide ScanWords; hide WordsOf;
    if Opens(t.regs.origRax) && StringRead(t, t.regs.rsi).1 == Done {
      ForeverScan(t, t.regs.rsi);
    }
  }

  /** Whatever the stop, a handled child is settled once it runs again. */
  lemma HandledSettles(t: Tracee, c: Clock, after: Next)
    requires Arrived(t)
    ensures var (u, d, f) := Handled(t, c, after);
            f == Continues ==> u.life == Forever && Settled(LetRun(u)) && LetRun(u).run == Running
  {
    hide Handled; hide CStr; hide StringRead;
    if t.phase == Entry && Emulated(t.regs.origRax) {
      EntryAnswered(t, c, after);
    } else if t.phase == Entry {
      EntryPassed(t, c, after);
    } else if Opens(t.regs.origRax) {
      OpenExit(t, c, after);
    } else {
      UntouchedCall(t, c, after);
    }
  }

  lemma InitialisedSettles(t: Tracee)
    requires Arrived(t) && (t.phase == First || t.phase == Event)
    ensures var (u, f) := Initialised(t);
            f == Continues ==> u == LetRun(t.(mem := u.mem)) && Settled(u) && u.run == Running
  {
    hide SkipZeros; hide FindKey; hide Store;
    VdsoKeepsAll(t);
  }

  /** Removing the vDSO changes nothing but memory in a process that stays alive. */
  lemma VdsoKeepsAll(t: Tracee)
    requires t.life == Forever
    ensures var (u, o) := VdsoRemoved(t); u == t.(mem := u.mem) && o != Gone
  {
    SkipForever(t.mem, t.regs.rsp, 2);
    if SkipZeros(t.mem, Forever, t.regs.rsp, 2).Here? {
      FindForever(t.mem, SkipZeros(t.mem, Forever, t.regs.rsp, 2).pos + 8);
    }
  }

  // ---------- One event ----------

  /** All processes but `pid` are settled, and the registry covers exactly those
      that have been let run, counting `pid` as one of them. */
  ghost predicate AllBut(w: World, pid: Pid) {
    && ProcsValid(w.procs)
    && (forall p :: p in w.tracees && p != pid ==> Settled(w.tracees[p]))
    && (forall p :: p in w.tracees && p != pid ==> (w.tracees[p].run == Pending <==> p !in w.procs.clocks))
    && (forall p :: p in w.tracees && p != pid ==> (w.tracees[p].run == Pending ==> w.tracees[p].phase == First))
    && (forall p :: p in w.procs.clocks ==> p in w.tracees)
    && pid in w.tracees
  }

  lemma RegistryKeepsValid(p: Procs, pid: Pid, c: Clock)
    requires ProcsValid(p)
    ensures ProcsValid(Registered(p, pid)) && Registered(p, pid).clocks.Keys == p.clocks.Keys + {pid}
    ensures ProcsValid(Unregistered(p, pid)) && Unregistered(p, pid).clocks.Keys == p.clocks.Keys - {pid}
    ensures ProcsValid(Ticked(p, pid, c)) && Ticked(p, pid, c).clocks.Keys == p.clocks.Keys
  {
    hide Registered; hide Unregistered;
    if pid in p.clocks {
      RegisteredAgain(p, pid);
      assert pid in p.order;
      var k :| 0 <= k < |p.order| && p.order[k] == pid;
      UnregisteredShape(p, pid, k);
    } else {
      UnregisteredAbsent(p, pid);
      RegisteredShape(p, pid);
    }
  }

  lemma ServedKeeps(w: World, pid: Pid, t: Tracee, after: Next)
    requires AllBut(w, pid) && Arrived(t)
    requires pid !in w.procs.clocks ==> t.phase == First || t.phase == Event
    ensures Served(w, pid, t, after).1 == Continues ==> PhaseInv(Served(w, pid, t, after).0)
  {
    hide Handled; hide Initialised; hide Registered; hide Unregistered; hide Ticked; hide Settled; hide Arrived; hide ProcsValid;
    if pid !in w.procs.clocks {
      InitialisedSettles(t);
      RegistryKeepsValid(w.procs, pid, FIRST_CLOCK);
    } else {
      HandledSettles(t, w.procs.clocks[pid], after);
      RegistryKeepsValid(w.procs, pid, Handled(t, w.procs.clocks[pid], after).1);
    }
  }

  lemma StopArrives(t: Tracee)
    requires Settled(t) && t.phase == First && t.run == Pending
    ensures Arrived(t.(run := Stopped))
  {
  }

  lemma EventArrives(t: Tracee, image: Next)
    requires Settled(t) && t.phase == Entry && (ForkCall(t.regs.origRax) || ExecCall(t.regs.origRax))
    ensures Arrived(AtEvent(t)) && Arrived(Execed(t, image))
  {
  }

  lemma PendingSettles(t: Tracee)
    requires Settled(t) && t.phase == First
    ensures Settled(LetRun(t)) && LetRun(t).run == Running
  {
  }

  /** Every legal event keeps the invariant, as long as the tracer goes on. */
  lemma EventKeeps(w: World, e: Event)
    requires PhaseInv(w) && Legal(w, e)
    ensures Handle(w, e).1 == Continues ==> PhaseInv(Handle(w, e).0)
  {
    hide Served; hide Initialised; hide Registered; hide Unregistered; hide Settled; hide Arrived; hide ProcsValid; hide NextStop;
    match e
    case Spawn(_, child, regs, mem) =>
      NewbornSettled(regs, mem);
    case FirstStop(pid, after) =>
      StopArrives(w.tracees[pid]);
      ServedKeeps(w, pid, w.tracees[pid].(run := Stopped), after);
    case ForkStop(pid, child, after) =>
      var t := AtEvent(w.tracees[pid]);
      EventArrives(w.tracees[pid], after);
      var w0 := w.(tracees := w.tracees[pid := t]);
      AdoptedKeeps(w0, pid, child);
      ServedKeeps(Adopted(w0, child), pid, t, after);
    case ExecStop(pid, image) =>
      EventArrives(w.tracees[pid], image);
      InitialisedSettles(Execed(w.tracees[pid], image));
    case SyscallStop(pid, now, after) =>
      SyscallArrives(w.tracees[pid], now);
      ServedKeeps(w, pid, AtSyscall(w.tracees[pid], now), after);
    case Ended(pid) =>
      RegistryKeepsValid(w.procs, pid, FIRST_CLOCK);
  }

  /** The kernel has executed no emulated call of this process. */
  ghost predicate Untold(t: Tracee) {
    forall i :: 0 <= i < |t.ran| ==> !Emulated(t.ran[i])
  }

  ghost predicate AllUntold(w: World) {
    forall p :: p in w.tracees ==> Untold(w.tracees[p])
  }

  lemma BlitUntold(t: Tracee, dest: int, src: seq<byte>)
    ensures Blitted(t, dest, src).0.ran == t.ran
  {
  }

  lemma AnswerUntold(t: Tracee, next: Next, dest: int, bytes: seq<byte>, ret: word64)
    requires t.life == Forever && t.phase == Entry
    ensures Answered(t, next, dest, bytes, ret).0.ran == t.ran
  {
    hide Blitted;
    BlitUntold(Cancelled(t, t.regs.(origRax := MINUS_ONE), next), dest, bytes);
  }

  /** Whatever the stop, and even if the tracer exits, the handler makes the kernel run no emulated call. */
  lemma HandledUntold(t: Tracee, c: Clock, after: Next)
    requires Arrived(t)
    ensures Untold(Handled(t, c, after).0)
  {
    hide Answered; hide ClockBytes; hide CStr; hide ScanWords; hide WordsOf;
    if t.phase == Entry && Emulated(t.regs.origRax) {
      AnswerUntold(t, after, t.regs.rdi, Fill(t.regs.rsi), t.regs.rsi);
      AnswerUntold(t, after, t.regs.rdi, ClockBytes(c), 0);
      AnswerUntold(t, after, t.regs.rdi, if t.regs.rdi != 0 then ClockBytes(Tick(c)) else [], Tick(c).sec % WORD64);
      AnswerUntold(t, after, t.regs.rsi, ClockBytes(c), 0);
    }
  }

  lemma ServedUntold(w: World, pid: Pid, t: Tracee, after: Next)
    requires AllUntold(w) && Arrived(t)
    ensures AllUntold(Served(w, pid, t, after).0)
  {
    hide Handled; hide Registered; hide Unregistered; hide Ticked; hide VdsoRemoved;
    VdsoKeepsAll(t);
    if pid in w.procs.clocks {
      HandledUntold(t, w.procs.clocks[pid], after);
    }
  }

  lemma EventUntold(w: World, e: Event)
    requires PhaseInv(w) && Legal(w, e)
    ensures AllUntold(Handle(w, e).0)
  {
    hide Served; hide VdsoRemoved; hide Registered; hide Unregistered; hide ProcsValid; hide NextStop;
    match e
    case Spawn(_, _, _, _) =>
    case FirstStop(pid, after) => ServedUntold(w, pid, w.tracees[pid].(run := Stopped), after);
    case ForkStop(pid, child, after) =>
      var t := AtEvent(w.tracees[pid]);
      EventArrives(w.tracees[pid], after);
      ServedUntold(Adopted(w.(tracees := w.tracees[pid := t]), child), pid, t, after);
    case ExecStop(pid, image) =>
      EventArrives(w.tracees[pid], image);
      VdsoKeepsAll(Execed(w.tracees[pid], image));
    case SyscallStop(pid, now, after) =>
      SyscallArrives(w.tracees[pid], now);
      ServedUntold(w, pid, AtSyscall(w.tracees[pid], now), after);
    case Ended(_) =>
  }

  lemma NewbornSettled(regs: Regs, mem: Mem)
    requires ForkCall(regs.origRax)
    ensures Settled(Tracee(First, Pending, regs, mem, Forever, []))
  {
  }

  lemma AdoptedKeeps(w: World, pid: Pid, child: Pid)
    requires AllBut(w, pid) && child in w.tracees && child != pid && pid in w.procs.clocks
    ensures AllBut(Adopted(w, child), pid) && pid in Adopted(w, child).procs.clocks
  {
    hide Registered; hide Settled; hide ProcsValid; hide LetRun;
    if child !in w.procs.clocks {
      PendingSettles(w.tracees[child]);
      RegistryKeepsValid(w.procs, child, FIRST_CLOCK);
    }
  }

  // ---------- Whole runs ----------

  /** Every event is legal when it comes, and comes while the loop still runs. */
  ghost predicate LegalRun(w: World, es: seq<Event>)
    decreases |es|
  {
    es == [] || (w.procs.order != [] && Legal(w, es[0])
                 && (Handle(w, es[0]).1 == Continues ==> LegalRun(Handle(w, es[0]).0, es[1..])))
  }

  lemma {:induction false} LegalIsKnown(w: World, es: seq<Event>)
    requires LegalRun(w, es)
    ensures KnownAll(w, es)
    decreases |es|
  {
    if es != [] && Handle(w, es[0]).1 == Continues {
      LegalIsKnown(Handle(w, es[0]).0, es[1..]);
    }
  }

  /** Over every run the kernel has executed no emulated call, also when the tracer
      exits in the end; and as long as it goes on, no process is left in the middle
      of a call that the tracer answers. */
  lemma {:induction false} RunKeepsPhases(w: World, es: seq<Event>)
    requires PhaseInv(w) && LegalRun(w, es)
    ensures KnownAll(w, es)
    ensures AllUntold(Loop(w, es).0)
    ensures Loop(w, es).1 == Continues ==> PhaseInv(Loop(w, es).0)
    decreases |es|
  {
    hide Handle; hide Legal;
    LegalIsKnown(w, es);
    if es != [] {
      EventUntold(w, es[0]);
      EventKeeps(w, es[0]);
      if Handle(w, es[0]).1 == Continues {
        RunKeepsPhases(Handle(w, es[0]).0, es[1..]);
      }
    }
  }

  /** The tracer's start, one registered child let run from its first stop, satisfies the invariant. */
  lemma StartSettled(first: Pid, t: Tracee)
    requires Settled(t) && t.run == Running
    ensures PhaseInv(World(Registered(NO_PROCS, first), map[first := t]))
  {
  }

  /** What one system-call stop does.  It is a fresh entry exactly when the
      process had left its previous call.  An emulated call is answered there
      and left at its exit.  At an exit nothing happens, if and only if the call
      did not open a path that has become a random device in the meantime. */
  lemma AnsweredOnce(w: World, pid: Pid, now: Next, after: Next)
    requires PhaseInv(w) && Legal(w, SyscallStop(pid, now, after))
    requires Handle(w, SyscallStop(pid, now, after)).1 == Continues
    ensures var before := w.tracees[pid];
            var t := AtSyscall(before, now);
            var u := Handle(w, SyscallStop(pid, now, after)).0;
            && pid in w.procs.clocks && pid in u.tracees && pid in u.procs.clocks
            && (t.phase == Entry <==> before.phase == Exit || before.phase == First)
            && (t.phase == Entry && Emulated(t.regs.origRax) ==>
                  && u.tracees[pid].phase == Exit && u.tracees[pid].ran == t.ran && u.tracees[pid].regs.origRax == MINUS_ONE
                  && u.procs.clocks[pid] == (if t.regs.origRax == NR_GETRANDOM then w.procs.clocks[pid] else Tick(w.procs.clocks[pid])))
            && (t.phase != Entry ==>
                  && u.procs.clocks[pid] == w.procs.clocks[pid]
                  && (u.tracees[pid] == LetRun(t) <==> !(Opens(t.regs.origRax) && LoudPath(t))))
  {
    hide Handled; hide CStr; hide StringRead; hide NextStop; hide ClockBytes;
    var c := w.procs.clocks[pid];
    var t := AtSyscall(w.tracees[pid], now);
    SyscallArrives(w.tracees[pid], now);
    HandledSettles(t, c, after);
    if t.phase != Entry {
      if Opens(t.regs.origRax) {
        OpenExit(t, c, after);
      } else {
        UntouchedCall(t, c, after);
      }
    } else if Emulated(t.regs.origRax) {
      EntryAnswered(t, c, after);
      if t.regs.origRax == NR_GETRANDOM {
        GetrandomExact(t, c, after);
      } else {
        TimeExact(t, c, after);
      }
    }
  }

  /** A stop of a call that is neither emulated nor the opening of a random
      device goes by without a trace. */
  lemma QuietStop(w: World, pid: Pid, now: Next, after: Next)
    requires PhaseInv(w) && Legal(w, SyscallStop(pid, now, after))
    requires var t := AtSyscall(w.tracees[pid], now);
             !Emulated(t.regs.origRax) && (Opens(t.regs.origRax) ==> QuietPath(t))
    ensures Handle(w, SyscallStop(pid, now, after)) ==
              (w.(tracees := w.tracees[pid := LetRun(AtSyscall(w.tracees[pid], now))]), Continues)
  {
    hide CStr; hide ScanWords; hide WordsOf; hide ProcsValid; hide NextStop; hide LetRun;
    var t := AtSyscall(w.tracees[pid], now);
    SyscallArrives(w.tracees[pid], now);
    TickedSame(w.procs, pid);
    if Opens(t.regs.origRax) {
      ForeverScan(t, t.regs.rsi);
    }
  }

  /** A legal event, in front of a legal run. */
  lemma {:induction false} RunCons(w: World, e: Event, es: seq<Event>)
    requires w.procs.order != [] && Legal(w, e) && Handle(w, e).1 == Continues && LegalRun(Handle(w, e).0, es)
    ensures LegalRun(w, [e] + es) && KnownAll(w, [e] + es) && KnownAll(Handle(w, e).0, es)
    ensures Loop(w, [e] + es) == Loop(Handle(w, e).0, es)
  {
    hide Handle; hide Legal;
    assert ([e] + es)[1..] == es;
    LegalIsKnown(w, [e] + es);
    LegalIsKnown(Handle(w, e).0, es);
  }

  /** The failing case.  A process is inside an open call of an ordinary path,
      and by the time the call returns another thread has written the name of a
      random device into the path.  The call the process makes next is
      overwritten by the open call: if it was one that the tracer emulates, it is
      never answered. */
  lemma CallSwallowed(w: World, pid: Pid, now: Next, after: Next)
    requires PhaseInv(w) && Legal(w, SyscallStop(pid, now, after))
    requires w.tracees[pid].phase == Entry && Opens(w.tracees[pid].regs.origRax) && LoudPath(AtSyscall(w.tracees[pid], now))
    ensures var before := w.tracees[pid];
            var (u, f) := Handle(w, SyscallStop(pid, now, after));
            && f == Continues && u.procs == w.procs
            && u.tracees == w.tracees[pid := before.(phase := Entry, run := Running, mem := after.mem,
                              regs := before.regs.(rax := STDIN), ran := before.ran + [before.regs.origRax])]
  {
    hide Handled; hide CStr; hide StringRead; hide ProcsValid; hide LoudPath; hide QuietPath;
    var t := AtSyscall(w.tracees[pid], now);
    OpenExit(t, w.procs.clocks[pid], after);
    TickedSame(w.procs, pid);
  }
}

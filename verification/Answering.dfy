/** Entries and answers over whole runs: how many of the emulated calls that a
    process makes the tracer answers. */
module Answering {
  import opened Memory
  import opened Registry
  import opened Syscalls
  import opened Events
  import opened Phases

  function One(b: bool): nat { if b then 1 else 0 }

  /** The exit of an open call whose path has become a random device: the
      handler lets the process run on to the entry of its next call. */
  ghost predicate RunsOn(t: Tracee) {
    t.phase == Exit && Opens(t.regs.origRax) && LoudPath(t)
  }

  /** The emulated calls that `p` enters in one event: at the stop itself, or
      when the handler lets it run on. */
  ghost function Made(w: World, e: Event, p: Pid): nat
    requires Known(w, e)
  {
    if e.SyscallStop? && e.pid == p then
      var t := AtSyscall(w.tracees[p], e.now);
      One(t.phase == Entry && Emulated(t.regs.origRax)) + One(RunsOn(t) && Emulated(e.after.regs.origRax))
    else 0
  }

  /** The process stopped at the entry of an emulated call, and its own state
      then shows it at the exit of a cancelled call that the kernel did not run. */
  ghost function Answers(w: World, e: Event, p: Pid): nat
    requires Known(w, e)
  {
    var u := Handle(w, e).0;
    if e.SyscallStop? && e.pid == p && p in u.tracees then
      var t := AtSyscall(w.tracees[p], e.now);
      One(t.phase == Entry && Emulated(t.regs.origRax)
          && u.tracees[p].phase == Exit && u.tracees[p].regs.origRax == MINUS_ONE && u.tracees[p].ran == t.ran)
    else 0
  }

  /** The emulated calls whose entry the exit of an open call swallows. */
  ghost function Swallows(w: World, e: Event, p: Pid): nat
    requires Known(w, e)
  {
    One(e.SyscallStop? && e.pid == p && RunsOn(AtSyscall(w.tracees[p], e.now)) && Emulated(e.after.regs.origRax))
  }

  datatype Tally = Tally(made: nat, answered: nat, swallowed: nat)

  /** The three counts over a run. */
  ghost function TallyOf(w: World, es: seq<Event>, p: Pid): Tally
    requires KnownAll(w, es)
    decreases |es|
  {
    if es == [] || w.procs.order == [] || Handle(w, es[0]).1 == TracerExits then Tally(0, 0, 0)
    else
      var rest := TallyOf(Handle(w, es[0]).0, es[1..], p);
      Tally(Made(w, es[0], p) + rest.made,
            Answers(w, es[0], p) + rest.answered,
            Swallows(w, es[0], p) + rest.swallowed)
  }

  lemma EventTally(w: World, e: Event, p: Pid)
    requires PhaseInv(w) && Legal(w, e) && Handle(w, e).1 == Continues
    ensures Made(w, e, p) == Answers(w, e, p) + Swallows(w, e, p)
  {
    hide Handle; hide PhaseInv; hide LoudPath; hide NextStop;
    if e.SyscallStop? && e.pid == p {
      AnsweredOnce(w, p, e.now, e.after);
    }
  }

  lemma {:induction false} RunTally(w: World, es: seq<Event>, p: Pid)
    requires PhaseInv(w) && LegalRun(w, es)
    ensures KnownAll(w, es)
    ensures TallyOf(w, es, p).made == TallyOf(w, es, p).answered + TallyOf(w, es, p).swallowed
    decreases |es|
  {
    hide Handle; hide PhaseInv; hide Legal; hide Made; hide Answers; hide Swallows;
    LegalIsKnown(w, es);
    if es != [] && Handle(w, es[0]).1 == Continues {
      EventTally(w, es[0], p);
      EventKeeps(w, es[0]);
      RunTally(Handle(w, es[0]).0, es[1..], p);
    }
  }

  /** In every run the tracer answers all emulated calls of a process if and only
      if no open call of the process returns with its path turned into a random
      device right before one of them. */
  lemma {:induction false} AllAnswered(w: World, es: seq<Event>, p: Pid)
    requires PhaseInv(w) && LegalRun(w, es)
    ensures KnownAll(w, es)
    ensures TallyOf(w, es, p).made == TallyOf(w, es, p).answered <==> NoneSwallowed(w, es, p)
  {
    hide LegalRun; hide PhaseInv; hide KnownAll; hide NoneSwallowed; hide TallyOf;
    RunTally(w, es, p);
    SwallowedNone(w, es, p);
  }

  /** No event of the run swallows an emulated call of `p`. */
  ghost predicate NoneSwallowed(w: World, es: seq<Event>, p: Pid)
    requires KnownAll(w, es)
    decreases |es|
  {
    es == [] || w.procs.order == [] || Handle(w, es[0]).1 == TracerExits
    || (&& !(es[0].SyscallStop? && es[0].pid == p
             && RunsOn(AtSyscall(w.tracees[p], es[0].now)) && Emulated(es[0].after.regs.origRax))
        && NoneSwallowed(Handle(w, es[0]).0, es[1..], p))
  }

  lemma {:induction false} SwallowedNone(w: World, es: seq<Event>, p: Pid)
    requires KnownAll(w, es)
    ensures TallyOf(w, es, p).swallowed == 0 <==> NoneSwallowed(w, es, p)
    decreases |es|
  {
    hide Handle; hide Known; hide Made; hide Answers; hide RunsOn;
    if es != [] && w.procs.order != [] && Handle(w, es[0]).1 == Continues {
      SwallowedNone(Handle(w, es[0]).0, es[1..], p);
    }
  }
}

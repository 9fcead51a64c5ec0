/** Two runs from the tracer's start in which a process has the same history and
    does feel another: process 2 opens a file whose name is eight bytes 0xff, and
    the tracer exits before, or only after, it has answered process 1. */
module ExitExample {
  import opened Bits
  import opened Memory
  import opened CString
  import opened Syscalls
  import opened Events
  import opened Phases
  import opened Scheduling
  import opened Exits
  import opened ForkStart
  import opened LateOpenExample

  const ONES: seq<byte> := [0xff, 0xff, 0xff, 0xff, 0xff, 0xff, 0xff, 0xff]

  /** Process 1 asks for sixteen random bytes, in the buffer of the path. */
  function Asks(q: Mem, after: Next): Event { SyscallStop(1, Next(Regs(NR_GETRANDOM, 0, PATH, 16, SP), q), after) }

  function OpensOnes(base: Mem, after: Next): Event { SyscallStop(2, Next(OPENAT, WithPath(base, ONES)), after) }

  lemma {:induction false} AsksIsAnswerable(t: Tracee, base: Mem)
    requires t.regs == Regs(NR_GETRANDOM, 0, PATH, 16, SP) && t.mem == WithPath(base, DEV_NULL)
    ensures Answerable(t)
  {
    hide Store;
  }

  lemma {:induction false} OnesUnreadable(t: Tracee, base: Mem)
    requires t.regs == OPENAT && t.mem == WithPath(base, ONES)
    ensures !PathReadable(t)
  {
    hide Store; hide CStr; hide GoodWord;
    assert forall j :: PATH <= j < PATH + 8 ==> j in t.mem && t.mem[j] == ONES[j - PATH];
    OnesBad(t.mem, PATH + 8 * 0);
  }

  function First2(q: Mem, after: Next): seq<Event> { [CloneStop(after)] + [SyscallStop(1, Next(CLONE, q), after)] }

  /** Any run may follow once both processes run. */
  lemma {:induction false} BothRun(base: Mem, q: Mem, after: Next, es: seq<Event>)
    requires LegalRun(Both(Exit, CLONE, q, q, [NR_EXECVE, NR_CLONE]), es)
    ensures PhaseInv(Both(Exit, CLONE, q, q, [NR_EXECVE, NR_CLONE]))
    ensures KnownAll(Both(Exit, CLONE, q, q, [NR_EXECVE, NR_CLONE]), es)
    ensures var run := Opening(base, CLONE, q, after) + (First2(q, after) + es);
            && LegalRun(Start(base), run) && KnownAll(Start(base), run)
            && Loop(Start(base), run) == Loop(Both(Exit, CLONE, q, q, [NR_EXECVE, NR_CLONE]), es)
  {
    hide Handle; hide PhaseInv; hide Legal; hide LegalRun; hide KnownAll; hide Loop; hide QuietPath; hide Opening; hide Both; hide Forked;
    hide Forking;
    var w3 := Both(Event, CLONE, q, q, [NR_EXECVE, NR_CLONE]);
    var e3, e4 := CloneStop(after), SyscallStop(1, Next(CLONE, q), after);
    OpeningForks(base, CLONE, q, after);
    ChildMade(CLONE, q);
    Cloned(q, after);
    Passes(Event, CLONE, q, q, [NR_EXECVE, NR_CLONE], Next(CLONE, q), after, Alive(Exit, CLONE, q, [NR_EXECVE, NR_CLONE]));
    BothNonempty(Event, CLONE, q, q, [NR_EXECVE, NR_CLONE]);
    ForkingNonempty(Forked(CLONE, q), 1, 2);
    RunCons(w3, e4, es);
    RunCons(Forked(CLONE, q), e3, [e4] + es);
    assert [e3] + ([e4] + es) == First2(q, after) + es;
    Opened(base, CLONE, q, after, First2(q, after) + es);
  }

  lemma {:induction false} BothReady(base: Mem, q: Mem, after: Next)
    requires q == WithPath(base, DEV_NULL) && PhaseInv(Both(Exit, CLONE, q, q, [NR_EXECVE, NR_CLONE]))
    ensures var w := Both(Exit, CLONE, q, q, [NR_EXECVE, NR_CLONE]);
            && Legal(w, Asks(q, after)) && Legal(w, OpensOnes(base, after))
            && (var t := AtSyscall(w.tracees[1], Asks(q, after).now);
                t.phase == Entry && Emulated(t.regs.origRax) && Answerable(t))
            && (var t := AtSyscall(w.tracees[2], OpensOnes(base, after).now);
                Opens(t.regs.origRax) && !PathReadable(t))
  {
    hide PhaseInv; hide Answerable; hide PathReadable; hide WithPath;
    var w := Both(Exit, CLONE, q, q, [NR_EXECVE, NR_CLONE]);
    AsksIsAnswerable(AtSyscall(w.tracees[1], Asks(q, after).now), base);
    OnesUnreadable(AtSyscall(w.tracees[2], OpensOnes(base, after).now), base);
  }

  /** The history of process 1 is the same in both runs.  In one it ends with its
      getrandom answered, in the other it is still where its clone left it. */
  lemma {:induction false} ExampleFelt(base: Mem, after: Next)
    ensures var q := WithPath(base, DEV_NULL);
            var before := Opening(base, CLONE, q, after) + First2(q, after);
            var run, run' := before + [Asks(q, after), OpensOnes(base, after)], before + [OpensOnes(base, after), Asks(q, after)];
            && LegalRun(Start(base), run) && KnownAll(Start(base), run)
            && LegalRun(Start(base), run') && KnownAll(Start(base), run')
            && History(run, 1) == History(run', 1)
            && (var l := View(Loop(Start(base), run).0, 1);
                l.tracee.Just? && l.tracee.value.phase == Exit && l.tracee.value.regs.origRax == MINUS_ONE)
            && View(Loop(Start(base), run').0, 1).tracee == Just(Alive(Exit, CLONE, q, [NR_EXECVE, NR_CLONE]))
  {
    hide Handle; hide PhaseInv; hide Legal; hide LegalRun; hide KnownAll; hide Loop; hide Opening; hide Seen; hide History;
    hide Answerable; hide PathReadable; hide WithPath; hide NextStop;
    var q := WithPath(base, DEV_NULL);
    var w := Both(Exit, CLONE, q, q, [NR_EXECVE, NR_CLONE]);
    var o, f := Opening(base, CLONE, q, after), First2(q, after);
    var ep, eq := Asks(q, after), OpensOnes(base, after);
    LegalNone(w);
    BothRun(base, q, after, []);
    BothReady(base, q, after);
    ExitFelt(w, 1, ep.now, ep.after, 2, eq.now, eq.after);
    BothRun(base, q, after, [ep, eq]);
    BothRun(base, q, after, [eq, ep]);
    assert o + (f + [ep, eq]) == (o + f) + [ep, eq] && o + (f + [eq, ep]) == (o + f) + [eq, ep];
    HistoryConcat(o + f, [ep, eq], 1);
    HistoryConcat(o + f, [eq, ep], 1);
  }

  lemma {:induction false} LegalNone(w: World)
    ensures LegalRun(w, [])
  {
  }
}

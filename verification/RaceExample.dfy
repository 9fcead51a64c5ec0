/** Runs from the tracer's start in which the registration race is not confluent.
    Process 1 has pushed words that read like the stack of a new program, and
    forks; its child has the same stack. */
module RaceExample {
  import opened Memory
  import opened Vdso
  import opened Syscalls
  import opened Events
  import opened Phases
  import opened Scheduling
  import opened ForkStart

  // The stack pointer at the fork.
  const LOW: word64 := 0x7ffb_0000_0000
  const ARGUMENT: word64 := 0x7ffb_0000_1000
  const FORK: Regs := Regs(NR_FORK, 0, 0, 0, LOW)

  /** Any memory, with a new program's stack pushed onto it, its only argument `arg`. */
  function Pushed(m: Mem, arg: word64): Mem {
    Store(m, LOW, BytesOf(Layout(1, [arg], [], AUX, 0)))
  }

  lemma {:induction false} PushedStack(m: Mem, arg: word64)
    requires arg != 0
    ensures StackOf(Tracee(First, Stopped, FORK, Pushed(m, arg), Forever, []), 1, [arg], [], AUX, 0)
    ensures Clean([arg], [], AUX) <==> arg != MINUS_ONE
    ensures VdsoIndex(AUX) < |AUX|
  {
    hide HasWords; hide Layout; hide Store; hide BytesOf;
    assert AUX[0].key == AT_SYSINFO_EHDR;
    assert arg == MINUS_ONE ==> [arg][0] == MINUS_ONE;
    StoredWords(m, LOW, Layout(1, [arg], [], AUX, 0));
  }

  /** From the tracer's start, over any memories, one fork ends in two different worlds. */
  lemma {:induction false} ExampleDiverges(m0: Mem, base: Mem, after: Next, childAfter: Next)
    ensures var opening := Opening(m0, FORK, Pushed(base, ARGUMENT), after);
            var run, run' := opening + ParentFirst(1, 2, after), opening + ChildFirst(1, 2, after, childAfter);
            && LegalRun(Start(m0), run) && KnownAll(Start(m0), run) && Loop(Start(m0), run).1 == Continues
            && LegalRun(Start(m0), run') && KnownAll(Start(m0), run') && Loop(Start(m0), run').1 == Continues
            && Loop(Start(m0), run).0 != Loop(Start(m0), run').0
  {
    hide Loop; hide KnownAll; hide LegalRun; hide StackOf; hide Clean; hide VdsoIndex; hide Pushed; hide Opening; hide Forking;
    hide VdsoRemoved;
    var m := Pushed(base, ARGUMENT);
    PushedStack(base, ARGUMENT);
    BothOpened(m0, m, after, childAfter);
    RaceDiverges(Forked(FORK, m), 1, 2, after, childAfter, 1, [ARGUMENT], [], AUX, 0);
    RaceByScan(Forked(FORK, m), 1, 2, after, childAfter);
    VdsoExact(Tracee(First, Stopped, FORK, m, Forever, []), 1, [ARGUMENT], [], AUX, 0);
  }

  /** With -1 among the words, the child-first order makes the tracer exit and the other does not. */
  lemma {:induction false} ExampleExits(m0: Mem, base: Mem, after: Next, childAfter: Next)
    ensures var opening := Opening(m0, FORK, Pushed(base, MINUS_ONE), after);
            var run, run' := opening + ParentFirst(1, 2, after), opening + ChildFirst(1, 2, after, childAfter);
            && LegalRun(Start(m0), run) && KnownAll(Start(m0), run) && Loop(Start(m0), run).1 == Continues
            && LegalRun(Start(m0), run') && KnownAll(Start(m0), run') && Loop(Start(m0), run').1 == TracerExits
  {
    hide Loop; hide KnownAll; hide LegalRun; hide StackOf; hide Clean; hide VdsoIndex; hide Pushed; hide Opening; hide Forking;
    hide VdsoRemoved;
    var m := Pushed(base, MINUS_ONE);
    PushedStack(base, MINUS_ONE);
    BothOpened(m0, m, after, childAfter);
    RaceByScan(Forked(FORK, m), 1, 2, after, childAfter);
    VdsoExact(Tracee(First, Stopped, FORK, m, Forever, []), 1, [MINUS_ONE], [], AUX, 0);
  }

  lemma {:induction false} BothOpened(m0: Mem, m: Mem, after: Next, childAfter: Next)
    ensures var w := Forked(FORK, m);
            var opening := Opening(m0, FORK, m, after);
            var one, two := ParentFirst(1, 2, after), ChildFirst(1, 2, after, childAfter);
            && Forking(w, 1, 2) && KnownAll(w, one) && KnownAll(w, two)
            && LegalRun(Start(m0), opening + one) && KnownAll(Start(m0), opening + one)
            && Loop(Start(m0), opening + one) == Loop(w, one)
            && LegalRun(Start(m0), opening + two) && KnownAll(Start(m0), opening + two)
            && Loop(Start(m0), opening + two) == Loop(w, two)
  {
    hide Loop; hide KnownAll; hide LegalRun; hide Opening; hide Forking; hide Legal; hide Handle;
    OpeningForks(m0, FORK, m, after);
    ChildMade(FORK, m);
    RaceLegal(Forked(FORK, m), 1, 2, after, childAfter);
    Opened(m0, FORK, m, after, ParentFirst(1, 2, after));
    Opened(m0, FORK, m, after, ChildFirst(1, 2, after, childAfter));
  }
}

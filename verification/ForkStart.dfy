/** The first steps of a small run: the tracer's first child executes a program,
    enters a fork call, and the kernel makes its child, with the same registers
    and memory. */
module ForkStart {
  import opened Bits
  import opened Memory
  import opened Vdso
  import opened Registry
  import opened Syscalls
  import opened Events
  import opened Phases
  import opened Scheduling

  const NR_KILL: word64 := 62

  // The stack pointer of the new program, and what lies there.
  const SP: word64 := 0x7ffc_0000_0000
  const ARGV: seq<word64> := [0x7ffc_0000_1000]
  const AUX: seq<Aux> := [Aux(AT_SYSINFO_EHDR, 0x7ffd_0000_0000)]

  const EXECVE: Regs := Regs(NR_EXECVE, 0, 0, 0, SP)

  // ---------- Words in memory ----------

  /** The words, each in eight bytes. */
  function BytesOf(ws: seq<word64>): (s: seq<byte>)
    ensures |s| == 8 * |ws|
  {
    if ws == [] then [] else ToLe(ws[0], 8) + BytesOf(ws[1..])
  }

  lemma {:induction false} BytesAt(ws: seq<word64>, i: nat)
    requires i < |ws|
    ensures BytesOf(ws)[8 * i..8 * i + 8] == ToLe(ws[i], 8)
  {
    hide ToLe;
    if i > 0 {
      BytesAt(ws[1..], i - 1);
      assert BytesOf(ws)[8 * i..8 * i + 8] == BytesOf(ws[1..])[8 * (i - 1)..8 * (i - 1) + 8];
    }
  }

  lemma {:induction false} StoredWord(m0: Mem, a: int, ws: seq<word64>, i: nat)
    requires i < |ws|
    ensures var m := Store(m0, a, BytesOf(ws));
            WordMapped(m, a + 8 * i) && WordOf(WordBytes(m, a + 8 * i)) == ws[i]
  {
    hide ToLe; hide BytesOf; hide Store; hide FromLe;
    BytesAt(ws, i);
    var m := Store(m0, a, BytesOf(ws));
    assert WordBytes(m, a + 8 * i) == BytesOf(ws)[8 * i..8 * i + 8];
    Pow2Word64();
    LeRoundTripWord(ws[i], 8);
  }

  lemma {:induction false} StoredWords(m0: Mem, a: int, ws: seq<word64>)
    ensures HasWords(Store(m0, a, BytesOf(ws)), a, ws)
  {
    hide WordMapped; hide WordOf; hide WordBytes; hide Store; hide BytesOf;
    var m := Store(m0, a, BytesOf(ws));
    forall i | 0 <= i < |ws|
      ensures WordMapped(m, a + 8 * i) && WordOf(WordBytes(m, a + 8 * i)) == ws[i]
    {
      StoredWord(m0, a, ws, i);
    }
  }

  // ---------- The worlds of the run ----------

  function Alive(phase: Phase, regs: Regs, m: Mem, ran: seq<word64>): Tracee {
    Tracee(phase, Running, regs, m, Forever, ran)
  }

  /** Process 1 alone, registered. */
  function Solo(t: Tracee): World {
    World(Registered(NO_PROCS, 1), map[1 := t])
  }

  /** The tracer's start: process 1 was let run from the stop it sent itself. */
  function Start(m0: Mem): World {
    Solo(Alive(First, Regs(NR_KILL, 0, 0, 0, SP), m0, []))
  }

  /** The memory of a new program, over any memory. */
  function Image(m: Mem): Mem {
    Store(m, SP, BytesOf(Layout(1, ARGV, [], AUX, 0)))
  }

  /** The same after its vDSO was removed. */
  function Cleaned(m: Mem): Mem {
    PatchedMem(Image(m), SP, ARGV, [], AUX)
  }

  function Called(regs: Regs, m: Mem): World {
    Solo(Alive(Entry, regs, m, [NR_EXECVE]))
  }

  function Forked(regs: Regs, m: Mem): World {
    World(Registered(NO_PROCS, 1),
          map[1 := Alive(Entry, regs, m, [NR_EXECVE]), 2 := Tracee(First, Pending, regs, m, Forever, [])])
  }

  function ExecEntry(m0: Mem, after: Next): Event { SyscallStop(1, Next(EXECVE, m0), after) }
  function ExecDone(m0: Mem): Event { ExecStop(1, Next(EXECVE, Image(m0))) }
  function ExecExit(m0: Mem, after: Next): Event { SyscallStop(1, Next(EXECVE, Cleaned(m0)), after) }
  function CallEntry(regs: Regs, m: Mem, after: Next): Event { SyscallStop(1, Next(regs, m), after) }

  /** Process 1 executes a program, runs it up to the entry of a call, and process 2 is made a copy of it. */
  function Opening(m0: Mem, regs: Regs, m: Mem, after: Next): seq<Event> {
    [ExecEntry(m0, after), ExecDone(m0), ExecExit(m0, after), CallEntry(regs, m, after), Spawn(1, 2, regs, m)]
  }

  // ---------- Step by step ----------

  lemma StartIsSettled(m0: Mem)
    ensures PhaseInv(Start(m0))
  {
    StartSettled(1, Start(m0).tracees[1]);
  }

  lemma SoloNonempty(t: Tracee)
    ensures Solo(t).procs.order == [1]
  {
  }

  /** A stop of process 1 that the tracer lets pass. */
  lemma SoloPasses(t: Tracee, now: Next, after: Next)
    requires PhaseInv(Solo(t)) && t.run == Running
    requires var u := AtSyscall(t, now); !Emulated(u.regs.origRax) && !Opens(u.regs.origRax)
    ensures Legal(Solo(t), SyscallStop(1, now, after))
    ensures Handle(Solo(t), SyscallStop(1, now, after)) == (Solo(LetRun(AtSyscall(t, now))), Continues)
    ensures PhaseInv(Solo(LetRun(AtSyscall(t, now))))
  {
    hide PhaseInv; hide Handle; hide Registered; hide NextStop; hide LetRun;
    QuietStop(Solo(t), 1, now, after);
    EventKeeps(Solo(t), SyscallStop(1, now, after));
    assert map[1 := t][1 := LetRun(AtSyscall(t, now))] == map[1 := LetRun(AtSyscall(t, now))];
  }

  lemma ImageStack(m0: Mem, ran: seq<word64>)
    ensures var t := Tracee(Event, Stopped, EXECVE, Image(m0), Forever, ran);
            VdsoRemoved(t) == (t.(mem := Cleaned(m0)), Done)
  {
    hide HasWords; hide Layout; hide Store; hide BytesOf; hide VdsoRemoved;
    StoredWords(m0, SP, Layout(1, ARGV, [], AUX, 0));
    VdsoExact(Tracee(Event, Stopped, EXECVE, Image(m0), Forever, ran), 1, ARGV, [], AUX, 0);
  }

  lemma Executed(m0: Mem)
    requires PhaseInv(Solo(Alive(Entry, EXECVE, m0, [])))
    ensures Legal(Solo(Alive(Entry, EXECVE, m0, [])), ExecDone(m0))
    ensures Handle(Solo(Alive(Entry, EXECVE, m0, [])), ExecDone(m0)) == (Solo(Alive(Event, EXECVE, Cleaned(m0), [NR_EXECVE])), Continues)
    ensures PhaseInv(Solo(Alive(Event, EXECVE, Cleaned(m0), [NR_EXECVE])))
  {
    hide PhaseInv; hide Registered; hide VdsoRemoved; hide Image; hide Cleaned;
    var t, u := Alive(Entry, EXECVE, m0, []), Alive(Event, EXECVE, Cleaned(m0), [NR_EXECVE]);
    assert Execed(t, Next(EXECVE, Image(m0))) == Tracee(Event, Stopped, EXECVE, Image(m0), Forever, [NR_EXECVE]);
    ImageStack(m0, [NR_EXECVE]);
    EventKeeps(Solo(t), ExecDone(m0));
    assert map[1 := t][1 := u] == map[1 := u];
  }

  lemma ChildMade(regs: Regs, m: Mem)
    requires ForkCall(regs.origRax) && PhaseInv(Called(regs, m))
    ensures Legal(Called(regs, m), Spawn(1, 2, regs, m))
    ensures Handle(Called(regs, m), Spawn(1, 2, regs, m)) == (Forked(regs, m), Continues)
    ensures PhaseInv(Forked(regs, m)) && Forking(Forked(regs, m), 1, 2)
  {
    hide PhaseInv;
    EventKeeps(Called(regs, m), Spawn(1, 2, regs, m));
    assert map[1 := Alive(Entry, regs, m, [NR_EXECVE])][2 := Tracee(First, Pending, regs, m, Forever, [])] == Forked(regs, m).tracees;
  }

  lemma OpeningForks(m0: Mem, regs: Regs, m: Mem, after: Next)
    requires ForkCall(regs.origRax)
    ensures Legal(Start(m0), ExecEntry(m0, after))
    ensures Handle(Start(m0), ExecEntry(m0, after)) == (Solo(Alive(Entry, EXECVE, m0, [])), Continues)
    ensures Legal(Solo(Alive(Entry, EXECVE, m0, [])), ExecDone(m0))
    ensures Handle(Solo(Alive(Entry, EXECVE, m0, [])), ExecDone(m0)) == (Solo(Alive(Event, EXECVE, Cleaned(m0), [NR_EXECVE])), Continues)
    ensures Legal(Solo(Alive(Event, EXECVE, Cleaned(m0), [NR_EXECVE])), ExecExit(m0, after))
    ensures Handle(Solo(Alive(Event, EXECVE, Cleaned(m0), [NR_EXECVE])), ExecExit(m0, after))
         == (Solo(Alive(Exit, EXECVE, Cleaned(m0), [NR_EXECVE])), Continues)
    ensures Legal(Solo(Alive(Exit, EXECVE, Cleaned(m0), [NR_EXECVE])), CallEntry(regs, m, after))
    ensures Handle(Solo(Alive(Exit, EXECVE, Cleaned(m0), [NR_EXECVE])), CallEntry(regs, m, after)) == (Called(regs, m), Continues)
    ensures PhaseInv(Called(regs, m))
  {
    hide PhaseInv; hide Handle; hide Legal; hide Solo; hide Cleaned;
    StartIsSettled(m0);
    SoloPasses(Alive(First, Regs(NR_KILL, 0, 0, 0, SP), m0, []), Next(EXECVE, m0), after);
    Executed(m0);
    SoloPasses(Alive(Event, EXECVE, Cleaned(m0), [NR_EXECVE]), Next(EXECVE, Cleaned(m0)), after);
    SoloPasses(Alive(Exit, EXECVE, Cleaned(m0), [NR_EXECVE]), Next(regs, m), after);
  }

  /** The opening is a legal run that leads to `Forked`; any run from there may follow it. */
  lemma {:induction false} Opened(m0: Mem, regs: Regs, m: Mem, after: Next, es: seq<Event>)
    requires ForkCall(regs.origRax) && LegalRun(Forked(regs, m), es)
    ensures Forking(Forked(regs, m), 1, 2)
    ensures LegalRun(Start(m0), Opening(m0, regs, m, after) + es) && KnownAll(Start(m0), Opening(m0, regs, m, after) + es)
    ensures KnownAll(Forked(regs, m), es)
    ensures Loop(Start(m0), Opening(m0, regs, m, after) + es) == Loop(Forked(regs, m), es)
  {
    hide PhaseInv; hide Handle; hide Legal; hide LegalRun; hide KnownAll; hide Loop; hide Forked; hide Forking; hide Solo;
    hide ExecEntry; hide ExecDone; hide ExecExit; hide CallEntry; hide Cleaned;
    var e1, e2, e3 := ExecEntry(m0, after), ExecDone(m0), ExecExit(m0, after);
    var e4, e5 := CallEntry(regs, m, after), Spawn(1, 2, regs, m);
    var t1, t2 := Alive(Entry, EXECVE, m0, []), Alive(Event, EXECVE, Cleaned(m0), [NR_EXECVE]);
    var t3, t4 := Alive(Exit, EXECVE, Cleaned(m0), [NR_EXECVE]), Alive(Entry, regs, m, [NR_EXECVE]);
    OpeningForks(m0, regs, m, after);
    ChildMade(regs, m);
    SoloNonempty(t1);
    SoloNonempty(t2);
    SoloNonempty(t3);
    SoloNonempty(t4);
    SoloNonempty(Alive(First, Regs(NR_KILL, 0, 0, 0, SP), m0, []));
    RunCons(Solo(t4), e5, es);
    RunCons(Solo(t3), e4, [e5] + es);
    RunCons(Solo(t2), e3, [e4] + ([e5] + es));
    RunCons(Solo(t1), e2, [e3] + ([e4] + ([e5] + es)));
    RunCons(Start(m0), e1, [e2] + ([e3] + ([e4] + ([e5] + es))));
    assert Opening(m0, regs, m, after) + es == [e1] + ([e2] + ([e3] + ([e4] + ([e5] + es))));
  }
}

/** A run from the tracer's start in which an emulated call is never answered.
    Process 1 starts a thread and opens "/dev/null"; while the kernel is busy with
    that call, the thread overwrites the path with "/dev/random".  The getrandom
    that process 1 makes next is lost. */
module LateOpenExample {
  import opened Bits
  import opened Memory
  import opened CString
  import opened Registry
  import opened Syscalls
  import opened Events
  import opened Phases
  import opened Answering
  import opened Scheduling
  import opened ForkStart

  const PATH: word64 := 0x7ffc_0000_2000
  const BUFFER: word64 := 0x7ffc_0000_3000

  const CLONE: Regs := Regs(NR_CLONE, 0, 0, 0, SP)
  const OPENAT: Regs := Regs(NR_OPENAT, 0, 0, PATH, SP)
  const GETRANDOM: Regs := Regs(NR_GETRANDOM, 0, BUFFER, 16, SP)

  // "/dev/null"
  const DEV_NULL: seq<byte> := [47, 100, 101, 118, 47, 110, 117, 108, 108]

  /** Any memory, with a path of less than sixteen bytes in a buffer of sixteen. */
  function WithPath(m: Mem, path: seq<byte>): Mem {
    Store(m, PATH, path + seq(if |path| < 16 then 16 - |path| else 0, _ => 0))
  }

  /** A word that does not begin with 0xff does not read as -1. */
  lemma {:induction false} LowByte(s: seq<byte>)
    requires |s| == 8 && s[0] != 0xff
    ensures WordOf(s) != MINUS_ONE
  {
    var r := FromLe(s[1..]);
    assert (s[0] + 0x100 * r) % 0x100 == s[0];
  }

  lemma {:induction false} PathReads(t: Tracee, m: Mem, path: seq<byte>)
    requires t.life == Forever && t.regs.rsi == PATH && t.mem == WithPath(m, path)
    requires 8 < |path| < 16 && forall k :: 0 <= k < |path| ==> 0 < path[k] < 0xff
    ensures StringRead(t, PATH).1 == Done && CStr(t.mem, PATH, MAX_BUFFER_SIZE - 1) == path
  {
    hide Store; hide CStr; hide StringRead; hide WordOf;
    assert IsString(t.mem, PATH, path);
    CStrOfString(t.mem, PATH, MAX_BUFFER_SIZE - 1, path);
    LowByte(WordBytes(t.mem, PATH));
    LowByte(WordBytes(t.mem, PATH + 8));
    assert WordsOf(t.mem, PATH) == 2;
    forall k | 0 <= k < 2
      ensures GoodWord(t.mem, PATH + 8 * k)
    {
      assert k == 0 || k == 1;
    }
    StringReadExact(t, PATH);
  }

  lemma {:induction false} QuietAndLoud(t: Tracee, m: Mem)
    requires t.life == Forever && t.regs.rsi == PATH
    ensures t.mem == WithPath(m, DEV_NULL) ==> QuietPath(t)
    ensures t.mem == WithPath(m, DEV_RANDOM) ==> LoudPath(t)
  {
    hide CStr; hide StringRead; hide WithPath;
    if t.mem == WithPath(m, DEV_NULL) {
      PathReads(t, m, DEV_NULL);
    }
    if t.mem == WithPath(m, DEV_RANDOM) {
      PathReads(t, m, DEV_RANDOM);
    }
  }

  /** After the clone: both threads are tracked, and thread 1 is in phase `phase` of the call `regs`. */
  function Both(phase: Phase, regs: Regs, m: Mem, m2: Mem, ran: seq<word64>): World {
    World(Registered(Registered(NO_PROCS, 1), 2),
          map[1 := Alive(phase, regs, m, ran), 2 := Alive(First, CLONE, m2, [])])
  }

  function CloneStop(after: Next): Event { ForkStop(1, 2, after) }
  function CloneExit(m: Mem, after: Next): Event { SyscallStop(1, Next(CLONE, m), after) }
  function OpenEntry(m: Mem, after: Next): Event { SyscallStop(1, Next(OPENAT, m), after) }

  /** At the exit the kernel has put a file descriptor into rax; thread 1 goes on to getrandom. */
  function OpenExitStop(m: Mem): Event { SyscallStop(1, Next(OPENAT.(rax := 3), m), Next(GETRANDOM, m)) }

  function Rest(m: Mem, after: Next): seq<Event> {
    [CloneStop(after)] + ([CloneExit(WithPath(m, DEV_NULL), after)]
      + ([OpenEntry(WithPath(m, DEV_NULL), after)] + [OpenExitStop(WithPath(m, DEV_RANDOM))]))
  }

  lemma {:induction false} Cloned(q: Mem, after: Next)
    requires Forking(Forked(CLONE, q), 1, 2)
    ensures Legal(Forked(CLONE, q), CloneStop(after))
    ensures Handle(Forked(CLONE, q), CloneStop(after)) == (Both(Event, CLONE, q, q, [NR_EXECVE, NR_CLONE]), Continues)
    ensures PhaseInv(Both(Event, CLONE, q, q, [NR_EXECVE, NR_CLONE]))
  {
    hide Handle; hide PhaseInv; hide Registered;
    var w := Forked(CLONE, q);
    AfterParentFirst(w, 1, 2, after);
    EventKeeps(w, CloneStop(after));
    assert LetRun(AtEvent(w.tracees[1])) == Alive(Event, CLONE, q, [NR_EXECVE, NR_CLONE]);
    assert LetRun(w.tracees[2]) == Alive(First, CLONE, q, []);
    assert w.tracees[1 := Alive(Event, CLONE, q, [NR_EXECVE, NR_CLONE])][2 := Alive(First, CLONE, q, [])]
        == Both(Event, CLONE, q, q, [NR_EXECVE, NR_CLONE]).tracees;
  }

  /** A stop of thread 1 that the tracer lets pass. */
  lemma {:induction false} Passes(phase: Phase, regs: Regs, m: Mem, m2: Mem, ran: seq<word64>, now: Next, after: Next, u: Tracee)
    requires PhaseInv(Both(phase, regs, m, m2, ran)) && phase != First
    requires var t := AtSyscall(Alive(phase, regs, m, ran), now);
             && !Emulated(t.regs.origRax) && (Opens(t.regs.origRax) ==> QuietPath(t))
             && u == LetRun(t)
    ensures Legal(Both(phase, regs, m, m2, ran), SyscallStop(1, now, after))
    ensures u == Alive(u.phase, u.regs, u.mem, u.ran)
    ensures Handle(Both(phase, regs, m, m2, ran), SyscallStop(1, now, after)) == (Both(u.phase, u.regs, u.mem, m2, u.ran), Continues)
    ensures PhaseInv(Both(u.phase, u.regs, u.mem, m2, u.ran))
  {
    hide Handle; hide PhaseInv; hide QuietPath; hide Registered;
    var w := Both(phase, regs, m, m2, ran);
    QuietStop(w, 1, now, after);
    EventKeeps(w, SyscallStop(1, now, after));
    assert w.tracees[1 := u] == Both(u.phase, u.regs, u.mem, m2, u.ran).tracees;
  }

  lemma {:induction false} Swallowed(q: Mem, m: Mem, ran: seq<word64>)
    requires PhaseInv(Both(Entry, OPENAT, q, q, ran))
    ensures var w := Both(Entry, OPENAT, q, q, ran);
            var l := WithPath(m, DEV_RANDOM);
            && Legal(w, OpenExitStop(l))
            && Handle(w, OpenExitStop(l)) == (Both(Entry, OPENAT, l, q, ran + [NR_OPENAT]), Continues)
            && RunsOn(AtSyscall(w.tracees[1], Next(OPENAT.(rax := 3), l)))
  {
    hide Handle; hide PhaseInv; hide LoudPath; hide Registered; hide WithPath;
    var w := Both(Entry, OPENAT, q, q, ran);
    var l := WithPath(m, DEV_RANDOM);
    QuietAndLoud(AtSyscall(w.tracees[1], Next(OPENAT.(rax := 3), l)), m);
    CallSwallowed(w, 1, Next(OPENAT.(rax := 3), l), Next(GETRANDOM, l));
    assert OPENAT.(rax := STDIN) == OPENAT;
    assert w.tracees[1 := Alive(Entry, OPENAT, l, ran + [NR_OPENAT])] == Both(Entry, OPENAT, l, q, ran + [NR_OPENAT]).tracees;
  }

  lemma {:induction false} OneEvent(w: World, e: Event)
    requires w.procs.order != [] && Legal(w, e) && Handle(w, e).1 == Continues
    ensures LegalRun(w, [e]) && KnownAll(w, [e]) && Loop(w, [e]) == Handle(w, e)
  {
    hide Handle; hide Known;
    LegalOne(w, e);
    LoopOne(w, e);
  }

  lemma {:induction false} BothNonempty(phase: Phase, regs: Regs, m: Mem, m2: Mem, ran: seq<word64>)
    ensures Both(phase, regs, m, m2, ran).procs.order != []
  {
  }

  /** From the clone event on, thread 1 ends inside its openat again, with the
      registers and memory of its getrandom lost to it. */
  lemma {:induction false} RestRuns(q: Mem, after: Next, base: Mem)
    requires q == WithPath(base, DEV_NULL) && Forking(Forked(CLONE, q), 1, 2)
    ensures LegalRun(Forked(CLONE, q), Rest(base, after)) && KnownAll(Forked(CLONE, q), Rest(base, after))
    ensures Loop(Forked(CLONE, q), Rest(base, after)) ==
              (Both(Entry, OPENAT, WithPath(base, DEV_RANDOM), q, [NR_EXECVE, NR_CLONE, NR_OPENAT]), Continues)
    ensures !NoneSwallowed(Forked(CLONE, q), Rest(base, after), 1)
  {
    hide Handle; hide PhaseInv; hide Legal; hide LegalRun; hide KnownAll; hide Loop; hide WithPath; hide QuietPath; hide LoudPath;
    hide NoneSwallowed; hide Both; hide RunsOn; hide Forked;
    var l := WithPath(base, DEV_RANDOM);
    var w3, w4, w5 := Both(Event, CLONE, q, q, [NR_EXECVE, NR_CLONE]), Both(Exit, CLONE, q, q, [NR_EXECVE, NR_CLONE]), Both(Entry, OPENAT, q, q, [NR_EXECVE, NR_CLONE]);
    var e3, e4, e5, e6 := CloneStop(after), CloneExit(q, after), OpenEntry(q, after), OpenExitStop(l);
    assert Rest(base, after) == [e3] + ([e4] + ([e5] + [e6]));
    Cloned(q, after);
    Passes(Event, CLONE, q, q, [NR_EXECVE, NR_CLONE], Next(CLONE, q), after, Alive(Exit, CLONE, q, [NR_EXECVE, NR_CLONE]));
    QuietAndLoud(Tracee(Entry, Stopped, OPENAT, q, Forever, [NR_EXECVE, NR_CLONE]), base);
    Passes(Exit, CLONE, q, q, [NR_EXECVE, NR_CLONE], Next(OPENAT, q), after, Alive(Entry, OPENAT, q, [NR_EXECVE, NR_CLONE]));
    Swallowed(q, base, [NR_EXECVE, NR_CLONE]);
    BothNonempty(Entry, OPENAT, q, q, [NR_EXECVE, NR_CLONE]);
    BothNonempty(Exit, CLONE, q, q, [NR_EXECVE, NR_CLONE]);
    BothNonempty(Event, CLONE, q, q, [NR_EXECVE, NR_CLONE]);
    ForkingNonempty(Forked(CLONE, q), 1, 2);
    OneEvent(w5, e6);
    assert Loop(w5, [e6]) == (Both(Entry, OPENAT, l, q, [NR_EXECVE, NR_CLONE, NR_OPENAT]), Continues) by {
      assert [NR_EXECVE, NR_CLONE] + [NR_OPENAT] == [NR_EXECVE, NR_CLONE, NR_OPENAT];
    }
    RunCons(w4, e5, [e6]);
    RunCons(w3, e4, [e5] + [e6]);
    RunCons(Forked(CLONE, q), e3, [e4] + ([e5] + [e6]));
    SwallowedHere(w5, e6);
    SwallowedLater(w4, e5, [e6]);
    SwallowedLater(w3, e4, [e5] + [e6]);
    SwallowedLater(Forked(CLONE, q), e3, [e4] + ([e5] + [e6]));
  }

  lemma {:induction false} SwallowedHere(w: World, e: Event)
    requires w.procs.order != [] && KnownAll(w, [e]) && Handle(w, e).1 == Continues
    requires e.SyscallStop? && e.pid == 1 && RunsOn(AtSyscall(w.tracees[1], e.now)) && Emulated(e.after.regs.origRax)
    ensures !NoneSwallowed(w, [e], 1)
  {
    hide Handle; hide RunsOn;
  }

  lemma {:induction false} SwallowedLater(w: World, e: Event, es: seq<Event>)
    requires w.procs.order != [] && KnownAll(w, [e] + es) && Handle(w, e).1 == Continues
    requires KnownAll(Handle(w, e).0, es) && !NoneSwallowed(Handle(w, e).0, es, 1)
    ensures !NoneSwallowed(w, [e] + es, 1)
  {
    hide Handle; hide RunsOn; hide Known;
    assert ([e] + es)[1..] == es;
  }

  /** The whole run, from the tracer's start: thread 1 makes an emulated call that
      is not answered, and the buffer it wanted filled is as it was. */
  lemma {:induction false} ExampleSwallowed(base: Mem, after: Next)
    ensures var q := WithPath(base, DEV_NULL);
            var run := Opening(base, CLONE, q, after) + Rest(base, after);
            && PhaseInv(Start(base)) && LegalRun(Start(base), run) && KnownAll(Start(base), run)
            && Loop(Start(base), run) == (Both(Entry, OPENAT, WithPath(base, DEV_RANDOM), q, [NR_EXECVE, NR_CLONE, NR_OPENAT]), Continues)
            && TallyOf(Start(base), run, 1).made != TallyOf(Start(base), run, 1).answered
  {
    hide Handle; hide PhaseInv; hide Legal; hide LegalRun; hide KnownAll; hide Loop; hide WithPath; hide Rest; hide Both;
    hide NoneSwallowed; hide TallyOf; hide Forked; hide Forking; hide Known; hide Solo; hide Cleaned;
    hide ExecEntry; hide ExecDone; hide ExecExit; hide CallEntry;
    var q := WithPath(base, DEV_NULL);
    var rest := Rest(base, after);
    var e1, e2, e3 := ExecEntry(base, after), ExecDone(base), ExecExit(base, after);
    var e4, e5 := CallEntry(CLONE, q, after), Spawn(1, 2, CLONE, q);
    var t1, t2 := Alive(Entry, EXECVE, base, []), Alive(Event, EXECVE, Cleaned(base), [NR_EXECVE]);
    var t3, t4 := Alive(Exit, EXECVE, Cleaned(base), [NR_EXECVE]), Alive(Entry, CLONE, q, [NR_EXECVE]);
    StartIsSettled(base);
    OpeningForks(base, CLONE, q, after);
    ChildMade(CLONE, q);
    RestRuns(q, after, base);
    Opened(base, CLONE, q, after, rest);
    SwallowedAfter(Solo(t4), e5, rest, t4);
    SwallowedAfter(Solo(t3), e4, [e5] + rest, t3);
    SwallowedAfter(Solo(t2), e3, [e4] + ([e5] + rest), t2);
    SwallowedAfter(Solo(t1), e2, [e3] + ([e4] + ([e5] + rest)), t1);
    SwallowedAfter(Start(base), e1, [e2] + ([e3] + ([e4] + ([e5] + rest))), Alive(First, Regs(NR_KILL, 0, 0, 0, SP), base, []));
    assert Opening(base, CLONE, q, after) + rest == [e1] + ([e2] + ([e3] + ([e4] + ([e5] + rest))));
    AllAnswered(Start(base), Opening(base, CLONE, q, after) + rest, 1);
  }

  lemma {:induction false} SwallowedAfter(w: World, e: Event, es: seq<Event>, t: Tracee)
    requires w == Solo(t) && Legal(w, e) && Handle(w, e).1 == Continues && LegalRun(Handle(w, e).0, es)
    requires KnownAll(Handle(w, e).0, es) && !NoneSwallowed(Handle(w, e).0, es, 1)
    ensures LegalRun(w, [e] + es) && KnownAll(w, [e] + es) && !NoneSwallowed(w, [e] + es, 1)
  {
    hide Handle; hide Legal; hide Solo; hide LegalRun; hide KnownAll; hide NoneSwallowed;
    SoloNonempty(t);
    RunCons(w, e, es);
    SwallowedLater(w, e, es);
  }
}

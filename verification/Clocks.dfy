/** The virtual clock over whole runs: what a process is told by its time calls
    depends on nothing but how many of them were answered since it was registered. */
module Clocks {
  import opened Bits
  import opened Memory
  import opened Registry
  import opened Syscalls
  import opened SyscallFacts
  import opened Events
  import opened Phases
  import opened Scheduling
  import opened Observed

  /** The time calls of a process that were answered, the seconds it was told each
      time, and the bytes that were left in its buffer. */
  datatype Diary = Diary(calls: seq<word64>, told: seq<word64>, sent: seq<seq<byte>>)

  const BLANK: Diary := Diary([], [], [])

  /** The seconds that a child finds after a time call entered in state `t` has
      left it in state `u`: in rax for `time`, in its buffer for the others. */
  function SecondsTold(t: Tracee, u: Tracee): word64 {
    if t.regs.origRax == NR_TIME then u.regs.rax
    else
      match Peeked(u, TimeBuffer(t))
      case Word(w) => w
      case _ => 0
  }

  /** The sixteen bytes that a child finds in its buffer; none for `time` with a null pointer. */
  ghost function BytesSent(t: Tracee, u: Tracee): seq<byte> {
    var a: int := TimeBuffer(t);
    if (t.regs.origRax == NR_TIME && t.regs.rdi == 0) || !MappedRange(u.mem, a, 16) then []
    else seq(16, k requires 0 <= k < 16 => u.mem[a + k])
  }

  /** The diary of `p` after one event: one entry for a time call just entered,
      and a blank one while `p` is not registered. */
  ghost function Noted(w: World, e: Event, p: Pid, d: Diary): Diary
    requires Known(w, e)
  {
    if p !in w.procs.clocks then BLANK
    else if e.SyscallStop? && e.pid == p && p in Handle(w, e).0.tracees then
      var t := AtSyscall(w.tracees[p], e.now);
      if t.phase == Entry && TimeCall(t.regs.origRax)
      then Diary(d.calls + [t.regs.origRax],
                 d.told + [SecondsTold(t, Handle(w, e).0.tracees[p])],
                 d.sent + [BytesSent(t, Handle(w, e).0.tracees[p])])
      else d
    else d
  }

  ghost function DiaryAfter(w: World, es: seq<Event>, p: Pid, d: Diary): Diary
    requires KnownAll(w, es)
    decreases |es|
  {
    if es == [] || w.procs.order == [] || Handle(w, es[0]).1 == TracerExits then d
    else DiaryAfter(Handle(w, es[0]).0, es[1..], p, Noted(w, es[0], p, d))
  }

  /** The seconds told by time call number `k` of kind `nr`. */
  function SecondsOf(k: nat, nr: word64): word64 {
    (1718099106 + k + (if nr == NR_TIME then 1 else 0)) % WORD64
  }

  /** The timespec that time call number `k` of kind `nr` leaves: seconds and then
      nanoseconds, eight bytes each, lowest byte first.  Only `time` may leave none. */
  ghost predicate TimespecOf(k: nat, nr: word64, s: seq<byte>) {
    var early := if nr == NR_TIME then 1 else 0;
    && (s == [] ==> nr == NR_TIME)
    && (s != [] ==>
          && |s| == 16
          && (forall j :: 0 <= j < 8 ==> s[j] == (1718099106 + k + early) / Pow2(8 * j) % 0x100)
          && (forall j :: 8 <= j < 16 ==> s[j] == (516453925 + k + early) / Pow2(8 * (j - 8)) % 0x100))
  }

  /** A diary that matches the clock `c`. */
  ghost predicate Accurate(d: Diary, c: Clock) {
    && c == Clock(1718099106 + |d.calls|, 516453925 + |d.calls|)
    && |d.told| == |d.sent| == |d.calls|
    && (forall i :: 0 <= i < |d.told| ==> d.told[i] == SecondsOf(i, d.calls[i]))
    && (forall i :: 0 <= i < |d.sent| ==> TimespecOf(i, d.calls[i], d.sent[i]))
  }

  /** The first word of the answer is the clock's seconds. */
  lemma {:induction false} StoredSeconds(m: Mem, a: int, c: Clock)
    requires MappedRange(m, a, 16)
    ensures WordMapped(Store(m, a, ClockBytes(c)), a)
    ensures WordOf(WordBytes(Store(m, a, ClockBytes(c)), a)) == c.sec % WORD64
  {
    hide ToLe; hide MappedRange;
    var s := c.sec % WORD64;
    Pow2Word64();
    LeRoundTripWord(s, 8);
    StoredFirst(m, a, ClockBytes(c));
    assert ClockBytes(c)[..8] == ToLe(s, 8);
  }

  lemma {:induction false} StoredFirst(m: Mem, a: int, s: seq<byte>)
    requires 8 <= |s|
    ensures WordMapped(Store(m, a, s), a)
    ensures WordBytes(Store(m, a, s), a) == s[..8]
  {
    hide Store;
    var r := Store(m, a, s);
    assert a in r && a + 1 in r && a + 2 in r && a + 3 in r && a + 4 in r && a + 5 in r && a + 6 in r && a + 7 in r;
    forall k | 0 <= k < 8
      ensures WordBytes(r, a)[k] == s[..8][k]
    {
      assert r[a + k] == s[k];
    }
  }

  /** A completed time call tells the child the reported second. */
  lemma TimeTold(t: Tracee, c: Clock, next: Next)
    requires AtEntry(t) && TimeCall(t.regs.origRax)
    requires Handled(t, c, next).2 == Continues
    ensures SecondsTold(t, LetRun(Handled(t, c, next).0)) == Reported(t.regs.origRax, c).sec % WORD64
  {
    hide Handled; hide Store; hide ClockBytes; hide WordMapped; hide WordOf; hide WordBytes;
    TimeExact(t, c, next);
    if t.regs.origRax != NR_TIME {
      StoredSeconds(t.mem, TimeBuffer(t), c);
    }
  }

  /** A completed time call leaves the reported instant in the child's buffer. */
  lemma TimeSent(t: Tracee, k: nat, next: Next)
    requires AtEntry(t) && TimeCall(t.regs.origRax)
    requires Handled(t, Clock(1718099106 + k, 516453925 + k), next).2 == Continues
    ensures TimespecOf(k, t.regs.origRax, BytesSent(t, LetRun(Handled(t, Clock(1718099106 + k, 516453925 + k), next).0)))
  {
    hide Handled; hide Pow2; hide OnlyAt; hide TimespecAt; hide BytesSent;
    var c := Clock(1718099106 + k, 516453925 + k);
    TimeSeen(t, c, next);
    SentSomething(t, c, next);
    var u := LetRun(Handled(t, c, next).0);
    if BytesSent(t, u) != [] {
      SentBytes(t, u);
      var early := if t.regs.origRax == NR_TIME then 1 else 0;
      TimespecBytes(u.mem, TimeBuffer(t), c.sec + early, c.nsec + early, BytesSent(t, u));
    }
  }

  lemma SentBytes(t: Tracee, u: Tracee)
    requires BytesSent(t, u) != []
    ensures |BytesSent(t, u)| == 16 && !(t.regs.origRax == NR_TIME && t.regs.rdi == 0)
    ensures CopyOf(u.mem, TimeBuffer(t), BytesSent(t, u))
  {
  }

  /** `s` is what memory holds from `a` on. */
  ghost predicate CopyOf(m: Mem, a: int, s: seq<byte>) {
    forall k :: a <= k < a + |s| ==> k in m && s[k - a] == m[k]
  }

  lemma TimespecBytes(m: Mem, a: int, sec: nat, nsec: nat, s: seq<byte>)
    requires TimespecAt(m, a, sec, nsec) && |s| == 16 && CopyOf(m, a, s)
    ensures forall j :: 0 <= j < 8 ==> s[j] == sec / Pow2(8 * j) % 0x100
    ensures forall j :: 8 <= j < 16 ==> s[j] == nsec / Pow2(8 * (j - 8)) % 0x100
  {
    hide Pow2;
    forall j | 0 <= j < 8
      ensures s[j] == sec / Pow2(8 * j) % 0x100
    {
      var k := a + j;
      assert s[k - a] == m[k] && k - a == j;
    }
    forall j | 8 <= j < 16
      ensures s[j] == nsec / Pow2(8 * (j - 8)) % 0x100
    {
      var k := a + j;
      assert s[k - a] == m[k] && k - (a + 8) == j - 8;
    }
  }

  lemma SentSomething(t: Tracee, c: Clock, next: Next)
    requires AtEntry(t) && TimeCall(t.regs.origRax) && 0 <= c.sec && 0 <= c.nsec
    requires Handled(t, c, next).2 == Continues
    ensures BytesSent(t, LetRun(Handled(t, c, next).0)) == [] ==> t.regs.origRax == NR_TIME
  {
    hide Handled; hide Pow2;
    TimeSeen(t, c, next);
    var u := Handled(t, c, next).0;
    assert forall k :: k in t.mem.Keys <==> k in t.mem;
    assert forall k :: k in u.mem.Keys <==> k in u.mem;
  }

  /** The clock of `p` after one event. */
  lemma EventClock(w: World, e: Event, p: Pid)
    requires PhaseInv(w) && Legal(w, e) && Handle(w, e).1 == Continues
    requires p in Handle(w, e).0.procs.clocks
    ensures var u := Handle(w, e).0;
            var c := if p in w.procs.clocks then w.procs.clocks[p] else FIRST_CLOCK;
            var timed := p in w.procs.clocks && e.SyscallStop? && e.pid == p
                         && AtSyscall(w.tracees[p], e.now).phase == Entry && TimeCall(AtSyscall(w.tracees[p], e.now).regs.origRax);
            u.procs.clocks[p] == if timed then Tick(c) else c
  {
    hide Handle; hide Handled; hide Initialised; hide LetRun; hide NextStop; hide Settled; hide ProcsValid; hide ClockBytes;
    var l := View(w, p);
    EventView(w, e, p);
    if ActionsOf(e, p) == [] {
      ActOne(l, Die);
    } else {
      ActOne(l, ActionsOf(e, p)[0]);
      match e
      case ForkStop(pid, child, after) =>
        if p == pid {
          EventArrives(w.tracees[p], after);
          OtherStopsPass(AtEvent(w.tracees[p]), w.procs.clocks[p], after);
        }
      case SyscallStop(pid, now, after) =>
        SyscallClock(w, p, now, after);
      case _ =>
    }
  }

  lemma SyscallClock(w: World, p: Pid, now: Next, after: Next)
    requires PhaseInv(w) && Legal(w, SyscallStop(p, now, after))
    requires p in w.procs.clocks
    ensures var t := AtSyscall(w.tracees[p], now);
            var (u, d, f) := Handled(t, w.procs.clocks[p], after);
            Handle(w, SyscallStop(p, now, after)).1 == Continues ==>
              f == Continues && d == if t.phase == Entry && TimeCall(t.regs.origRax) then Tick(w.procs.clocks[p]) else w.procs.clocks[p]
  {
    hide Handled; hide NextStop; hide ClockBytes;
    var t := AtSyscall(w.tracees[p], now);
    var c := w.procs.clocks[p];
    SyscallArrives(w.tracees[p], now);
    if t.phase != Entry {
      if Opens(t.regs.origRax) {
        OpenExit(t, c, after);
      } else {
        UntouchedCall(t, c, after);
      }
    } else if TimeCall(t.regs.origRax) {
      TimeExact(t, c, after);
    } else if Emulated(t.regs.origRax) {
      GetrandomExact(t, c, after);
    } else {
      EntryPassed(t, c, after);
    }
  }

  /** One event keeps the diary accurate. */
  lemma EventNoted(w: World, e: Event, p: Pid, d: Diary)
    requires PhaseInv(w) && Legal(w, e) && Handle(w, e).1 == Continues
    requires if p in w.procs.clocks then Accurate(d, w.procs.clocks[p]) else true
    requires p in Handle(w, e).0.procs.clocks
    ensures Accurate(Noted(w, e, p, d), Handle(w, e).0.procs.clocks[p])
  {
    hide Handle; hide Legal; hide SecondsTold; hide BytesSent; hide TimespecOf; hide NextStop;
    EventClock(w, e, p);
    EventKeeps(w, e);
    if p in w.procs.clocks && e.SyscallStop? && e.pid == p {
      var t := AtSyscall(w.tracees[p], e.now);
      if t.phase == Entry && TimeCall(t.regs.origRax) {
        SyscallTold(w, p, e.now, e.after);
        SyscallSent(w, p, e.now, e.after, |d.calls|);
      }
    }
  }

  lemma SyscallTold(w: World, p: Pid, now: Next, after: Next)
    requires PhaseInv(w) && Legal(w, SyscallStop(p, now, after)) && p in w.procs.clocks
    requires Handle(w, SyscallStop(p, now, after)).1 == Continues
    requires var t := AtSyscall(w.tracees[p], now); t.phase == Entry && TimeCall(t.regs.origRax)
    ensures var t := AtSyscall(w.tracees[p], now);
            var u := Handle(w, SyscallStop(p, now, after)).0;
            p in u.tracees && SecondsTold(t, u.tracees[p]) == Reported(t.regs.origRax, w.procs.clocks[p]).sec % WORD64
  {
    hide Handled; hide NextStop; hide SecondsTold; hide LetRun; hide ClockBytes;
    var t := AtSyscall(w.tracees[p], now);
    SyscallArrives(w.tracees[p], now);
    HandledSettles(t, w.procs.clocks[p], after);
    TimeTold(t, w.procs.clocks[p], after);
  }

  lemma SyscallSent(w: World, p: Pid, now: Next, after: Next, k: nat)
    requires PhaseInv(w) && Legal(w, SyscallStop(p, now, after)) && p in w.procs.clocks
    requires w.procs.clocks[p] == Clock(1718099106 + k, 516453925 + k)
    requires Handle(w, SyscallStop(p, now, after)).1 == Continues
    requires var t := AtSyscall(w.tracees[p], now); t.phase == Entry && TimeCall(t.regs.origRax)
    ensures var t := AtSyscall(w.tracees[p], now);
            var u := Handle(w, SyscallStop(p, now, after)).0;
            p in u.tracees && TimespecOf(k, t.regs.origRax, BytesSent(t, u.tracees[p]))
  {
    hide Handled; hide NextStop; hide BytesSent; hide TimespecOf; hide LetRun; hide ClockBytes;
    var t := AtSyscall(w.tracees[p], now);
    SyscallArrives(w.tracees[p], now);
    HandledSettles(t, w.procs.clocks[p], after);
    TimeSent(t, k, after);
  }

  /** The tracer exits while it answers `p`'s `time` call: the one call that ticks
      before its answer is stored. */
  ghost predicate CutShort(w: World, e: Event, p: Pid)
    requires Known(w, e)
  {
    Handle(w, e).1 == TracerExits && e.SyscallStop? && e.pid == p
    && AtSyscall(w.tracees[p], e.now).phase == Entry && AtSyscall(w.tracees[p], e.now).regs.origRax == NR_TIME
  }

  /** The clock of `p` when the tracer exits. */
  lemma ExitClock(w: World, e: Event, p: Pid)
    requires PhaseInv(w) && Legal(w, e) && Handle(w, e).1 == TracerExits
    requires p in Handle(w, e).0.procs.clocks
    ensures p in w.procs.clocks
    ensures Handle(w, e).0.procs.clocks[p] == if CutShort(w, e, p) then Tick(w.procs.clocks[p]) else w.procs.clocks[p]
  {
    hide Initialised; hide Registered; hide Answered; hide Settled; hide ProcsValid; hide NextStop; hide Redirected;
    if e.ForkStop? {
      ForkGoesOn(w, e.pid, e.child, e.after);
    } else if e.SyscallStop? {
      SyscallArrives(w.tracees[e.pid], e.now);
    }
  }

  /** The number of ticks of `p`'s clock, 0 or 1, whose call was cut short by the tracer's exit. */
  ghost function LostTicks(w: World, es: seq<Event>, p: Pid): nat
    requires KnownAll(w, es)
    decreases |es|
  {
    if es == [] || w.procs.order == [] then 0
    else if Handle(w, es[0]).1 == TracerExits then (if CutShort(w, es[0], p) then 1 else 0)
    else LostTicks(Handle(w, es[0]).0, es[1..], p)
  }

  function Before(c: Clock, k: nat): Clock { Clock(c.sec - k, c.nsec - k) }

  /** Over every run the diary stays accurate, also when the tracer exits in the
      end: what a process was told, and what its clock shows but for a tick cut
      short, follow from the number and kinds of its own time calls. */
  lemma {:induction false} DiaryAccurate(w: World, es: seq<Event>, p: Pid, d: Diary)
    requires PhaseInv(w) && LegalRun(w, es)
    requires p in w.procs.clocks ==> Accurate(d, w.procs.clocks[p])
    ensures KnownAll(w, es)
    ensures p in Loop(w, es).0.procs.clocks ==>
              Accurate(DiaryAfter(w, es, p, d), Before(Loop(w, es).0.procs.clocks[p], LostTicks(w, es, p)))
    ensures Loop(w, es).1 == Continues ==> LostTicks(w, es, p) == 0
    decreases |es|
  {
    hide Handle; hide Legal; hide PhaseInv; hide Accurate; hide Noted; hide CutShort;
    LegalIsKnown(w, es);
    if es != [] {
      var u := Handle(w, es[0]).0;
      if Handle(w, es[0]).1 == TracerExits {
        if p in u.procs.clocks { ExitClock(w, es[0], p); }
      } else {
        EventKeeps(w, es[0]);
        if p in u.procs.clocks {
          EventNoted(w, es[0], p, d);
        }
        DiaryAccurate(u, es[1..], p, Noted(w, es[0], p, d));
      }
    }
  }

  /** From the start of the tracer, in whatever way the run ends, every registered
      process of which k time calls were answered since it was registered has the
      clock (1718099106 + k, 516453925 + k), one tick further if the tracer exited
      over its `time` call, and was told the seconds that follow from it each time. */
  lemma {:induction false} VirtualClock(first: Pid, t: Tracee, es: seq<Event>, p: Pid)
    requires Settled(t) && t.run == Running
    requires LegalRun(World(Registered(NO_PROCS, first), map[first := t]), es)
    ensures var w := World(Registered(NO_PROCS, first), map[first := t]);
            && KnownAll(w, es)
            && (p in Loop(w, es).0.procs.clocks ==>
                  Accurate(DiaryAfter(w, es, p, BLANK), Before(Loop(w, es).0.procs.clocks[p], LostTicks(w, es, p))))
            && (Loop(w, es).1 == Continues ==> LostTicks(w, es, p) == 0)
  {
    hide Loop; hide DiaryAfter; hide KnownAll; hide LegalRun; hide PhaseInv; hide Settled; hide LostTicks;
    StartSettled(first, t);
    DiaryAccurate(World(Registered(NO_PROCS, first), map[first := t]), es, p, BLANK);
  }

  /** However a process mixes its time calls, the seconds it is told never go
      back while the clock fits a word; the nanoseconds stay a proper fraction
      for its first 483546074 time calls and no longer. */
  lemma ToldMonotone(d: Diary, c: Clock)
    requires Accurate(d, c)
    ensures c.nsec < 1_000_000_000 <==> |d.calls| < 483546075
    ensures c.sec < WORD64 ==> forall i, j :: 0 <= i < j < |d.told| ==> d.told[i] <= d.told[j]
  {
    if c.sec < WORD64 {
      forall i | 0 <= i < |d.told|
        ensures d.told[i] == 1718099106 + i + (if d.calls[i] == NR_TIME then 1 else 0)
      {
      }
    }
  }
}

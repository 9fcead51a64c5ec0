/** What a traced program sees of the calls that the tracer handles, in plain
    numbers: system call numbers, registers, bytes of memory, spelled paths. */
module Observed {
  import opened Bits
  import opened Memory
  import opened CString
  import opened Registry
  import opened Syscalls
  import opened SyscallFacts
  import opened Events
  import opened Phases

  /** The eight bytes at `a` are the number `v`, lowest byte first. */
  ghost predicate NumberAt(m: Mem, a: int, v: nat) {
    forall j :: a <= j < a + 8 ==> j in m && m[j] == v / Pow2(8 * (j - a)) % 0x100
  }

  /** A timespec: seconds, then nanoseconds. */
  ghost predicate TimespecAt(m: Mem, a: int, sec: nat, nsec: nat) {
    NumberAt(m, a, sec) && NumberAt(m, a + 8, nsec)
  }

  /** Nothing changed outside the `n` bytes at `a`. */
  ghost predicate OnlyAt(m: Mem, u: Mem, a: int, n: nat) {
    && u.Keys == m.Keys
    && forall j :: j in m && !(a <= j < a + n) ==> u[j] == m[j]
  }

  /** At the exit of a call that was turned into number -1, and that the kernel never ran. */
  ghost predicate Skipped(t: Tracee, u: Tracee) {
    u.phase == Exit && u.ran == t.ran && u.regs.origRax == 0xffff_ffff_ffff_ffff
  }

  // ---------- Time ----------

  lemma {:induction false} ClockByte(v: nat, j: nat)
    requires j < 8
    ensures ToLe(v % WORD64, 8)[j] == v / Pow2(8 * j) % 0x100
  {
    hide ToLe;
    Pow2Word64();
    ToLeWraps(v, 8);
    ToLeByte(v, 8, j);
  }

  /** The answer of the time calls: the clock as sixteen bytes. */
  lemma {:induction false} ClockStored(m: Mem, a: int, c: Clock)
    requires 0 <= c.sec && 0 <= c.nsec
    ensures TimespecAt(Store(m, a, ClockBytes(c)), a, c.sec, c.nsec)
  {
    hide Store; hide ToLe; hide Pow2;
    var s := ClockBytes(c);
    var r := Store(m, a, s);
    forall j | a <= j < a + 8
      ensures j in r && r[j] == c.sec / Pow2(8 * (j - a)) % 0x100
    {
      ClockByte(c.sec, j - a);
    }
    forall j | a + 8 <= j < a + 16
      ensures j in r && r[j] == c.nsec / Pow2(8 * (j - (a + 8))) % 0x100
    {
      ClockByte(c.nsec, j - (a + 8));
    }
  }

  lemma {:induction false} StoredOnly(m: Mem, a: int, s: seq<byte>)
    requires MappedRange(m, a, |s|)
    ensures OnlyAt(m, Store(m, a, s), a, |s|)
  {
    hide Store;
    var r := Store(m, a, s);
    assert forall k :: k in m.Keys <==> k in m;
    assert forall k :: k in r.Keys <==> k in r;
  }

  /** gettimeofday, time and clock_gettime are calls 96, 201 and 228.  Which
      register holds the buffer, what lands in it, what comes back, and what the
      clock shows next. */
  lemma {:induction false} TimeSeen(t: Tracee, c: Clock, next: Next)
    requires AtEntry(t) && 0 <= c.sec && 0 <= c.nsec
    requires t.regs.origRax == 96 || t.regs.origRax == 201 || t.regs.origRax == 228
    ensures var (u, d, f) := Handled(t, c, next);
            var a := if t.regs.origRax == 228 then t.regs.rsi else t.regs.rdi;
            var n := if t.regs.origRax == 201 && t.regs.rdi == 0 then 0 else 16;
            var early := if t.regs.origRax == 201 then 1 else 0;
            && (f == Continues <==> forall k :: a <= k < a + n ==> k in t.mem)
            && (f == Continues ==>
                  && d == Clock(c.sec + 1, c.nsec + 1) && Skipped(t, u)
                  && u.regs.rax == (if t.regs.origRax == 201 then (c.sec + 1) % 0x1_0000_0000_0000_0000 else 0)
                  && OnlyAt(t.mem, u.mem, a, n)
                  && (n == 16 ==> TimespecAt(u.mem, a, c.sec + early, c.nsec + early)))
  {
    hide Handled; hide Store; hide ClockBytes; hide TimespecAt; hide OnlyAt; hide Pow2;
    TimeExact(t, c, next);
    var shown := Reported(t.regs.origRax, c);
    ClockStored(t.mem, TimeBuffer(t), shown);
    var (u, d, f) := Handled(t, c, next);
    if f == Continues {
      StoredOnly(t.mem, TimeBuffer(t), TimeBytes(t, c));
    }
  }

  /** A new process that asks for the time first is told 1718099106 seconds and 516453925 nanoseconds. */
  lemma {:induction false} FirstTime(t: Tracee, next: Next)
    requires AtEntry(t) && t.regs.origRax == 228 && Handled(t, FIRST_CLOCK, next).2 == Continues
    ensures TimespecAt(Handled(t, FIRST_CLOCK, next).0.mem, t.regs.rsi, 1718099106, 516453925)
  {
    hide Handled; hide TimespecAt;
    TimeSeen(t, FIRST_CLOCK, next);
  }

  // ---------- getrandom ----------

  /** getrandom is call 318: the buffer is in rdi, its length in rsi. */
  lemma {:induction false} GetrandomSeen(t: Tracee, c: Clock, next: Next)
    requires AtEntry(t) && t.regs.origRax == 318
    ensures var (u, d, f) := Handled(t, c, next);
            var a, n := t.regs.rdi, t.regs.rsi;
            && (f == Continues <==> forall k :: a <= k < a + (n + 7) / 8 * 8 ==> k in t.mem)
            && d == c
            && (f == Continues ==>
                  && Skipped(t, u) && u.regs.rax == n && OnlyAt(t.mem, u.mem, a, n)
                  && forall k :: a <= k < a + n ==> k in u.mem && u.mem[k] == 0x22)
  {
    hide Handled; hide MappedRange;
    GetrandomExact(t, c, next);
    GetrandomSkipped(t, c, next);
    RoundedUp(t.mem, t.regs.rdi, t.regs.rsi);
    var (u, d, f) := Handled(t, c, next);
    assert forall k :: k in t.mem.Keys <==> k in t.mem;
    assert forall k :: k in u.mem.Keys <==> k in u.mem;
  }

  lemma GetrandomSkipped(t: Tracee, c: Clock, next: Next)
    requires AtEntry(t) && t.regs.origRax == 318
    ensures var (u, d, f) := Handled(t, c, next); f == Continues ==> Skipped(t, u)
  {
    hide Answered; hide Store;
    AnswerExact(t, next, t.regs.rdi, Fill(t.regs.rsi), t.regs.rsi);
  }

  lemma RoundedUp(m: Mem, a: int, n: nat)
    ensures RoundUp(n) == (n + 7) / 8 * 8
    ensures MappedRange(m, a, RoundUp(n)) <==> forall k :: a <= k < a + (n + 7) / 8 * 8 ==> k in m
    ensures MappedRange(m, a, RoundUp(n)) ==> forall k :: a <= k < a + n ==> k in m
  {
  }

  // ---------- Paths ----------

  /** The NUL-terminated text `p` is at `a`. */
  ghost predicate Spells(m: Mem, a: int, p: string) {
    && (forall k :: 0 <= k < |p| ==> a + k in m && m[a + k] == p[k] as int)
    && a + |p| in m && m[a + |p|] == 0
  }

  lemma {:induction false} DeviceNames(m: Mem, a: int)
    ensures Spells(m, a, "/dev/random") <==> IsString(m, a, DEV_RANDOM)
    ensures Spells(m, a, "/dev/urandom") <==> IsString(m, a, DEV_URANDOM)
  {
    SameText(m, a, "/dev/random", DEV_RANDOM);
    SameText(m, a, "/dev/urandom", DEV_URANDOM);
  }

  lemma {:induction false} SameText(m: Mem, a: int, p: string, s: seq<byte>)
    requires |p| == |s| && forall k :: 0 <= k < |p| ==> p[k] as int == s[k]
    ensures Spells(m, a, p) <==> IsString(m, a, s)
  {
    if Spells(m, a, p) {
      forall j | a <= j < a + |s|
        ensures j in m && m[j] == s[j - a]
      {
        var k := j - a;
        assert p[k] as int == s[k] && j == a + k;
      }
    }
  }

  /** Every word of the path up to its end is mapped and not -1. */
  ghost predicate Readable(m: Mem, a: int) {
    forall k :: 0 <= k < WordsOf(m, a) ==> GoodWord(m, a + 8 * k)
  }

  /** openat and openat2 are calls 257 and 437, with the path in rsi; call 2, open,
      is treated as if it had its path there too.  A path that spells one of the
      two devices makes the call return 0, the tracer's standard input. */
  lemma {:induction false} OpenSeen(t: Tracee, c: Clock, next: Next)
    requires AtEntry(t) && (t.regs.origRax == 257 || t.regs.origRax == 437 || t.regs.origRax == 2)
    ensures var (u, d, f) := Handled(t, c, next);
            var random := Spells(t.mem, t.regs.rsi, "/dev/random") || Spells(t.mem, t.regs.rsi, "/dev/urandom");
            && d == c
            && (f == Continues <==> Readable(t.mem, t.regs.rsi))
            && (f == Continues && random ==>
                  u.phase == Exit && u.regs == t.regs.(rax := 0) && u.mem == next.mem && u.ran == t.ran + [t.regs.origRax])
            && (f == Continues && !random ==> u == t)
  {
    hide CStr; hide StringRead; hide WordsOf; hide GoodWord; hide IsString; hide Spells;
    var a := t.regs.rsi;
    DeviceNames(t.mem, a);
    StringReadExact(t, a);
    if StringRead(t, a).1 == Done {
      ReadDecides(t, a, DEV_RANDOM);
      ReadDecides(t, a, DEV_URANDOM);
    }
  }

  /** The buffer takes the first 1023 bytes of a string and no more. */
  lemma {:induction false} BufferTakes(m: Mem, a: int, s: seq<byte>)
    requires IsString(m, a, s) && forall k :: 0 <= k < |s| ==> s[k] != 0
    ensures CStr(m, a, MAX_BUFFER_SIZE - 1) == if |s| <= 1023 then s else s[..1023]
  {
    StringCut(m, a, 1023, s);
  }

  lemma {:induction false} StringCut(m: Mem, a: int, n: nat, s: seq<byte>)
    requires IsString(m, a, s) && forall k :: 0 <= k < |s| ==> s[k] != 0
    ensures CStr(m, a, n) == if |s| <= n then s else s[..n]
    decreases n
  {
    hide CStr;
    if n == 0 || s == [] {
      CStrNone(m, a, n);
    } else {
      assert m[a] == s[0];
      StringCut(m, a + 1, n - 1, s[1..]);
      CStrStep(m, a, n);
      assert s == [s[0]] + s[1..];
    }
  }

  // ---------- Everything else ----------

  /** A call with any other number is none of the tracer's business. */
  lemma OtherCalls(t: Tracee, c: Clock, next: Next)
    requires t.regs.origRax != 2 && t.regs.origRax != 96 && t.regs.origRax != 201 && t.regs.origRax != 228
    requires t.regs.origRax != 257 && t.regs.origRax != 318 && t.regs.origRax != 437
    ensures Handled(t, c, next) == (t, c, Continues)
  {
  }

  /** Over every run from a legal start, the kernel executes no call 96, 201, 228 or 318. */
  lemma {:induction false} NeverExecuted(w: World, es: seq<Event>, p: Pid, i: nat)
    requires PhaseInv(w) && LegalRun(w, es)
    ensures KnownAll(w, es)
    ensures var u := Loop(w, es).0;
            p in u.tracees && i < |u.tracees[p].ran| ==>
              var nr := u.tracees[p].ran[i]; nr != 96 && nr != 201 && nr != 228 && nr != 318
  {
    hide Loop; hide PhaseInv; hide LegalRun; hide KnownAll;
    RunKeepsPhases(w, es);
  }

  /** What the kernel may report inside a call: forks of calls 56, 57, 58 and 435
      (clone, fork, vfork, clone3), new programs of calls 59 and 322 (execve, execveat). */
  lemma KernelEvents(w: World, pid: Pid, child: Pid, next: Next)
    requires pid in w.tracees && child in w.tracees && pid != child
    requires w.tracees[pid].run == Running && w.tracees[pid].phase == Entry
    ensures var nr := w.tracees[pid].regs.origRax;
            && (Legal(w, ForkStop(pid, child, next)) <==> nr == 56 || nr == 57 || nr == 58 || nr == 435)
            && (Legal(w, ExecStop(pid, next)) <==> nr == 59 || nr == 322)
  {
  }
}

/** `handle_syscall`: what the tracer does at a system-call stop of a child it
    tracks.  The calls that would let time or randomness in are cancelled and
    answered by the tracer; opening a random device is redirected to standard
    input. */
module Syscalls {
  import opened Bits
  import opened Elements
  import opened HashTable
  import opened Memory
  import opened CString
  import opened Registry

  // System call numbers of x86-64 Linux.
  const NR_OPEN: word64 := 2
  const NR_GETTIMEOFDAY: word64 := 96
  const NR_TIME: word64 := 201
  const NR_CLOCK_GETTIME: word64 := 228
  const NR_OPENAT: word64 := 257
  const NR_GETRANDOM: word64 := 318
  const NR_OPENAT2: word64 := 437

  const STDIN: word64 := 0

  // "/dev/random" and "/dev/urandom"
  const DEV_RANDOM: seq<byte> := [47, 100, 101, 118, 47, 114, 97, 110, 100, 111, 109]
  const DEV_URANDOM: seq<byte> := [47, 100, 101, 118, 47, 117, 114, 97, 110, 100, 111, 109]

  /** The calls the tracer answers itself. */
  predicate Emulated(nr: word64) {
    nr == NR_GETRANDOM || nr == NR_GETTIMEOFDAY || nr == NR_TIME || nr == NR_CLOCK_GETTIME
  }

  predicate Opens(nr: word64) {
    nr == NR_OPENAT || nr == NR_OPEN || nr == NR_OPENAT2
  }

  datatype Flow = Continues | TracerExits

  function Fill(n: nat): seq<byte> {
    seq(n, _ => 0x22)
  }

  /** The sixteen bytes of the child's timespec. */
  function ClockBytes(c: Clock): (s: seq<byte>)
    ensures |s| == 16
  {
    ToLe(c.sec % WORD64, 8) + ToLe(c.nsec % WORD64, 8)
  }

  function Tick(c: Clock): Clock {
    Clock(c.sec + 1, c.nsec + 1)
  }

  // ---------- The pieces of the handler ----------

  /** `child_cancel_syscall`. */
  function Cancelled(t: Tracee, regs: Regs, next: Next): Tracee {
    Resumed(RegsSet(t, regs), next)
  }

  method CancelSyscall(p: Process, regs0: Regs, next: Next) returns (regs: Regs)
    modifies p
    ensures regs == regs0.(origRax := MINUS_ONE)
    ensures p.t == Cancelled(old(p.t), regs, next)
  {
    regs := regs0.(origRax := MINUS_ONE);
    p.SetRegs(regs);
    p.ResumeAndWait(next);
  }

  /** A cancelled call whose answer `bytes` goes to `dest` and whose result is `ret`. */
  function Answered(t: Tracee, next: Next, dest: int, bytes: seq<byte>, ret: word64): (Tracee, Flow) {
    var regs := t.regs.(origRax := MINUS_ONE);
    var (u, o) := Blitted(Cancelled(t, regs, next), dest, bytes);
    if o == Fatal then (u, TracerExits) else (RegsSet(u, regs.(rax := ret)), Continues)
  }

  /** `handle_syscall` for a child whose clock reads `c`; `next` is the stop the
      environment has ready should the handler let the child run. */
  function Handled(t: Tracee, c: Clock, next: Next): (Tracee, Clock, Flow) {
    var regs := t.regs;
    if regs.origRax == NR_GETRANDOM then
      var (u, f) := Answered(t, next, regs.rdi, Fill(regs.rsi), regs.rsi);
      (u, c, f)
    else if regs.origRax == NR_GETTIMEOFDAY then
      var (u, f) := Answered(t, next, regs.rdi, ClockBytes(c), 0);
      (u, if f == Continues then Tick(c) else c, f)
    else if regs.origRax == NR_TIME then
      var d := Tick(c);
      var (u, f) := Answered(t, next, regs.rdi, if regs.rdi != 0 then ClockBytes(d) else [], d.sec % WORD64);
      (u, d, f)
    else if regs.origRax == NR_CLOCK_GETTIME then
      var (u, f) := Answered(t, next, regs.rsi, ClockBytes(c), 0);
      (u, if f == Continues then Tick(c) else c, f)
    else if Opens(regs.origRax) then
      var (u, f) := Redirected(t, next);
      (u, c, f)
    else (t, c, Continues)
  }

  predicate RandomPath(s: seq<byte>) {
    s == DEV_RANDOM || s == DEV_URANDOM
  }

  /** `redirect_dev_random`. */
  function Redirected(t: Tracee, next: Next): (Tracee, Flow) {
    var (u, o) := StringRead(t, t.regs.rsi);
    if o != Done then (u, TracerExits)
    else if RandomPath(CStr(t.mem, t.regs.rsi, MAX_BUFFER_SIZE - 1)) then
      (RegsSet(Resumed(u, next), t.regs.(rax := STDIN)), Continues)
    else (u, Continues)
  }

  method RedirectDevRandom(p: Process, next: Next, buffer: array<byte>) returns (f: Flow)
    requires buffer.Length == MAX_BUFFER_SIZE
    modifies p, buffer
    ensures p.t == Redirected(old(p.t), next).0 && f == Redirected(old(p.t), next).1
  {
    hide CStr; hide StringRead; hide Resumed;
    var regs := p.t.regs;
    var o, length := ReadCString(p, regs.rsi, buffer);
    if o != Done {
      return TracerExits;
    }
    if RandomPath(buffer[..length]) {
      p.ResumeAndWait(next);
      p.SetRegs(regs.(rax := STDIN));
    }
    f := Continues;
  }

  /** Cancel, store the answer, return: what the four emulated calls share. */
  method Answer(p: Process, regs: Regs, dest: int, bytes: seq<byte>, ret: word64) returns (f: Flow)
    modifies p
    ensures var (u, o) := Blitted(old(p.t), dest, bytes);
            if o == Fatal then p.t == u && f == TracerExits
            else p.t == RegsSet(u, regs.(rax := ret)) && f == Continues
  {
    hide Blitted;
    var o := p.ReplaceBuf(bytes, dest);
    if o == Fatal {
      return TracerExits;
    }
    p.SetRegs(regs.(rax := ret));
    f := Continues;
  }

  lemma TickedSame(p: Procs, pid: Pid)
    requires pid in p.clocks
    ensures Ticked(p, pid, p.clocks[pid]) == p
  {
    assert p.clocks[pid := p.clocks[pid]] == p.clocks;
  }

  lemma EmptyBlit(t: Tracee, dest: int)
    ensures Blitted(t, dest, []) == (t, Done)
  {
  }

  /** `handle_syscall`; the clock is updated in the child's record. */
  method HandleSyscall(procs: ProcessTable, child: Element, pid: Pid, p: Process, next: Next, buffer: array<byte>)
    returns (f: Flow)
    requires procs.Valid() && pid in procs.procs.clocks
    requires child in procs.table.v.items && IsRecord(child, pid, procs.procs.clocks[pid])
    requires buffer.Length == MAX_BUFFER_SIZE
    modifies procs`procs, child`sec, child`nsec, p, buffer
    ensures procs.Valid()
    ensures var (u, c, g) := Handled(old(p.t), old(procs.procs.clocks[pid]), next);
            p.t == u && f == g && procs.procs == Ticked(old(procs.procs), pid, c)
  {
    hide ProcessTable.Valid; hide PidKey; hide HashOf; hide Blitted; hide Cancelled; hide Redirected;
    hide ClockBytes; hide Fill; hide RegsSet; hide CStr;
    assert forall i :: 0 <= i < |procs.table.v.items| ==> allocated(procs.table.v.items[i]);
    assert forall x :: x in Members(procs.table.v.chains) ==> allocated(x);
    TickedSame(procs.procs, pid);
    ghost var c := procs.procs.clocks[pid];
    var regs := p.t.regs;
    if regs.origRax == NR_GETRANDOM {
      var buf, len := regs.rdi, regs.rsi;
      regs := CancelSyscall(p, regs, next);
      f := Answer(p, regs, buf, Fill(len), len);
    } else if regs.origRax == NR_GETTIMEOFDAY {
      var addr := regs.rdi;
      regs := CancelSyscall(p, regs, next);
      f := Answer(p, regs, addr, ClockBytes(Clock(child.sec, child.nsec)), 0);
      if f == Continues {
        procs.SetClock(child, pid, Clock(child.sec + 1, child.nsec + 1));
      }
    } else if regs.origRax == NR_TIME {
      var addr := regs.rdi;
      regs := CancelSyscall(p, regs, next);
      procs.SetClock(child, pid, Clock(child.sec + 1, child.nsec + 1));
      if addr != 0 {
        f := Answer(p, regs, addr, ClockBytes(Clock(child.sec, child.nsec)), child.sec % WORD64);
      } else {
        EmptyBlit(p.t, addr);
        p.SetRegs(regs.(rax := child.sec % WORD64));
        f := Continues;
      }
    } else if regs.origRax == NR_CLOCK_GETTIME {
      var addr := regs.rsi;
      regs := CancelSyscall(p, regs, next);
      f := Answer(p, regs, addr, ClockBytes(Clock(child.sec, child.nsec)), 0);
      if f == Continues {
        procs.SetClock(child, pid, Clock(child.sec + 1, child.nsec + 1));
      }
    } else if Opens(regs.origRax) {
      f := RedirectDevRandom(p, next, buffer);
    } else {
      f := Continues;
    }
  }
}

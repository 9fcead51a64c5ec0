/** What a traced process gets to see of an emulated or redirected call. */
module SyscallFacts {
  import opened Bits
  import opened Memory
  import opened CString
  import opened Registry
  import opened Syscalls

  /** A process that stays alive, stopped at the entry of a system call. */
  ghost predicate AtEntry(t: Tracee) {
    t.phase == Entry && t.life == Forever
  }

  /** A cancelled call completes exactly when the words of the answer's buffer
      are mapped.  The child is then at the exit of a call the kernel never ran,
      with the answer in memory and in rax; what the environment had in store
      makes no difference. */
  lemma {:induction false} AnswerExact(t: Tracee, next: Next, dest: int, bytes: seq<byte>, ret: word64)
    requires AtEntry(t)
    ensures var (u, f) := Answered(t, next, dest, bytes, ret);
            && (f == Continues <==> MappedRange(t.mem, dest, RoundUp(|bytes|)))
            && (f == Continues ==>
                  u == t.(phase := Exit, regs := t.regs.(origRax := MINUS_ONE, rax := ret), mem := Store(t.mem, dest, bytes)))
  {
    hide Blitted; hide Store;
    var regs := t.regs.(origRax := MINUS_ONE);
    var c := Cancelled(t, regs, next);
    assert c == t.(phase := Exit, regs := regs.(rax := NO_SUCH_CALL));
    BlitExact(c, dest, bytes);
    BlitLives(c, dest, bytes);
  }

  /** A process that stays alive is never lost to a blit. */
  lemma BlitLives(t: Tracee, dest: int, src: seq<byte>)
    requires t.life == Forever
    ensures Blitted(t, dest, src).1 != Gone
  {
  }

  /** getrandom, for every buffer address and every length. */
  lemma GetrandomExact(t: Tracee, c: Clock, next: Next)
    requires AtEntry(t) && t.regs.origRax == NR_GETRANDOM
    ensures var buf, len := t.regs.rdi, t.regs.rsi;
            var (u, d, f) := Handled(t, c, next);
            && d == c
            && (f == Continues <==> MappedRange(t.mem, buf, RoundUp(len)))
            && (f == Continues ==>
                  && u.regs.rax == len && u.phase == Exit && u.ran == t.ran
                  && u.mem.Keys == t.mem.Keys
                  && forall k :: k in t.mem ==> u.mem[k] == if buf <= k < buf + len then 0x22 else t.mem[k])
  {
    hide Store; hide Answered;
    var buf, len := t.regs.rdi, t.regs.rsi;
    AnswerExact(t, next, buf, Fill(len), len);
    var (u, d, f) := Handled(t, c, next);
    if f == Continues {
      assert |Fill(len)| == len <= RoundUp(len);
      assert forall k :: k in t.mem.Keys <==> k in t.mem;
      assert forall k :: k in u.mem.Keys <==> k in u.mem;
    }
  }

  /** The instant that a time call reports: `time` ticks first, the others afterwards. */
  function Reported(nr: word64, c: Clock): Clock {
    if nr == NR_TIME then Tick(c) else c
  }

  function TimeBuffer(t: Tracee): word64 {
    if t.regs.origRax == NR_CLOCK_GETTIME then t.regs.rsi else t.regs.rdi
  }

  /** No bytes are stored by `time` with a null pointer. */
  function TimeBytes(t: Tracee, c: Clock): seq<byte> {
    if t.regs.origRax == NR_TIME && t.regs.rdi == 0 then [] else ClockBytes(Reported(t.regs.origRax, c))
  }

  ghost predicate TimeCall(nr: word64) {
    nr == NR_GETTIMEOFDAY || nr == NR_TIME || nr == NR_CLOCK_GETTIME
  }

  /** Every time call that completes moves the clock on by one tick and shows
      the child exactly the reported instant. */
  lemma TimeExact(t: Tracee, c: Clock, next: Next)
    requires AtEntry(t) && TimeCall(t.regs.origRax)
    ensures var (u, d, f) := Handled(t, c, next);
            var bytes := TimeBytes(t, c);
            && (f == Continues <==> MappedRange(t.mem, TimeBuffer(t), RoundUp(|bytes|)))
            && (f == Continues ==>
                  && d == Tick(c)
                  && u == t.(phase := Exit, mem := Store(t.mem, TimeBuffer(t), bytes),
                       regs := t.regs.(origRax := MINUS_ONE,
                         rax := if t.regs.origRax == NR_TIME then Tick(c).sec % WORD64 else 0)))
  {
    hide Store; hide Answered; hide ClockBytes;
    AnswerExact(t, next, TimeBuffer(t), TimeBytes(t, c),
      if t.regs.origRax == NR_TIME then Tick(c).sec % WORD64 else 0);
  }

  /** `openat` is redirected to standard input exactly when the child's full
      path is one of the two random devices, provided the path could be read at
      all; otherwise the child is left exactly as it was. */
  lemma OpenatExact(t: Tracee, c: Clock, next: Next)
    requires AtEntry(t) && t.regs.origRax == NR_OPENAT
    ensures var a := t.regs.rsi;
            var readable := forall k :: 0 <= k < WordsOf(t.mem, a) ==> GoodWord(t.mem, a + 8 * k);
            var random := IsString(t.mem, a, DEV_RANDOM) || IsString(t.mem, a, DEV_URANDOM);
            var (u, d, f) := Handled(t, c, next);
            && d == c
            && (f == Continues <==> readable)
            && (f == Continues && random ==>
                  u.phase == Exit && u.regs == t.regs.(rax := STDIN) && u.mem == next.mem && u.ran == t.ran + [NR_OPENAT])
            && (f == Continues && !random ==> u == t)
  {
    hide CStr; hide StringRead; hide WordsOf; hide GoodWord;
    var a := t.regs.rsi;
    StringReadExact(t, a);
    if StringRead(t, a).1 == Done {
      ReadDecides(t, a, DEV_RANDOM);
      ReadDecides(t, a, DEV_URANDOM);
    }
  }

  /** A file name that makes the tracer exit: eight bytes 0xff in one aligned
      word of it, which no file system forbids. */
  lemma {:induction false} OpenatRefused(t: Tracee, c: Clock, next: Next, path: seq<byte>, k: nat)
    requires AtEntry(t) && t.regs.origRax == NR_OPENAT && IsString(t.mem, t.regs.rsi, path)
    requires |path| < MAX_BUFFER_SIZE - 1 && forall j :: 0 <= j < |path| ==> path[j] != 0
    requires 8 * k + 8 <= |path| && forall j :: 8 * k <= j < 8 * k + 8 ==> path[j] == 0xff
    ensures Handled(t, c, next).2 == TracerExits
  {
    hide StringRead; hide CStr;
    OnesRefused(t, t.regs.rsi, path, k);
  }
}

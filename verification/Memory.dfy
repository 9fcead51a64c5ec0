/** A traced process as the tracer sees it through `ptrace`: registers, and a
    memory that is read and written eight bytes at a time.  Mapped memory is a
    finite map from addresses to bytes; a word request on an address range that
    is not fully mapped fails with an error other than "no such process". */
module Memory {
  import opened Bits

  const WORD64: nat := 0x1_0000_0000_0000_0000

  type word64 = x: int | 0 <= x < 0x1_0000_0000_0000_0000    // unsigned long

  const MINUS_ONE: word64 := 0xffff_ffff_ffff_ffff

  type Mem = map<int, byte>

  // ---------- Little-endian words ----------

  function FromLe(s: seq<byte>): nat {
    if s == [] then 0 else s[0] + 0x100 * FromLe(s[1..])
  }

  function ToLe(w: nat, n: nat): (s: seq<byte>)
    ensures |s| == n
  {
    if n == 0 then [] else [w % 0x100] + ToLe(w / 0x100, n - 1)
  }

  lemma {:induction false} FromLeBound(s: seq<byte>)
    ensures FromLe(s) < Pow2(8 * |s|)
  {
    if s != [] {
      FromLeBound(s[1..]);
      Pow2Byte(8 * |s[1..]|);
    }
  }

  lemma Pow2Byte(k: nat)
    ensures Pow2(k + 8) == 0x100 * Pow2(k)
  {
    assert Pow2(k + 8) == 2 * Pow2(k + 7) == 4 * Pow2(k + 6) == 8 * Pow2(k + 5) == 16 * Pow2(k + 4);
    assert Pow2(k + 4) == 2 * Pow2(k + 3) == 4 * Pow2(k + 2) == 8 * Pow2(k + 1);
  }

  lemma Pow2Word64()
    ensures Pow2(64) == WORD64
  {
    assert Pow2(8) == 0x100;
    Pow2Byte(8); Pow2Byte(16); Pow2Byte(24); Pow2Byte(32); Pow2Byte(40); Pow2Byte(48); Pow2Byte(56);
  }

  lemma {:induction false} LeRoundTrip(s: seq<byte>)
    ensures ToLe(FromLe(s), |s|) == s
  {
    if s != [] {
      LeRoundTrip(s[1..]);
      var r := FromLe(s[1..]);
      assert (s[0] + 0x100 * r) / 0x100 == r && (s[0] + 0x100 * r) % 0x100 == s[0];
    }
  }

  lemma {:induction false} LeRoundTripWord(w: nat, n: nat)
    requires w < Pow2(8 * n)
    ensures FromLe(ToLe(w, n)) == w
  {
    if n > 0 {
      Pow2Byte(8 * (n - 1));
      LeRoundTripWord(w / 0x100, n - 1);
      assert ToLe(w, n)[1..] == ToLe(w / 0x100, n - 1);
    }
  }

  lemma {:induction false} ShiftByte(w: nat, k: nat)
    ensures ShiftRight(w, k + 8) == ShiftRight(w / 0x100, k)
  {
    assert w / 2 / 2 / 2 / 2 / 2 / 2 / 2 / 2 == w / 0x100;
    assert ShiftRight(w, k + 8) == ShiftRight(w / 2, k + 7) == ShiftRight(w / 2 / 2, k + 6) == ShiftRight(w / 2 / 2 / 2, k + 5);
    var v := w / 2 / 2 / 2;
    assert ShiftRight(v, k + 5) == ShiftRight(v / 2, k + 4) == ShiftRight(v / 2 / 2, k + 3) == ShiftRight(v / 2 / 2 / 2, k + 2);
  }

  /** Little-endian: the byte at index k is digit k of the number to the base 256. */
  lemma {:induction false} ToLeByte(w: nat, n: nat, k: nat)
    requires k < n
    ensures ToLe(w, n)[k] == w / Pow2(8 * k) % 0x100
  {
    hide Pow2; hide ShiftRight;
    ShiftIsDiv(w, 8 * k);
    if k == 0 {
      Pow2Zero();
    } else {
      ToLeByte(w / 0x100, n - 1, k - 1);
      ShiftIsDiv(w / 0x100, 8 * (k - 1));
      ShiftByte(w, 8 * (k - 1));
    }
  }

  /** Only the number modulo 2^(8n) matters to its n lowest bytes. */
  lemma {:induction false} ToLeWraps(w: nat, n: nat)
    ensures ToLe(w % Pow2(8 * n), n) == ToLe(w, n)
  {
    hide Pow2;
    if n > 0 {
      var p := Pow2(8 * (n - 1));
      Pow2Byte(8 * (n - 1));
      ToLeWraps(w / 0x100, n - 1);
      WrapByte(w, p);
    }
  }

  lemma {:induction false} WrapByte(w: nat, p: nat)
    requires 0 < p
    ensures w % (0x100 * p) / 0x100 == w / 0x100 % p && w % (0x100 * p) % 0x100 == w % 0x100
  {
    var v, b := w / 0x100, w % 0x100;
    var q, r := v / p, v % p;
    assert v == p * q + r;
    assert w == (0x100 * p) * q + (0x100 * r + b) by {
      assert 0x100 * (p * q) == (0x100 * p) * q;
    }
    ModUnique(w, 0x100 * p, q, 0x100 * r + b);
  }

  /** The eight bytes of a word as an unsigned long. */
  function WordOf(s: seq<byte>): word64
    requires |s| == 8
  {
    FromLeBound(s);
    Pow2Word64();
    FromLe(s)
  }

  // ---------- Bytes of memory ----------

  ghost predicate MappedRange(m: Mem, a: int, n: nat) {
    forall k :: a <= k < a + n ==> k in m
  }

  predicate WordMapped(m: Mem, a: int) {
    a in m && a + 1 in m && a + 2 in m && a + 3 in m && a + 4 in m && a + 5 in m && a + 6 in m && a + 7 in m
  }

  function WordBytes(m: Mem, a: int): (s: seq<byte>)
    requires WordMapped(m, a)
    ensures |s| == 8 && forall k :: 0 <= k < 8 ==> s[k] == m[a + k]
  {
    [m[a], m[a + 1], m[a + 2], m[a + 3], m[a + 4], m[a + 5], m[a + 6], m[a + 7]]
  }

  /** Memory after the bytes `s` were stored from `a` on. */
  function Store(m: Mem, a: int, s: seq<byte>): (r: Mem)
    ensures forall k :: k in r <==> k in m || a <= k < a + |s|
    ensures forall k :: k in r ==> r[k] == if a <= k < a + |s| then s[k - a] else m[k]
    decreases |s|
  {
    if s == [] then m else Store(m[a := s[0]], a + 1, s[1..])
  }

  // ---------- A traced process and its requests ----------

  datatype Regs = Regs(origRax: word64, rax: word64, rdi: word64, rsi: word64, rsp: word64)

  /** How many more requests the process answers before it is gone. */
  datatype Life = Forever | Requests(n: nat)

  function Spent(l: Life, n: nat): Life {
    match l
    case Forever => Forever
    case Requests(k) => Requests(if n <= k then k - n else 0)
  }

  predicate Lasts(l: Life, n: nat) {
    l.Forever? || n <= l.n
  }

  /** Where a process last stopped: at the entry or the exit of a system call,
      at a fork or exec event inside one, or at the first stop of its life. */
  datatype Phase = Entry | Exit | Event | First

  /** Pending: the first stop has happened but nobody has waited for it yet. */
  datatype RunState = Pending | Running | Stopped

  /** `ran` lists the numbers of the system calls that the kernel really executed. */
  datatype Tracee = Tracee(phase: Phase, run: RunState, regs: Regs, mem: Mem, life: Life, ran: seq<word64>)

  datatype Outcome = Done | Gone | Fatal    // Fatal: the tracer exits

  datatype Reply = Word(w: word64) | NoProcess | Fault

  class Process {
    var t: Tracee

    constructor (t: Tracee)
      ensures this.t == t
    {
      this.t := t;
    }

    /** PTRACE_PEEKDATA. */
    method Peek(a: int) returns (r: Reply)
      modifies this
      ensures r == Peeked(old(t), a)
      ensures t == if old(t).life == Requests(0) then old(t) else old(t).(life := Spent(old(t).life, 1))
    {
      if t.life == Requests(0) {
        return NoProcess;
      }
      t := t.(life := Spent(t.life, 1));
      r := if WordMapped(t.mem, a) then Word(WordOf(WordBytes(t.mem, a))) else Fault;
    }

    /** PTRACE_POKEDATA. */
    method Poke(a: int, w: word64) returns (r: Outcome)
      modifies this
      ensures r == Poked(old(t), a, w).1 && t == Poked(old(t), a, w).0
    {
      if t.life == Requests(0) {
        return Gone;
      }
      t := t.(life := Spent(t.life, 1));
      if WordMapped(t.mem, a) {
        t := t.(mem := Store(t.mem, a, ToLe(w, 8)));
        r := Done;
      } else {
        r := Fatal;
      }
    }

    /** PTRACE_SETREGS. */
    method SetRegs(regs: Regs)
      modifies this
      ensures t == RegsSet(old(t), regs)
    {
      if t.life != Requests(0) {
        t := t.(regs := regs, life := Spent(t.life, 1));
      }
    }

    /** PTRACE_SYSCALL and a wait for the stop that follows, which `next` describes. */
    method ResumeAndWait(next: Next)
      modifies this
      ensures t == Resumed(old(t), next)
    {
      if t.life != Requests(0) {
        t := NextStop(t.(life := Spent(t.life, 1)), next);
      }
    }

    /** `replace_buf`: whole words first, then a read-modify-write of the last, partial one. */
    method ReplaceBuf(src: seq<byte>, dest: int) returns (o: Outcome)
      modifies this
      ensures t == Blitted(old(t), dest, src).0 && o == Blitted(old(t), dest, src).1
    {
      hide Store; hide Reach; hide ToLe; hide WordMapped; hide Blitting; hide Blitted; hide Poked;
      var i: nat, len := 0, |src|;
      ghost var t0 := t;
      BlitStart(t0, dest, src);
      while i + 8 <= len
        invariant i <= len && i % 8 == 0
        invariant Blitting(t0, t, dest, src, i / 8)
      {
        BlitStep(t0, t, dest, src, i / 8);
        var r := Poke(dest + i, WordOf(src[i..i + 8]));
        if r != Done {
          return r;
        }
        i := i + 8;
      }
      BlitEnd(t0, t, dest, src);
      if i < len {
        ghost var t1 := t;
        var p := Peek(dest + i);
        if p == NoProcess {
          return Gone;
        } else if p == Fault {
          return Fatal;
        }
        PeekedBytes(t1, dest + i);
        var bytes := ToLe(p.w, 8);
        ghost var before := WordBytes(t1.mem, dest + i);
        for j := 0 to 8
          invariant |bytes| == 8
          invariant forall k :: 0 <= k < 8 ==>
            bytes[k] == if k < j && i + k < len then src[i + k] else before[k]
        {
          if i + j < len {
            bytes := bytes[j := src[i + j]];
          }
        }
        TailPoke(t0, t1, dest, src, i / 8, bytes);
        o := Poke(dest + i, WordOf(bytes));
      } else {
        o := Done;
      }
    }
  }

  /** What the environment decides about a stop: the registers and memory found there. */
  datatype Next = Next(regs: Regs, mem: Mem)

  /** The error the kernel leaves in rax for a call number that does not exist: -ENOSYS. */
  const NO_SUCH_CALL: word64 := 0xffff_ffff_ffff_ffda

  /** The system-call stop after the current one.  From an entry the kernel
      executes the call, unless its number was made -1; otherwise user code runs
      up to the entry of its next call. */
  function NextStop(t: Tracee, next: Next): Tracee {
    if t.phase == Entry && t.regs.origRax == MINUS_ONE then
      t.(phase := Exit, regs := t.regs.(rax := NO_SUCH_CALL))
    else if t.phase == Entry then
      t.(phase := Exit, regs := t.regs.(rax := next.regs.rax), mem := next.mem, ran := t.ran + [t.regs.origRax])
    else if t.phase == Event then
      t.(phase := Exit, regs := t.regs.(rax := next.regs.rax), mem := next.mem)
    else
      t.(phase := Entry, regs := next.regs, mem := next.mem)
  }

  function RegsSet(t: Tracee, regs: Regs): Tracee {
    if t.life == Requests(0) then t else t.(regs := regs, life := Spent(t.life, 1))
  }

  function Resumed(t: Tracee, next: Next): Tracee {
    if t.life == Requests(0) then t else NextStop(t.(life := Spent(t.life, 1)), next)
  }

  function Peeked(t: Tracee, a: int): Reply {
    if t.life == Requests(0) then NoProcess
    else if WordMapped(t.mem, a) then Word(WordOf(WordBytes(t.mem, a)))
    else Fault
  }

  function Poked(t: Tracee, a: int, w: word64): (Tracee, Outcome) {
    if t.life == Requests(0) then (t, Gone)
    else
      var u := t.(life := Spent(t.life, 1));
      if WordMapped(t.mem, a) then (u.(mem := Store(t.mem, a, ToLe(w, 8))), Done) else (u, Fatal)
  }

  // ---------- The blit, byte by byte ----------

  /** How many of the `n` words from `a` on can be requested one after another. */
  function Reach(m: Mem, l: Life, a: int, n: nat): (r: nat)
    ensures r <= n
    decreases n
  {
    if n == 0 || l == Requests(0) || !WordMapped(m, a) then 0
    else 1 + Reach(m, Spent(l, 1), a + 8, n - 1)
  }

  /** What `replace_buf` leaves behind and how it ends. */
  function Blitted(t: Tracee, dest: int, src: seq<byte>): (Tracee, Outcome) {
    var w := |src| / 8;
    var r := Reach(t.mem, t.life, dest, w);
    var part := t.(mem := Store(t.mem, dest, src[..8 * r]), life := Spent(t.life, r));
    if r < w then Refused(part)
    else if |src| % 8 == 0 then (part, Done)
    else if part.life == Requests(0) || !WordMapped(t.mem, dest + 8 * w) then Refused(part)
    else if part.life == Requests(1) then (part.(life := Requests(0)), Gone)
    else (t.(mem := Store(t.mem, dest, src), life := Spent(t.life, w + 2)), Done)
  }

  /** A request that fails: the process is gone, or the tracer exits. */
  function Refused(t: Tracee): (Tracee, Outcome) {
    if t.life == Requests(0) then (t, Gone) else (t.(life := Spent(t.life, 1)), Fatal)
  }

  /** After `k` whole words. */
  ghost predicate Blitting(t0: Tracee, t: Tracee, dest: int, src: seq<byte>, k: nat) {
    && 8 * k <= |src|
    && (forall j :: 0 <= j < k ==> WordMapped(t0.mem, dest + 8 * j))
    && Lasts(t0.life, k)
    && t == t0.(mem := Store(t0.mem, dest, src[..8 * k]), life := Spent(t0.life, k))
    && t.mem.Keys == t0.mem.Keys
    && Reach(t0.mem, t0.life, dest, |src| / 8) == k + Reach(t0.mem, t.life, dest + 8 * k, |src| / 8 - k)
  }

  lemma BlitStart(t: Tracee, dest: int, src: seq<byte>)
    ensures Blitting(t, t, dest, src, 0)
  {
    assert src[..0] == [];
  }

  lemma StoreAppend(m: Mem, a: int, s: seq<byte>, u: seq<byte>)
    ensures Store(Store(m, a, s), a + |s|, u) == Store(m, a, s + u)
  {
    hide Store;
  }

  lemma {:induction false} ReachAdvance(m: Mem, l: Life, a: int, n: nat)
    requires 0 < n && l != Requests(0) && WordMapped(m, a)
    ensures Reach(m, l, a, n) == 1 + Reach(m, Spent(l, 1), a + 8, n - 1)
  {
  }

  lemma {:induction false} ReachStuck(m: Mem, l: Life, a: int, n: nat)
    requires l == Requests(0) || !WordMapped(m, a)
    ensures Reach(m, l, a, n) == 0
  {
  }

  lemma BlitRefused(t0: Tracee, t: Tracee, dest: int, src: seq<byte>, k: nat)
    requires Blitting(t0, t, dest, src, k) && 8 * k + 8 <= |src|
    requires t.life == Requests(0) || !WordMapped(t.mem, dest + 8 * k)
    ensures Blitted(t0, dest, src) == Refused(t)
  {
    hide Store; hide WordMapped; hide Reach;
    SameMapped(t0.mem, t.mem, dest + 8 * k);
    ReachStuck(t0.mem, t.life, dest + 8 * k, |src| / 8 - k);
  }

  lemma {:induction false} BlitStored(t0: Tracee, t: Tracee, dest: int, src: seq<byte>, k: nat)
    requires Blitting(t0, t, dest, src, k) && 8 * k + 8 <= |src|
    requires t.life != Requests(0) && WordMapped(t.mem, dest + 8 * k)
    ensures var u := t.(mem := Store(t.mem, dest + 8 * k, src[8 * k..8 * k + 8]), life := Spent(t.life, 1));
            Blitting(t0, u, dest, src, k + 1)
  {
    hide Store; hide WordMapped; hide Reach;
    var b := src[8 * k..8 * k + 8];
    var a := dest + 8 * k;
    assert src[..8 * k] + b == src[..8 * (k + 1)];
    StoreAppend(t0.mem, dest, src[..8 * k], b);
    SameMapped(t0.mem, t.mem, a);
    ReachAdvance(t0.mem, t.life, a, |src| / 8 - k);
    WordRange(t.mem, a);
    assert Store(t.mem, a, b).Keys == t.mem.Keys;
  }

  /** One whole word of the blit: it goes through, or the blit ends here. */
  lemma BlitStep(t0: Tracee, t: Tracee, dest: int, src: seq<byte>, k: nat)
    requires Blitting(t0, t, dest, src, k) && 8 * k + 8 <= |src|
    ensures var r := Poked(t, dest + 8 * k, WordOf(src[8 * k..8 * k + 8]));
            if r.1 == Done then Blitting(t0, r.0, dest, src, k + 1) else Blitted(t0, dest, src) == r
  {
    hide Store; hide ToLe; hide WordMapped; hide Reach; hide Blitting; hide Blitted;
    LeRoundTrip(src[8 * k..8 * k + 8]);
    if t.life == Requests(0) || !WordMapped(t.mem, dest + 8 * k) {
      BlitRefused(t0, t, dest, src, k);
    } else {
      BlitStored(t0, t, dest, src, k);
    }
  }

  lemma SameMapped(m: Mem, n: Mem, a: int)
    requires m.Keys == n.Keys
    ensures WordMapped(m, a) <==> WordMapped(n, a)
  {
    assert forall k :: k in m.Keys <==> k in m;
    assert forall k :: k in n.Keys <==> k in n;
  }

  lemma WordRange(m: Mem, a: int)
    requires WordMapped(m, a)
    ensures forall k :: a <= k < a + 8 ==> k in m
  {
  }

  /** After the whole words: the blit is complete, or its tail decides. */
  lemma BlitEnd(t0: Tracee, t: Tracee, dest: int, src: seq<byte>)
    requires Blitting(t0, t, dest, src, |src| / 8)
    ensures |src| % 8 == 0 ==> Blitted(t0, dest, src) == (t, Done)
    ensures |src| % 8 != 0 ==>
              var p := Peeked(t, dest + 8 * (|src| / 8));
              && (p == NoProcess ==> Blitted(t0, dest, src) == (t, Gone))
              && (p == Fault ==> Blitted(t0, dest, src) == (t.(life := Spent(t.life, 1)), Fatal))
  {
    hide Store; hide WordMapped; hide WordBytes; hide WordOf;
    SameMapped(t0.mem, t.mem, dest + 8 * (|src| / 8));
  }

  lemma PeekedBytes(t: Tracee, a: int)
    requires t.life != Requests(0) && WordMapped(t.mem, a)
    ensures Peeked(t, a) == Word(WordOf(WordBytes(t.mem, a)))
    ensures ToLe(WordOf(WordBytes(t.mem, a)), 8) == WordBytes(t.mem, a)
  {
    LeRoundTrip(WordBytes(t.mem, a));
  }

  /** Over the mixed last word, the stored bytes are the source's and the old ones. */
  lemma {:induction false} TailStore(m0: Mem, m: Mem, dest: int, src: seq<byte>, w: nat, bytes: seq<byte>)
    requires w <= |src| < w + 8 && |bytes| == 8
    requires m == Store(m0, dest, src[..w]) && m.Keys == m0.Keys
    requires forall k :: dest + w <= k < dest + w + 8 ==> k in m
    requires forall k :: 0 <= k < 8 ==> bytes[k] == if w + k < |src| then src[w + k] else m[dest + w + k]
    ensures Store(m, dest + w, bytes) == Store(m0, dest, src)
  {
    hide Store;
    var r, q := Store(m, dest + w, bytes), Store(m0, dest, src);
    assert forall k :: k in m <==> k in m.Keys;
    assert forall k :: k in m0 <==> k in m0.Keys;
    forall k | k in r
      ensures k in q && r[k] == q[k]
    {
      if dest + w <= k < dest + w + 8 {
        assert r[k] == bytes[k - (dest + w)];
      }
    }
    assert forall k :: k in q ==> k in r;
  }

  /** Eight bytes: the source's from index `w` on, and beyond its end the old ones. */
  ghost predicate Mixed(bytes: seq<byte>, src: seq<byte>, w: nat, before: seq<byte>) {
    && |bytes| == |before| == 8
    && forall k :: 0 <= k < 8 ==> bytes[k] == if w + k < |src| then src[w + k] else before[k]
  }

  lemma MixedBytes(m: Mem, dest: int, src: seq<byte>, w: nat, bytes: seq<byte>)
    requires WordMapped(m, dest + w) && |bytes| == 8
    requires Mixed(bytes, src, w, WordBytes(m, dest + w))
    ensures forall k :: dest + w <= k < dest + w + 8 ==> k in m
    ensures forall k :: 0 <= k < 8 ==> bytes[k] == if w + k < |src| then src[w + k] else m[dest + w + k]
  {
    WordRange(m, dest + w);
  }

  /** The end of a blit whose tail could be read. */
  function TailEnd(t0: Tracee, t: Tracee, dest: int, src: seq<byte>): (Tracee, Outcome) {
    if t.life == Requests(1) then (t.(life := Requests(0)), Gone)
    else (t0.(mem := Store(t0.mem, dest, src), life := Spent(t0.life, |src| / 8 + 2)), Done)
  }

  lemma TailBlitted(t0: Tracee, t: Tracee, dest: int, src: seq<byte>)
    requires Blitting(t0, t, dest, src, |src| / 8) && |src| % 8 != 0
    requires t.life != Requests(0) && WordMapped(t.mem, dest + 8 * (|src| / 8))
    ensures Blitted(t0, dest, src) == TailEnd(t0, t, dest, src)
  {
    hide Store; hide WordMapped; hide Reach;
    SameMapped(t0.mem, t.mem, dest + 8 * (|src| / 8));
  }

  lemma {:induction false} PokedBytes(t: Tracee, a: int, b: seq<byte>)
    requires |b| == 8 && t.life != Requests(0) && WordMapped(t.mem, a)
    ensures Poked(t, a, WordOf(b)) == (t.(mem := Store(t.mem, a, b), life := Spent(t.life, 1)), Done)
  {
    LeRoundTrip(b);
  }

  lemma {:induction false} WholeWords(t0: Tracee, t: Tracee, dest: int, src: seq<byte>)
    requires Blitting(t0, t, dest, src, |src| / 8)
    ensures var w := 8 * (|src| / 8);
            && w <= |src| < w + 8 && t.mem.Keys == t0.mem.Keys
            && t == t0.(mem := Store(t0.mem, dest, src[..w]), life := Spent(t0.life, |src| / 8))
            && Lasts(t0.life, |src| / 8)
  {
  }

  lemma SpentMore(l: Life, n: nat)
    requires Lasts(l, n) && Spent(l, n) != Requests(0) && Spent(l, n) != Requests(1)
    ensures Spent(Spent(Spent(l, n), 1), 1) == Spent(l, n + 2)
    ensures Spent(Spent(l, n), 1) != Requests(0)
  {
  }

  /** The mixed bytes over the last word, poked: where the blit ends. */
  lemma {:induction false} TailPoked(t0: Tracee, t: Tracee, dest: int, src: seq<byte>, q: nat, bytes: seq<byte>)
    requires q == |src| / 8 && 8 * q < |src|
    requires t == t0.(mem := t.mem, life := Spent(t0.life, q)) && Lasts(t0.life, q)
    requires t.life != Requests(0) && t.life != Requests(1)
    requires WordMapped(t.mem, dest + 8 * q) && |bytes| == 8
    requires Store(t.mem, dest + 8 * q, bytes) == Store(t0.mem, dest, src)
    ensures Poked(t.(life := Spent(t.life, 1)), dest + 8 * q, WordOf(bytes)) == TailEnd(t0, t, dest, src)
  {
    hide Store; hide WordMapped; hide WordOf; hide Spent; hide Lasts; hide Poked;
    SpentMore(t0.life, q);
    PokedBytes(t.(life := Spent(t.life, 1)), dest + 8 * q, bytes);
  }

  lemma PokedGone(t: Tracee, a: int, w: word64)
    requires t.life == Requests(0)
    ensures Poked(t, a, w) == (t, Gone)
  {
  }

  /** The read-modify-write of the last word stores the rest of the source and nothing else. */
  lemma TailPoke(t0: Tracee, t: Tracee, dest: int, src: seq<byte>, q: nat, bytes: seq<byte>)
    requires q == |src| / 8 && 8 * q < |src| && Blitting(t0, t, dest, src, q)
    requires t.life != Requests(0)
    requires WordMapped(t.mem, dest + 8 * q) && Mixed(bytes, src, 8 * q, WordBytes(t.mem, dest + 8 * q))
    ensures Poked(t.(life := Spent(t.life, 1)), dest + 8 * q, WordOf(bytes)) == Blitted(t0, dest, src)
  {
    hide Store; hide Reach; hide WordMapped; hide Blitted; hide WordOf; hide Blitting; hide Spent; hide Lasts; hide Poked;
    hide TailEnd; hide WordBytes;
    MixedLength(bytes, src, 8 * q, WordBytes(t.mem, dest + 8 * q));
    WholeWords(t0, t, dest, src);
    TailBlitted(t0, t, dest, src);
    if t.life == Requests(1) {
      SpentOne();
      TailGone(t0, t, dest, src);
      PokedGone(t.(life := Requests(0)), dest + 8 * q, WordOf(bytes));
    } else {
      MixedBytes(t.mem, dest, src, 8 * q, bytes);
      TailStore(t0.mem, t.mem, dest, src, 8 * q, bytes);
      TailPoked(t0, t, dest, src, q, bytes);
    }
  }

  lemma MixedLength(bytes: seq<byte>, src: seq<byte>, w: nat, before: seq<byte>)
    requires Mixed(bytes, src, w, before)
    ensures |bytes| == 8
  {
  }

  lemma TailGone(t0: Tracee, t: Tracee, dest: int, src: seq<byte>)
    requires t.life == Requests(1)
    ensures TailEnd(t0, t, dest, src) == (t.(life := Requests(0)), Gone)
  {
  }

  lemma SpentOne()
    ensures Spent(Requests(1), 1) == Requests(0)
  {
  }

  // ---------- What the blit means ----------

  /** The bytes of the words that cover `n` bytes. */
  function RoundUp(n: nat): nat { if n % 8 == 0 then n else 8 * (n / 8) + 8 }

  /** The requests a blit of `n` bytes makes. */
  function Requested(n: nat): nat { n / 8 + (if n % 8 == 0 then 0 else 2) }

  lemma {:induction false} ReachAll(m: Mem, l: Life, a: int, n: nat)
    ensures Reach(m, l, a, n) == n <==> Lasts(l, n) && MappedRange(m, a, 8 * n)
    ensures MappedRange(m, a, 8 * Reach(m, l, a, n)) && Lasts(l, Reach(m, l, a, n))
    decreases n
  {
    hide WordMapped; hide MappedRange;
    if n > 0 {
      ReachAll(m, Spent(l, 1), a + 8, n - 1);
      RangeFront(m, a, n);
      if l != Requests(0) && WordMapped(m, a) {
        RangeFront(m, a, Reach(m, l, a, n));
      } else {
        RangeNone(m, a);
      }
    } else {
      RangeNone(m, a);
    }
  }

  /** The blit completes exactly when the process outlives its requests and all
      the words it touches are mapped; it then has stored the source bytes at
      `dest` and nothing else. */
  lemma {:induction false} BlitExact(t: Tracee, dest: int, src: seq<byte>)
    ensures var (u, o) := Blitted(t, dest, src);
            && (o == Done <==> Lasts(t.life, Requested(|src|)) && MappedRange(t.mem, dest, RoundUp(|src|)))
            && (o == Done ==> u == t.(mem := Store(t.mem, dest, src), life := Spent(t.life, Requested(|src|))))
  {
    BlitCases(t, dest, src, |src| / 8);
  }

  lemma {:induction false} BlitCases(t: Tracee, dest: int, src: seq<byte>, w: nat)
    requires w == |src| / 8
    ensures var (u, o) := Blitted(t, dest, src);
            && (o == Done <==> Lasts(t.life, Requested(|src|)) && MappedRange(t.mem, dest, RoundUp(|src|)))
            && (o == Done ==> u == t.(mem := Store(t.mem, dest, src), life := Spent(t.life, Requested(|src|))))
  {
    hide Store; hide Reach; hide WordMapped; hide MappedRange;
    ReachAll(t.mem, t.life, dest, w);
    if |src| % 8 == 0 {
      assert src[..8 * w] == src;
    } else {
      RangeSplit(t.mem, dest, w);
    }
  }

  lemma RangeSplit(m: Mem, a: int, w: nat)
    ensures MappedRange(m, a, 8 * w + 8) <==> MappedRange(m, a, 8 * w) && WordMapped(m, a + 8 * w)
  {
    var b := a + 8 * w;
    if MappedRange(m, a, 8 * w + 8) {
      assert b in m && b + 1 in m && b + 2 in m && b + 3 in m && b + 4 in m && b + 5 in m && b + 6 in m && b + 7 in m;
    }
    if WordMapped(m, b) {
      WordRange(m, b);
    }
  }

  /** The blit ends with the process gone exactly when the process answers fewer
      requests than the blit makes and all words it is asked about are mapped. Then
      the whole words it answered for have been written and nothing else. */
  lemma {:induction false} BlitGone(t: Tracee, dest: int, src: seq<byte>)
    ensures var (u, o) := Blitted(t, dest, src);
            && (o == Gone <==> !Lasts(t.life, Requested(|src|)) && MappedRange(t.mem, dest, 8 * t.life.n))
            && (o == Gone ==> u == t.(mem := Store(t.mem, dest, src[..8 * Min(t.life.n, |src| / 8)]), life := Requests(0)))
  {
    BlitGoneCases(t, dest, src, |src| / 8);
  }

  lemma {:induction false} BlitGoneCases(t: Tracee, dest: int, src: seq<byte>, w: nat)
    requires w == |src| / 8
    ensures var (u, o) := Blitted(t, dest, src);
            && (o == Gone <==> !Lasts(t.life, Requested(|src|)) && MappedRange(t.mem, dest, 8 * t.life.n))
            && (o == Gone ==> u == t.(mem := Store(t.mem, dest, src[..8 * Min(t.life.n, w)]), life := Requests(0)))
  {
    hide Store; hide Reach; hide WordMapped; hide MappedRange;
    ReachAll(t.mem, t.life, dest, w);
    RangeSplit(t.mem, dest, w);
    if t.life.Requests? && t.life.n <= w {
      ReachAll(t.mem, t.life, dest, t.life.n);
      ReachCapped(t.mem, t.life.n, dest, w);
    }
  }

  /** A process with `k` requests left answers for at most `k` words, and for all `k` if they are mapped. */
  lemma {:induction false} ReachCapped(m: Mem, k: nat, a: int, n: nat)
    requires k <= n
    ensures Reach(m, Requests(k), a, n) <= k
    ensures Reach(m, Requests(k), a, n) == k <==> MappedRange(m, a, 8 * k)
    decreases k
  {
    hide WordMapped; hide MappedRange;
    if k > 0 {
      ReachCapped(m, k - 1, a + 8, n - 1);
      RangeFront(m, a, k);
    } else {
      RangeNone(m, a);
    }
  }

  lemma {:induction false} RangeNone(m: Mem, a: int)
    ensures MappedRange(m, a, 0)
  {
  }

  lemma {:induction false} RangeFront(m: Mem, a: int, n: nat)
    requires 0 < n
    ensures MappedRange(m, a, 8 * n) <==> WordMapped(m, a) && MappedRange(m, a + 8, 8 * (n - 1))
  {
    if MappedRange(m, a, 8 * n) {
      assert a in m && a + 1 in m && a + 2 in m && a + 3 in m && a + 4 in m && a + 5 in m && a + 6 in m && a + 7 in m;
    }
    if WordMapped(m, a) && MappedRange(m, a + 8, 8 * (n - 1)) {
      WordRange(m, a);
      forall k | a <= k < a + 8 * n
        ensures k in m
      {
        assert k < a + 8 || a + 8 <= k < a + 8 + 8 * (n - 1);
      }
    }
  }

  /** If the process vanishes before its k-th poke, the tail's included, exactly
      the first 8(k-1) bytes have been written.  The tail's poke is preceded by a
      peek, so the process may vanish before either. */
  lemma {:induction false} BlitVanishes(t: Tracee, dest: int, src: seq<byte>, k: nat)
    requires 0 < k && 8 * (k - 1) < |src|
    requires MappedRange(t.mem, dest, 8 * (k - 1))
    requires t.life == Requests(k - 1)
          || (t.life == Requests(k) && 8 * k > |src| && WordMapped(t.mem, dest + 8 * (k - 1)))
    ensures Blitted(t, dest, src) == (t.(mem := Store(t.mem, dest, src[..8 * (k - 1)]), life := Requests(0)), Gone)
  {
    hide Store; hide Reach; hide WordMapped; hide Blitted; hide MappedRange;
    BlitGone(t, dest, src);
    RangeSplit(t.mem, dest, k - 1);
  }

  /** The buffer alone being mapped is not enough: a one-byte buffer in the last
      byte before an unmapped one makes the tail's eight-byte read fail, and the
      tracer exits. */
  lemma {:induction false} BlitTailFaults(t: Tracee, dest: int, b: byte)
    requires dest in t.mem && dest + 1 !in t.mem && t.life == Forever
    ensures MappedRange(t.mem, dest, 1)
    ensures Blitted(t, dest, [b]).1 == Fatal
  {
  }
}

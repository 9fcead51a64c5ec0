/** `remove_vdso`: finding AT_SYSINFO_EHDR in the auxiliary vector of a new
    program image and overwriting it with AT_IGNORE.  The initial stack is the
    one of the System V AMD64 psABI, sections 3.4.1 and 3.4.3: argc, the
    argument pointers, a zero, the environment pointers, a zero, and then pairs
    of a key and a value up to the key AT_NULL. */
module Vdso {
  import opened Memory
  import opened CString

  const AT_NULL: word64 := 0
  const AT_IGNORE: word64 := 1
  const AT_SYSINFO_EHDR: word64 := 33

  /** The mapped addresses from `pos` on: what bounds the scans. */
  function Above(m: Mem, pos: int): set<int> {
    set a | a in m && a >= pos
  }

  lemma AboveShrinks(m: Mem, pos: int, next: int)
    requires pos in m && pos < next
    ensures Above(m, next) < Above(m, pos)
  {
    assert pos in Above(m, pos) && pos !in Above(m, next);
  }

  /** Where a scan stands or why it stopped. */
  datatype Scan = Here(pos: int, life: Life) | Ended(o: Outcome, life: Life)

  function ReadGood(m: Mem, l: Life, a: int): Probe {
    if l == Requests(0) then Bad(l, Gone)
    else if !GoodWord(m, a) then Bad(Spent(l, 1), Fatal)
    else Good(Spent(l, 1), WordOf(WordBytes(m, a)))
  }

  /** One peek of a scan: a word, or the reason why there is none. */
  datatype Probe = Bad(life: Life, o: Outcome) | Good(life: Life, w: word64)

  /** Steps over words after `pos` until `zeros` more of them were zero. */
  function SkipZeros(m: Mem, l: Life, pos: int, zeros: nat): Scan
    decreases Above(m, pos + 8)
  {
    if zeros == 0 then Here(pos, l)
    else
      match ReadGood(m, l, pos + 8)
      case Bad(l1, o) => Ended(o, l1)
      case Good(l1, w) =>
        AboveShrinks(m, pos + 8, pos + 16);
        SkipZeros(m, l1, pos + 8, if w == AT_NULL then zeros - 1 else zeros)
  }

  /** Looks at the keys at `pos`, `pos + 16`, ... for AT_SYSINFO_EHDR. */
  function FindKey(m: Mem, l: Life, pos: int): Scan
    decreases Above(m, pos)
  {
    match ReadGood(m, l, pos)
    case Bad(l1, o) => Ended(o, l1)
    case Good(l1, w) =>
      if w == AT_NULL then Ended(Done, l1)
      else if w == AT_SYSINFO_EHDR then Here(pos, l1)
      else
        AboveShrinks(m, pos, pos + 16);
        FindKey(m, l1, pos + 16)
  }

  /** What `remove_vdso` leaves behind and how it ends. */
  function VdsoRemoved(t: Tracee): (Tracee, Outcome) {
    if t.life == Requests(0) then (t, Gone)
    else if t.regs.rsp == MINUS_ONE then (t.(life := Spent(t.life, 1)), Fatal)
    else
      match SkipZeros(t.mem, Spent(t.life, 1), t.regs.rsp, 2)
      case Ended(o, l) => (t.(life := l), o)
      case Here(pos, l) =>
        match FindKey(t.mem, l, pos + 8)
        case Ended(o, l1) => (t.(life := l1), o)
        case Here(key, l1) => Poked(t.(life := l1), key, AT_IGNORE)
  }

  /** PTRACE_PEEKDATA as this code uses it: a word that reads as -1 is taken for an error. */
  method PeekGood(p: Process, a: int) returns (r: Probe)
    modifies p
    ensures r == ReadGood(old(p.t).mem, old(p.t).life, a)
    ensures p.t == old(p.t).(life := r.life)
  {
    var v := p.Peek(a);
    if v == NoProcess {
      return Bad(p.t.life, Gone);
    } else if v == Fault || v.w == MINUS_ONE {
      return Bad(p.t.life, Fatal);
    }
    r := Good(p.t.life, v.w);
  }

  /** PTRACE_PEEKUSER of the stack pointer. */
  method PeekRsp(p: Process) returns (o: Outcome)
    modifies p
    ensures o == if old(p.t).life == Requests(0) then Gone else if old(p.t).regs.rsp == MINUS_ONE then Fatal else Done
    ensures p.t == if old(p.t).life == Requests(0) then old(p.t) else old(p.t).(life := Spent(old(p.t).life, 1))
  {
    if p.t.life == Requests(0) {
      return Gone;
    }
    p.t := p.t.(life := Spent(p.t.life, 1));
    o := if p.t.regs.rsp == MINUS_ONE then Fatal else Done;
  }

  /** `remove_vdso`.  Both loops end on every memory, since each step needs a
      mapped word further up. */
  method RemoveVdso(p: Process) returns (o: Outcome)
    modifies p
    ensures p.t == VdsoRemoved(old(p.t)).0 && o == VdsoRemoved(old(p.t)).1
  {
    hide ReadGood;
    ghost var t0 := p.t;
    var pos: int := p.t.regs.rsp;
    o := PeekRsp(p);
    if o != Done {
      return;
    }
    var zeroCount := 0;
    ghost var l0 := p.t.life;
    while zeroCount < 2
      invariant zeroCount <= 2 && p.t == t0.(life := p.t.life)
      invariant SkipZeros(t0.mem, l0, t0.regs.rsp, 2) == SkipZeros(t0.mem, p.t.life, pos, 2 - zeroCount)
      decreases Above(t0.mem, pos + 8)
    {
      ghost var l := p.t.life;
      pos := pos + 8;
      var r := PeekGood(p, pos);
      if r.Bad? {
        return r.o;
      }
      ReadMapped(t0.mem, l, pos);
      AboveShrinks(t0.mem, pos, pos + 8);
      if r.w == AT_NULL {
        zeroCount := zeroCount + 1;
      }
    }
    ghost var l1 := p.t.life;
    pos := pos + 8;
    ghost var start := pos;
    var val := PeekGood(p, pos);
    if val.Bad? {
      return val.o;
    }
    ghost var l := l1;
    while true
      invariant p.t == t0.(life := p.t.life)
      invariant val == ReadGood(t0.mem, l, pos) && val.Good? && p.t.life == val.life
      invariant FindKey(t0.mem, l1, start) == FindKey(t0.mem, l, pos)
      decreases Above(t0.mem, pos)
    {
      ReadMapped(t0.mem, l, pos);
      AboveShrinks(t0.mem, pos, pos + 16);
      if val.w == AT_NULL {
        break;
      }
      if val.w == AT_SYSINFO_EHDR {
        o := p.Poke(pos, AT_IGNORE);
        return;
      }
      l := p.t.life;
      pos := pos + 16;
      val := PeekGood(p, pos);
      if val.Bad? {
        return val.o;
      }
    }
    o := Done;
  }

  lemma ReadMapped(m: Mem, l: Life, a: int)
    requires ReadGood(m, l, a).Good?
    ensures a in m
  {
  }

  // ---------- On any memory ----------

  lemma {:induction false} SkipForever(m: Mem, pos: int, zeros: nat)
    ensures var s := SkipZeros(m, Forever, pos, zeros); s.life == Forever && (s.Ended? ==> s.o == Fatal)
    decreases Above(m, pos + 8)
  {
    if zeros > 0 && GoodWord(m, pos + 8) {
      AboveShrinks(m, pos + 8, pos + 16);
      var w := WordOf(WordBytes(m, pos + 8));
      SkipForever(m, pos + 8, if w == AT_NULL then zeros - 1 else zeros);
    }
  }

  lemma {:induction false} FindForever(m: Mem, pos: int)
    ensures var s := FindKey(m, Forever, pos); s.life == Forever && (s.Ended? ==> s.o != Gone)
    ensures FindKey(m, Forever, pos).Here? ==> FindKey(m, Forever, pos).pos in m
    decreases Above(m, pos)
  {
    if GoodWord(m, pos) {
      var w := WordOf(WordBytes(m, pos));
      if w != AT_NULL && w != AT_SYSINFO_EHDR {
        AboveShrinks(m, pos, pos + 16);
        FindForever(m, pos + 16);
      }
    }
  }

  /** The word at `a` can be scanned and is `w`. */
  ghost predicate Reads(m: Mem, a: int, w: word64) {
    GoodWord(m, a) && WordOf(WordBytes(m, a)) == w
  }

  /** The first zero word from `a` on is `i` words further, and all up to it can be scanned. */
  ghost predicate ZeroAt(m: Mem, a: int, i: nat) {
    && Reads(m, a + 8 * i, AT_NULL)
    && forall k :: 0 <= k < i ==> GoodWord(m, a + 8 * k) && !Reads(m, a + 8 * k, AT_NULL)
  }

  /** Among every other word from `a` on, the first that is AT_NULL or
      AT_SYSINFO_EHDR is number `n`, is `key`, and all up to it can be scanned. */
  ghost predicate KeyAt(m: Mem, a: int, n: nat, key: word64) {
    && Reads(m, a + 16 * n, key)
    && forall k :: 0 <= k < n ==>
         GoodWord(m, a + 16 * k) && !Reads(m, a + 16 * k, AT_NULL) && !Reads(m, a + 16 * k, AT_SYSINFO_EHDR)
  }

  /** Above `rsp`, `i` words before a zero, `j` more before the next zero, and
      then `n` pairs before one whose key is `key`. */
  ghost predicate ScanMeets(m: Mem, rsp: int, i: nat, j: nat, n: nat, key: word64) {
    && ZeroAt(m, rsp + 8, i)
    && ZeroAt(m, rsp + 8 * (i + 2), j)
    && KeyAt(m, rsp + 8 * (i + j + 3), n, key)
  }

  /** The words above the stack pointer read as two zero-terminated lists and
      pairs whose first AT_NULL or AT_SYSINFO_EHDR key is `key`. */
  ghost predicate StackEndsIn(t: Tracee, key: word64) {
    t.regs.rsp != MINUS_ONE && exists i, j, n :: ScanMeets(t.mem, t.regs.rsp, i, j, n, key)
  }

  lemma {:induction false} SkipToZero(m: Mem, pos: int, i: nat, z: nat)
    requires ZeroAt(m, pos + 8, i) && 0 < z
    ensures SkipZeros(m, Forever, pos, z) == SkipZeros(m, Forever, pos + 8 * (i + 1), z - 1)
    decreases i
  {
    hide WordMapped; hide WordOf; hide WordBytes; hide GoodWord;
    if i > 0 {
      assert GoodWord(m, pos + 8 + 8 * 0) && !Reads(m, pos + 8 + 8 * 0, AT_NULL);
      forall k | 0 <= k < i - 1
        ensures GoodWord(m, pos + 16 + 8 * k) && !Reads(m, pos + 16 + 8 * k, AT_NULL)
      {
        assert GoodWord(m, pos + 8 + 8 * (k + 1)) && !Reads(m, pos + 8 + 8 * (k + 1), AT_NULL);
      }
      SkipToZero(m, pos + 8, i - 1, z);
    }
  }

  lemma {:induction false} ZeroMet(m: Mem, pos: int, z: nat) returns (i: nat)
    requires SkipZeros(m, Forever, pos, z).Here? && 0 < z
    ensures ZeroAt(m, pos + 8, i)
    decreases Above(m, pos + 8)
  {
    hide WordMapped; hide WordOf; hide WordBytes;
    if Reads(m, pos + 8, AT_NULL) {
      i := 0;
    } else {
      ReadMapped(m, Forever, pos + 8);
      AboveShrinks(m, pos + 8, pos + 16);
      var h := ZeroMet(m, pos + 8, z);
      i := h + 1;
      forall k | 0 <= k < i
        ensures GoodWord(m, pos + 8 + 8 * k) && !Reads(m, pos + 8 + 8 * k, AT_NULL)
      {
        if k > 0 { assert GoodWord(m, pos + 16 + 8 * (k - 1)) && !Reads(m, pos + 16 + 8 * (k - 1), AT_NULL); }
      }
      assert pos + 16 + 8 * h == pos + 8 + 8 * i;
    }
  }

  lemma {:induction false} FindToKey(m: Mem, pos: int, n: nat, key: word64)
    requires KeyAt(m, pos, n, key) && (key == AT_NULL || key == AT_SYSINFO_EHDR)
    ensures FindKey(m, Forever, pos) == if key == AT_NULL then Ended(Done, Forever) else Here(pos + 16 * n, Forever)
    decreases n
  {
    hide WordMapped; hide WordOf; hide WordBytes; hide GoodWord;
    if n > 0 {
      assert GoodWord(m, pos + 16 * 0) && !Reads(m, pos + 16 * 0, AT_NULL) && !Reads(m, pos + 16 * 0, AT_SYSINFO_EHDR);
      forall k | 0 <= k < n - 1
        ensures GoodWord(m, pos + 16 + 16 * k) && !Reads(m, pos + 16 + 16 * k, AT_NULL)
        ensures !Reads(m, pos + 16 + 16 * k, AT_SYSINFO_EHDR)
      {
        assert GoodWord(m, pos + 16 * (k + 1)) && !Reads(m, pos + 16 * (k + 1), AT_NULL)
          && !Reads(m, pos + 16 * (k + 1), AT_SYSINFO_EHDR);
      }
      FindToKey(m, pos + 16, n - 1, key);
    }
  }

  lemma {:induction false} KeyMet(m: Mem, pos: int, key: word64) returns (n: nat)
    requires key == if FindKey(m, Forever, pos).Here? then AT_SYSINFO_EHDR else AT_NULL
    requires FindKey(m, Forever, pos).Here? || FindKey(m, Forever, pos).o == Done
    ensures KeyAt(m, pos, n, key)
    decreases Above(m, pos)
  {
    hide WordMapped; hide WordOf; hide WordBytes;
    if Reads(m, pos, AT_NULL) || Reads(m, pos, AT_SYSINFO_EHDR) {
      n := 0;
    } else {
      ReadMapped(m, Forever, pos);
      AboveShrinks(m, pos, pos + 16);
      var h := KeyMet(m, pos + 16, key);
      n := h + 1;
      forall k | 0 <= k < n
        ensures GoodWord(m, pos + 16 * k) && !Reads(m, pos + 16 * k, AT_NULL) && !Reads(m, pos + 16 * k, AT_SYSINFO_EHDR)
      {
        if k > 0 {
          assert GoodWord(m, pos + 16 + 16 * (k - 1)) && !Reads(m, pos + 16 + 16 * (k - 1), AT_NULL)
            && !Reads(m, pos + 16 + 16 * (k - 1), AT_SYSINFO_EHDR);
        }
      }
      assert pos + 16 + 16 * h == pos + 16 * n;
    }
  }

  /** A scan that meets `key` ends there; it patches the word if that is the vDSO's key. */
  lemma {:induction false} ScanEnds(t: Tracee, i: nat, j: nat, n: nat, key: word64)
    requires t.life == Forever && t.regs.rsp != MINUS_ONE
    requires ScanMeets(t.mem, t.regs.rsp, i, j, n, key) && (key == AT_NULL || key == AT_SYSINFO_EHDR)
    ensures VdsoRemoved(t) == (
              if key == AT_NULL then t
              else t.(mem := Store(t.mem, t.regs.rsp + 8 * (i + j + 3) + 16 * n, ToLe(AT_IGNORE, 8))), Done)
  {
    hide WordMapped; hide SkipZeros; hide FindKey; hide Store; hide ToLe; hide ZeroAt; hide KeyAt; hide GoodWord;
    var m, a := t.mem, t.regs.rsp;
    var b := a + 8 * (i + 1);
    assert b + 8 == a + 8 * (i + 2);
    SkipToZero(m, a, i, 2);
    SkipToZero(m, b, j, 1);
    SkipNone(m, Forever, b + 8 * (j + 1));
    assert b + 8 * (j + 1) + 8 == a + 8 * (i + j + 3);
    FindToKey(m, a + 8 * (i + j + 3), n, key);
    KeyScanned(m, a + 8 * (i + j + 3), n, key);
  }

  lemma {:induction false} KeyScanned(m: Mem, a: int, n: nat, key: word64)
    requires KeyAt(m, a, n, key)
    ensures WordMapped(m, a + 16 * n) && WordOf(WordBytes(m, a + 16 * n)) == key
  {
  }

  /** A scan that completes has met one of the two keys. */
  lemma {:induction false} ScanMet(t: Tracee) returns (i: nat, j: nat, n: nat, key: word64)
    requires t.life == Forever && VdsoRemoved(t).1 == Done
    ensures t.regs.rsp != MINUS_ONE && (key == AT_NULL || key == AT_SYSINFO_EHDR)
    ensures ScanMeets(t.mem, t.regs.rsp, i, j, n, key)
  {
    hide WordMapped; hide SkipZeros; hide FindKey; hide Store; hide ToLe; hide ZeroAt; hide KeyAt; hide GoodWord;
    var m, a := t.mem, t.regs.rsp;
    SkipForever(m, a, 2);
    i := ZeroMet(m, a, 2);
    SkipToZero(m, a, i, 2);
    var b := a + 8 * (i + 1);
    j := ZeroMet(m, b, 1);
    SkipToZero(m, b, j, 1);
    var c := b + 8 * (j + 1);
    SkipNone(m, Forever, c);
    key := if FindKey(m, Forever, c + 8).Here? then AT_SYSINFO_EHDR else AT_NULL;
    n := KeyMet(m, c + 8, key);
    assert b + 8 == a + 8 * (i + 2) && c + 8 == a + 8 * (i + j + 3);
  }

  lemma {:induction false} KeyPatched(m: Mem, a: int)
    requires Reads(m, a, AT_SYSINFO_EHDR)
    ensures Store(m, a, ToLe(AT_IGNORE, 8)) != m
  {
    hide Store; hide ToLe;
    WordChanges(m, a, [AT_SYSINFO_EHDR], 0, AT_IGNORE);
  }

  /** What `remove_vdso` does to any living process, by the words above its stack
      pointer: it completes exactly when they end in one of the two keys, and
      changes nothing exactly when that key is AT_NULL. */
  lemma {:induction false} ScanDecided(t: Tracee)
    requires t.life == Forever
    ensures VdsoRemoved(t).1 == Done <==> StackEndsIn(t, AT_NULL) || StackEndsIn(t, AT_SYSINFO_EHDR)
    ensures VdsoRemoved(t) == (t, Done) <==> StackEndsIn(t, AT_NULL)
    ensures VdsoRemoved(t).1 == Done && VdsoRemoved(t).0.mem == t.mem <==> StackEndsIn(t, AT_NULL)
  {
    hide VdsoRemoved; hide Store; hide ToLe; hide ScanMeets;
    if VdsoRemoved(t).1 == Done {
      var i, j, n, key := ScanMet(t);
      ScanEnds(t, i, j, n, key);
      if key == AT_SYSINFO_EHDR {
        MetKey(t.mem, t.regs.rsp, i, j, n, key);
        KeyPatched(t.mem, t.regs.rsp + 8 * (i + j + 3) + 16 * n);
      }
    }
    if StackEndsIn(t, AT_NULL) {
      var i, j, n :| ScanMeets(t.mem, t.regs.rsp, i, j, n, AT_NULL);
      ScanEnds(t, i, j, n, AT_NULL);
    }
    if StackEndsIn(t, AT_SYSINFO_EHDR) {
      var i, j, n :| ScanMeets(t.mem, t.regs.rsp, i, j, n, AT_SYSINFO_EHDR);
      ScanEnds(t, i, j, n, AT_SYSINFO_EHDR);
    }
  }

  lemma {:induction false} MetKey(m: Mem, rsp: int, i: nat, j: nat, n: nat, key: word64)
    requires ScanMeets(m, rsp, i, j, n, key)
    ensures Reads(m, rsp + 8 * (i + j + 3) + 16 * n, key)
  {
    hide Reads;
  }

  // ---------- On the initial stack of a program ----------

  datatype Aux = Aux(key: word64, value: word64)

  /** The words from `a` on are `ws`. */
  ghost predicate HasWords(m: Mem, a: int, ws: seq<word64>) {
    forall i {:trigger ws[i]} :: 0 <= i < |ws| ==> WordMapped(m, a + 8 * i) && WordOf(WordBytes(m, a + 8 * i)) == ws[i]
  }

  function Flat(aux: seq<Aux>): seq<word64> {
    if aux == [] then [] else [aux[0].key, aux[0].value] + Flat(aux[1..])
  }

  /** The words of an initial stack; `last` is the value beside AT_NULL. */
  function Layout(argc: word64, argv: seq<word64>, envp: seq<word64>, aux: seq<Aux>, last: word64): seq<word64> {
    [argc] + (argv + [0]) + (envp + [0]) + (Flat(aux) + [AT_NULL, last])
  }

  ghost predicate Pointers(s: seq<word64>) {
    forall i :: 0 <= i < |s| ==> s[i] != 0
  }

  ghost predicate NoMinusOne(s: seq<word64>) {
    forall i :: 0 <= i < |s| ==> s[i] != MINUS_ONE
  }

  /** The index of the first AT_SYSINFO_EHDR pair, or the number of pairs. */
  function VdsoIndex(aux: seq<Aux>): (i: nat)
    ensures i <= |aux| && (i < |aux| ==> aux[i].key == AT_SYSINFO_EHDR)
    ensures forall j :: 0 <= j < i ==> aux[j].key != AT_SYSINFO_EHDR
  {
    if aux == [] || aux[0].key == AT_SYSINFO_EHDR then 0 else 1 + VdsoIndex(aux[1..])
  }

  function Patched(aux: seq<Aux>): seq<Aux> {
    var i := VdsoIndex(aux);
    if i < |aux| then aux[i := aux[i].(key := AT_IGNORE)] else aux
  }

  lemma HasWordsConcat(m: Mem, a: int, s: seq<word64>, u: seq<word64>)
    ensures HasWords(m, a, s + u) <==> HasWords(m, a, s) && HasWords(m, a + 8 * |s|, u)
  {
    hide WordMapped; hide WordOf; hide WordBytes;
    if HasWords(m, a, s + u) {
      forall i | 0 <= i < |s|
        ensures WordMapped(m, a + 8 * i) && WordOf(WordBytes(m, a + 8 * i)) == s[i]
      {
        assert (s + u)[i] == s[i];
      }
      forall i | 0 <= i < |u|
        ensures WordMapped(m, a + 8 * |s| + 8 * i) && WordOf(WordBytes(m, a + 8 * |s| + 8 * i)) == u[i]
      {
        assert (s + u)[|s| + i] == u[i];
        assert a + 8 * (|s| + i) == a + 8 * |s| + 8 * i;
      }
    }
    if HasWords(m, a, s) && HasWords(m, a + 8 * |s|, u) {
      forall i | 0 <= i < |s + u|
        ensures WordMapped(m, a + 8 * i) && WordOf(WordBytes(m, a + 8 * i)) == (s + u)[i]
      {
        if i < |s| {
          assert (s + u)[i] == s[i];
        } else {
          assert (s + u)[i] == u[i - |s|];
          assert a + 8 * |s| + 8 * (i - |s|) == a + 8 * i;
        }
      }
    }
  }

  lemma HeadWord(m: Mem, a: int, s: seq<word64>)
    requires HasWords(m, a, s) && s != []
    ensures GoodWord(m, a) <==> s[0] != MINUS_ONE
    ensures WordMapped(m, a) && WordOf(WordBytes(m, a)) == s[0]
    ensures HasWords(m, a + 8, s[1..])
  {
    assert s == [s[0]] + s[1..];
    HasWordsConcat(m, a, [s[0]], s[1..]);
    assert a + 8 * 0 == a;
  }

  /** Pointers up to a zero word are stepped over, unless one of them reads as -1. */
  lemma {:induction false} SkipPointers(m: Mem, pos: int, s: seq<word64>, z: nat)
    requires HasWords(m, pos + 8, s + [0]) && Pointers(s) && 0 < z
    ensures NoMinusOne(s) ==> SkipZeros(m, Forever, pos, z) == SkipZeros(m, Forever, pos + 8 * (|s| + 1), z - 1)
    ensures !NoMinusOne(s) ==> SkipZeros(m, Forever, pos, z) == Ended(Fatal, Forever)
    decreases |s|
  {
    hide WordMapped; hide WordOf; hide WordBytes; hide HasWords; hide GoodWord;
    HeadWord(m, pos + 8, s + [0]);
    if s != [] {
      assert (s + [0])[1..] == s[1..] + [0];
      if s[0] != MINUS_ONE {
        SkipPointers(m, pos + 8, s[1..], z);
        assert pos + 8 + 8 * (|s[1..]| + 1) == pos + 8 * (|s| + 1);
        assert NoMinusOne(s) <==> NoMinusOne(s[1..]) by {
          assert s == [s[0]] + s[1..];
        }
      }
    }
  }

  ghost predicate CleanKeys(aux: seq<Aux>) {
    forall j :: 0 <= j < VdsoIndex(aux) ==> aux[j].key != MINUS_ONE
  }

  ghost predicate Keys(aux: seq<Aux>) {
    forall j :: 0 <= j < |aux| ==> aux[j].key != AT_NULL
  }

  /** The search looks at keys only, never at values, and stops at the first hit. */
  lemma {:induction false} FindInAux(m: Mem, pos: int, aux: seq<Aux>, last: word64)
    requires HasWords(m, pos, Flat(aux) + [AT_NULL, last]) && Keys(aux)
    ensures var i := VdsoIndex(aux);
            FindKey(m, Forever, pos) ==
              if !CleanKeys(aux) then Ended(Fatal, Forever)
              else if i < |aux| then Here(pos + 16 * i, Forever)
              else Ended(Done, Forever)
    decreases |aux|
  {
    hide WordMapped; hide WordOf; hide WordBytes; hide HasWords; hide GoodWord;
    var ws := Flat(aux) + [AT_NULL, last];
    HeadWord(m, pos, ws);
    if aux != [] {
      HeadWord(m, pos + 8, ws[1..]);
      var rest := Flat(aux[1..]) + [AT_NULL, last];
      assert ws[1..][1..] == rest;
      assert ws[0] == aux[0].key;
      if aux[0].key != AT_SYSINFO_EHDR && aux[0].key != MINUS_ONE {
        FindInAux(m, pos + 16, aux[1..], last);
        CleanTail(aux);
      }
    }
  }

  lemma {:induction false} CleanTail(aux: seq<Aux>)
    requires aux != [] && aux[0].key != AT_SYSINFO_EHDR && aux[0].key != MINUS_ONE
    ensures VdsoIndex(aux) == 1 + VdsoIndex(aux[1..])
    ensures CleanKeys(aux) <==> CleanKeys(aux[1..])
  {
    if CleanKeys(aux) {
      forall j | 0 <= j < VdsoIndex(aux[1..])
        ensures aux[1..][j].key != MINUS_ONE
      {
        assert aux[1..][j] == aux[j + 1];
      }
    }
    if CleanKeys(aux[1..]) {
      forall j | 0 <= j < VdsoIndex(aux)
        ensures aux[j].key != MINUS_ONE
      {
        if j > 0 { assert aux[1..][j - 1] == aux[j]; }
      }
    }
  }

  lemma {:induction false} FlatUpdate(aux: seq<Aux>, i: nat, k: word64)
    requires i < |aux|
    ensures |Flat(aux)| == 2 * |aux|
    ensures Flat(aux[i := aux[i].(key := k)]) == Flat(aux)[2 * i := k]
    decreases |aux|
  {
    var b := aux[i := aux[i].(key := k)];
    FlatLength(aux);
    if i == 0 {
      assert b[1..] == aux[1..];
    } else {
      FlatUpdate(aux[1..], i - 1, k);
      assert b[1..] == aux[1..][i - 1 := aux[1..][i - 1].(key := k)];
    }
  }

  lemma {:induction false} FlatLength(aux: seq<Aux>)
    ensures |Flat(aux)| == 2 * |aux|
  {
    if aux != [] {
      FlatLength(aux[1..]);
    }
  }

  /** Storing one word changes that word of the layout and no other. */
  lemma WordStored(m: Mem, a: int, ws: seq<word64>, k: nat, w: word64)
    requires HasWords(m, a, ws) && k < |ws|
    ensures HasWords(Store(m, a + 8 * k, ToLe(w, 8)), a, ws[k := w])
  {
    hide Store; hide ToLe; hide FromLe;
    var r := Store(m, a + 8 * k, ToLe(w, 8));
    forall i | 0 <= i < |ws|
      ensures WordMapped(r, a + 8 * i) && WordOf(WordBytes(r, a + 8 * i)) == ws[k := w][i]
    {
      var t := ws[i];
      assert WordMapped(m, a + 8 * i) && WordOf(WordBytes(m, a + 8 * i)) == t;
      if i == k {
        assert WordBytes(r, a + 8 * i) == ToLe(w, 8);
        Pow2Word64();
        LeRoundTripWord(w, 8);
      } else {
        assert WordBytes(r, a + 8 * i) == WordBytes(m, a + 8 * i);
      }
    }
  }

  /** An initial stack in memory, at the stack pointer of a process that stays alive. */
  ghost predicate StackOf(t: Tracee, argc: word64, argv: seq<word64>, envp: seq<word64>, aux: seq<Aux>, last: word64) {
    && t.life == Forever && t.regs.rsp != MINUS_ONE
    && Pointers(argv) && Pointers(envp) && Keys(aux)
    && HasWords(t.mem, t.regs.rsp, Layout(argc, argv, envp, aux, last))
  }

  /** The number of words before the auxiliary vector. */
  function Prefix(argv: seq<word64>, envp: seq<word64>): nat {
    |argv| + |envp| + 3
  }

  lemma {:induction false} LayoutParts(m: Mem, a: int, argc: word64, argv: seq<word64>, envp: seq<word64>, aux: seq<Aux>, last: word64)
    requires HasWords(m, a, Layout(argc, argv, envp, aux, last))
    ensures HasWords(m, a + 8, argv + [0])
    ensures HasWords(m, a + 8 * (|argv| + 2), envp + [0])
    ensures HasWords(m, a + 8 * Prefix(argv, envp), Flat(aux) + [AT_NULL, last])
  {
    hide HasWords; hide Flat;
    var s1, s2, s3, s4 := [argc], argv + [0], envp + [0], Flat(aux) + [AT_NULL, last];
    HasWordsConcat(m, a, (s1 + s2) + s3, s4);
    HasWordsConcat(m, a, s1 + s2, s3);
    HasWordsConcat(m, a, s1, s2);
    assert a + 8 * |s1 + s2| == a + 8 * (|argv| + 2);
    assert a + 8 * |(s1 + s2) + s3| == a + 8 * Prefix(argv, envp);
  }

  lemma {:induction false} PatchedLayout(argc: word64, argv: seq<word64>, envp: seq<word64>, aux: seq<Aux>, last: word64)
    requires VdsoIndex(aux) < |aux|
    ensures var k := Prefix(argv, envp) + 2 * VdsoIndex(aux);
            var ws := Layout(argc, argv, envp, aux, last);
            k < |ws| && Layout(argc, argv, envp, Patched(aux), last) == ws[k := AT_IGNORE]
  {
    var i := VdsoIndex(aux);
    FlatUpdate(aux, i, AT_IGNORE);
    hide Flat;
    var front := [argc] + (argv + [0]) + (envp + [0]);
    assert |front| == Prefix(argv, envp);
    assert (front + (Flat(aux) + [AT_NULL, last]))[|front| + 2 * i := AT_IGNORE]
        == front + (Flat(aux)[2 * i := AT_IGNORE] + [AT_NULL, last]);
  }

  ghost predicate Clean(argv: seq<word64>, envp: seq<word64>, aux: seq<Aux>) {
    NoMinusOne(argv) && NoMinusOne(envp) && CleanKeys(aux)
  }

  /** The memory after the patch of the first AT_SYSINFO_EHDR key, if there is one. */
  function PatchedMem(m: Mem, rsp: int, argv: seq<word64>, envp: seq<word64>, aux: seq<Aux>): Mem {
    var i := VdsoIndex(aux);
    if i < |aux| then Store(m, rsp + 8 * (Prefix(argv, envp) + 2 * i), ToLe(AT_IGNORE, 8)) else m
  }

  lemma {:induction false} PatchedStore(m: Mem, rsp: int, argv: seq<word64>, envp: seq<word64>, aux: seq<Aux>, k: nat)
    requires VdsoIndex(aux) < |aux| && k == Prefix(argv, envp) + 2 * VdsoIndex(aux)
    ensures PatchedMem(m, rsp, argv, envp, aux) == Store(m, rsp + 8 * k, ToLe(AT_IGNORE, 8))
  {
    hide Store; hide ToLe; hide VdsoIndex; hide Prefix;
  }

  /** The first scan, over arguments and environment. */
  lemma {:induction false} StackSkipped(t: Tracee, argc: word64, argv: seq<word64>, envp: seq<word64>, aux: seq<Aux>, last: word64)
    requires StackOf(t, argc, argv, envp, aux, last)
    ensures SkipZeros(t.mem, Forever, t.regs.rsp, 2) ==
              if NoMinusOne(argv) && NoMinusOne(envp) then Here(t.regs.rsp + 8 * (Prefix(argv, envp) - 1), Forever)
              else Ended(Fatal, Forever)
    ensures HasWords(t.mem, t.regs.rsp + 8 * Prefix(argv, envp), Flat(aux) + [AT_NULL, last])
  {
    hide HasWords; hide Flat; hide Layout; hide SkipZeros; hide Keys; hide Pointers; hide NoMinusOne;
    var m, a := t.mem, t.regs.rsp;
    LayoutParts(m, a, argc, argv, envp, aux, last);
    var b := a + 8 * (|argv| + 1);
    SkipPointers(m, a, argv, 2);
    assert b + 8 == a + 8 * (|argv| + 2);
    SkipPointers(m, b, envp, 1);
    assert b + 8 * (|envp| + 1) == a + 8 * (Prefix(argv, envp) - 1);
    SkipNone(m, Forever, a + 8 * (Prefix(argv, envp) - 1));
  }

  lemma VdsoScan(t: Tracee, argc: word64, argv: seq<word64>, envp: seq<word64>, aux: seq<Aux>, last: word64)
    requires StackOf(t, argc, argv, envp, aux, last)
    ensures VdsoRemoved(t) ==
              if Clean(argv, envp, aux) then (t.(mem := PatchedMem(t.mem, t.regs.rsp, argv, envp, aux)), Done)
              else (t, Fatal)
  {
    hide HasWords; hide Flat; hide Store; hide ToLe; hide Layout; hide WordMapped; hide SkipZeros; hide FindKey;
    hide NoMinusOne; hide CleanKeys; hide Keys; hide Pointers;
    StackSkipped(t, argc, argv, envp, aux, last);
    var m, a := t.mem, t.regs.rsp;
    var base := a + 8 * Prefix(argv, envp);
    assert a + 8 * (Prefix(argv, envp) - 1) + 8 == base;
    FindInAux(m, base, aux, last);
    var i := VdsoIndex(aux);
    if i < |aux| {
      PatchedLayout(argc, argv, envp, aux, last);
      KeyMapped(m, a, Layout(argc, argv, envp, aux, last), Prefix(argv, envp) + 2 * i);
      assert base + 16 * i == a + 8 * (Prefix(argv, envp) + 2 * i);
    }
  }

  lemma {:induction false} KeyWord(argc: word64, argv: seq<word64>, envp: seq<word64>, aux: seq<Aux>, last: word64)
    requires VdsoIndex(aux) < |aux|
    ensures var k := Prefix(argv, envp) + 2 * VdsoIndex(aux);
            var ws := Layout(argc, argv, envp, aux, last);
            k < |ws| && ws[k] == AT_SYSINFO_EHDR
  {
    var i := VdsoIndex(aux);
    FlatKey(aux, i);
    hide Flat;
    var front := [argc] + (argv + [0]) + (envp + [0]);
    assert |front| == Prefix(argv, envp);
    assert (front + (Flat(aux) + [AT_NULL, last]))[|front| + 2 * i] == Flat(aux)[2 * i];
  }

  lemma {:induction false} FlatKey(aux: seq<Aux>, i: nat)
    requires i < |aux|
    ensures |Flat(aux)| == 2 * |aux| && Flat(aux)[2 * i] == aux[i].key
    decreases |aux|
  {
    FlatLength(aux);
    if i > 0 {
      FlatKey(aux[1..], i - 1);
    }
  }

  /** `remove_vdso` completes on an initial stack exactly when no word it scans
      reads as -1.  It then leaves the same layout with the first
      AT_SYSINFO_EHDR key turned into AT_IGNORE, changing only that word, or
      nothing at all when there is no such key. */
  lemma VdsoExact(t: Tracee, argc: word64, argv: seq<word64>, envp: seq<word64>, aux: seq<Aux>, last: word64)
    requires StackOf(t, argc, argv, envp, aux, last)
    ensures var (u, o) := VdsoRemoved(t);
            && (o == Done <==> Clean(argv, envp, aux))
            && (o != Done ==> u == t)
            && (o == Done ==> u == t.(mem := PatchedMem(t.mem, t.regs.rsp, argv, envp, aux)))
            && (o == Done ==> HasWords(u.mem, t.regs.rsp, Layout(argc, argv, envp, Patched(aux), last)))
  {
    hide HasWords; hide Flat; hide Store; hide ToLe; hide Layout; hide VdsoRemoved;
    VdsoScan(t, argc, argv, envp, aux, last);
    var i := VdsoIndex(aux);
    if i < |aux| {
      PatchedLayout(argc, argv, envp, aux, last);
      WordStored(t.mem, t.regs.rsp, Layout(argc, argv, envp, aux, last), Prefix(argv, envp) + 2 * i, AT_IGNORE);
    }
  }

  lemma {:induction false} SkipNone(m: Mem, l: Life, pos: int)
    ensures SkipZeros(m, l, pos, 0) == Here(pos, l)
  {
  }

  lemma WordIs(m: Mem, a: int, ws: seq<word64>, k: nat)
    requires HasWords(m, a, ws) && k < |ws|
    ensures WordMapped(m, a + 8 * k) && WordOf(WordBytes(m, a + 8 * k)) == ws[k]
  {
    var w := ws[k];
  }

  lemma {:induction false} WordChanges(m: Mem, a: int, ws: seq<word64>, k: nat, w: word64)
    requires HasWords(m, a, ws) && k < |ws| && ws[k] != w
    ensures Store(m, a + 8 * k, ToLe(w, 8)) != m
  {
    hide HasWords; hide Store; hide ToLe; hide WordMapped; hide WordOf; hide WordBytes;
    WordStored(m, a, ws, k, w);
    WordIs(m, a, ws, k);
    WordIs(Store(m, a + 8 * k, ToLe(w, 8)), a, ws[k := w], k);
  }

  lemma StackWords(t: Tracee, argc: word64, argv: seq<word64>, envp: seq<word64>, aux: seq<Aux>, last: word64)
    requires StackOf(t, argc, argv, envp, aux, last)
    ensures HasWords(t.mem, t.regs.rsp, Layout(argc, argv, envp, aux, last))
  {
  }

  lemma KeyMapped(m: Mem, a: int, ws: seq<word64>, k: nat)
    requires HasWords(m, a, ws) && k < |ws|
    ensures WordMapped(m, a + 8 * k)
  {
    var w := ws[k];
  }

  // ---------- What a program reads from the vector ----------

  datatype Found = None | Value(value: word64)

  /** What a reader of the vector finds for key `k`: the value of the first pair
      with that key, before the pair with key 0 that ends the vector. */
  function Lookup(aux: seq<Aux>, k: word64): Found {
    if aux == [] || aux[0].key == 0 then None
    else if aux[0].key == k then Value(aux[0].value)
    else Lookup(aux[1..], k)
  }

  ghost predicate OneVdso(aux: seq<Aux>) {
    forall i, j :: 0 <= i < j < |aux| ==> !(aux[i].key == 33 && aux[j].key == 33)
  }

  /** Every key but 1, "ignore this pair", and 33, the address of the vDSO, is
      found as before; a single pair with key 33 is found no more. */
  lemma {:induction false} PatchedReads(aux: seq<Aux>, k: word64)
    ensures k != 1 && k != 33 ==> Lookup(Patched(aux), k) == Lookup(aux, k)
    ensures OneVdso(aux) ==> Lookup(Patched(aux), 33) == None
  {
    hide OneVdso; hide Patched;
    if aux == [] {
      NothingPatched();
    } else if aux[0].key == AT_SYSINFO_EHDR {
      PatchedHead(aux);
      if OneVdso(aux) {
        NoOther(aux);
        LookupAbsent(aux[1..]);
      }
    } else {
      PatchedReads(aux[1..], k);
      PatchedTail(aux);
      OneVdsoTail(aux);
    }
  }

  lemma NothingPatched()
    ensures Patched([]) == []
  {
  }

  lemma PatchedHead(aux: seq<Aux>)
    requires aux != [] && aux[0].key == AT_SYSINFO_EHDR
    ensures Patched(aux) == [aux[0].(key := AT_IGNORE)] + aux[1..]
  {
  }

  lemma NoOther(aux: seq<Aux>)
    requires OneVdso(aux) && aux != [] && aux[0].key == 33
    ensures forall j :: 0 <= j < |aux[1..]| ==> aux[1..][j].key != 33
  {
    assert forall j :: 0 <= j < |aux[1..]| ==> aux[1..][j] == aux[j + 1];
  }

  lemma OneVdsoTail(aux: seq<Aux>)
    requires aux != []
    ensures OneVdso(aux) ==> OneVdso(aux[1..])
  {
  }

  lemma {:induction false} LookupAbsent(aux: seq<Aux>)
    ensures (forall j :: 0 <= j < |aux| ==> aux[j].key != 33) ==> Lookup(aux, 33) == None
  {
    if aux != [] {
      LookupAbsent(aux[1..]);
    }
  }

  lemma PatchedTail(aux: seq<Aux>)
    requires aux != [] && aux[0].key != AT_SYSINFO_EHDR
    ensures Patched(aux) == [aux[0]] + Patched(aux[1..])
  {
    var i := VdsoIndex(aux[1..]);
    assert aux == [aux[0]] + aux[1..];
    if i < |aux[1..]| {
      assert aux[i + 1 := aux[i + 1].(key := AT_IGNORE)] == [aux[0]] + aux[1..][i := aux[i + 1].(key := AT_IGNORE)];
    }
  }

  /** The bytes of the patch: where the first key 33 was, a 1 and seven zeros, and nothing else has changed. */
  lemma {:induction false} PatchedBytes(m: Mem, rsp: int, argv: seq<word64>, envp: seq<word64>, aux: seq<Aux>, i: nat)
    requires i < |aux| && aux[i].key == 33 && forall j :: 0 <= j < i ==> aux[j].key != 33
    ensures var u := PatchedMem(m, rsp, argv, envp, aux);
            var a := rsp + 8 * (|argv| + |envp| + 3) + 16 * i;
            && (forall k :: a <= k < a + 8 ==> k in u && u[k] == if k == a then 1 else 0)
            && (forall k :: k !in u <==> k !in m && !(a <= k < a + 8))
            && (forall k :: k in m && !(a <= k < a + 8) ==> u[k] == m[k])
  {
    hide Store; hide ToLe;
    assert VdsoIndex(aux) == i;
    OneByte();
  }

  lemma {:induction false} OneByte()
    ensures ToLe(AT_IGNORE, 8) == [1, 0, 0, 0, 0, 0, 0, 0]
  {
    ZeroBytes(7);
    assert ToLe(1, 8) == [1] + ToLe(0, 7);
  }

  lemma {:induction false} ZeroBytes(n: nat)
    ensures forall k :: 0 <= k < n ==> ToLe(0, n)[k] == 0
  {
    if n > 0 {
      ZeroBytes(n - 1);
    }
  }

  /** The words of an initial stack, one by one, as the psABI orders them. */
  lemma {:induction false} LayoutWords(argc: word64, argv: seq<word64>, envp: seq<word64>, aux: seq<Aux>, last: word64)
    ensures var ws := Layout(argc, argv, envp, aux, last);
            var e, x := |argv| + 2, |argv| + |envp| + 3;
            && |ws| == x + 2 * |aux| + 2 && ws[0] == argc
            && (forall i :: 0 <= i < |argv| ==> ws[1 + i] == argv[i]) && ws[e - 1] == 0
            && (forall i :: 0 <= i < |envp| ==> ws[e + i] == envp[i]) && ws[x - 1] == 0
            && (forall i {:trigger aux[i]} :: 0 <= i < |aux| ==> ws[x + 2 * i] == aux[i].key && ws[x + 2 * i + 1] == aux[i].value)
            && ws[x + 2 * |aux|] == 0 && ws[x + 2 * |aux| + 1] == last
  {
    FlatLength(aux);
    var front := [argc] + (argv + [0]) + (envp + [0]);
    var ws := Layout(argc, argv, envp, aux, last);
    var x := |argv| + |envp| + 3;
    assert |front| == x;
    forall i | 0 <= i < |aux|
      ensures ws[x + 2 * i] == aux[i].key && ws[x + 2 * i + 1] == aux[i].value
    {
      FlatPair(aux, i);
    }
  }

  lemma {:induction false} FlatPair(aux: seq<Aux>, i: nat)
    requires i < |aux|
    ensures |Flat(aux)| == 2 * |aux| && Flat(aux)[2 * i] == aux[i].key && Flat(aux)[2 * i + 1] == aux[i].value
    decreases |aux|
  {
    FlatLength(aux);
    if i > 0 {
      FlatPair(aux[1..], i - 1);
    }
  }

  // ---------- If the process vanishes ----------

  /** A process that vanishes only cuts the scan short: it never turns it into a failure. */
  lemma {:induction false} SkipCut(m: Mem, l: Life, pos: int, zeros: nat)
    ensures var s, w := SkipZeros(m, l, pos, zeros), SkipZeros(m, Forever, pos, zeros);
            && (s.Here? ==> w.Here? && s.pos == w.pos)
            && (s.Ended? && s.o != Gone ==> w.Ended? && s.o == w.o)
    decreases Above(m, pos + 8)
  {
    if zeros > 0 && l != Requests(0) && GoodWord(m, pos + 8) {
      AboveShrinks(m, pos + 8, pos + 16);
      var w := WordOf(WordBytes(m, pos + 8));
      SkipCut(m, Spent(l, 1), pos + 8, if w == AT_NULL then zeros - 1 else zeros);
    }
  }

  lemma {:induction false} FindCut(m: Mem, l: Life, pos: int)
    ensures var s, w := FindKey(m, l, pos), FindKey(m, Forever, pos);
            && (s.Here? ==> w.Here? && s.pos == w.pos)
            && (s.Ended? && s.o != Gone ==> w.Ended? && s.o == w.o)
    decreases Above(m, pos)
  {
    if l != Requests(0) && GoodWord(m, pos) {
      var w := WordOf(WordBytes(m, pos));
      if w != AT_NULL && w != AT_SYSINFO_EHDR {
        AboveShrinks(m, pos, pos + 16);
        FindCut(m, Spent(l, 1), pos + 16);
      }
    }
  }

  /** On a stack that the scan can get through, it never fails, however soon the process vanishes. */
  lemma {:induction false} ScanCut(t: Tracee)
    requires StackEndsIn(t, AT_NULL) || StackEndsIn(t, AT_SYSINFO_EHDR)
    ensures VdsoRemoved(t).1 != Fatal
  {
    hide SkipZeros; hide FindKey; hide ScanMeets; hide Store; hide ToLe; hide WordMapped; hide GoodWord;
    var u := t.(life := Forever);
    ForeverEnds(t, u);
    ScanDecided(u);
    SkipCut(t.mem, Spent(t.life, 1), t.regs.rsp, 2);
    SkipForever(t.mem, t.regs.rsp, 2);
    var s := SkipZeros(t.mem, Spent(t.life, 1), t.regs.rsp, 2);
    if s.Here? {
      FindCut(t.mem, s.life, s.pos + 8);
      FindForever(t.mem, s.pos + 8);
    }
  }

  lemma ForeverEnds(t: Tracee, u: Tracee)
    requires t.mem == u.mem && t.regs == u.regs
    ensures StackEndsIn(t, AT_NULL) == StackEndsIn(u, AT_NULL)
    ensures StackEndsIn(t, AT_SYSINFO_EHDR) == StackEndsIn(u, AT_SYSINFO_EHDR)
  {
  }
}

/** Reading a path out of a traced process: `read_child_c_string`, and the
    decision `redirect_dev_random` takes on it. */
module CString {
  import opened Bits
  import opened Memory

  const MAX_BUFFER_SIZE: nat := 1024

  /** The string at `a`: its bytes before the first NUL, but no more than `n` of them. */
  function CStr(m: Mem, a: int, n: nat): (s: seq<byte>)
    ensures |s| <= n
    decreases n
  {
    if n == 0 || a !in m || m[a] == 0 then [] else [m[a]] + CStr(m, a + 1, n - 1)
  }

  /** `strnlen(s, 8)`. */
  function Strnlen(s: seq<byte>): (n: nat)
    ensures n <= |s|
    ensures forall k :: 0 <= k < n ==> s[k] != 0
    ensures n < |s| ==> s[n] == 0
  {
    if s == [] || s[0] == 0 then 0 else 1 + Strnlen(s[1..])
  }

  /** Peeking `n` words from `a` on: the first that fails, or reads as -1, ends the scan. */
  function ScanWords(m: Mem, l: Life, a: int, n: nat): (Life, Outcome)
    decreases n
  {
    if n == 0 then (l, Done)
    else if l == Requests(0) then (l, Gone)
    else if !WordMapped(m, a) || WordOf(WordBytes(m, a)) == MINUS_ONE then (Spent(l, 1), Fatal)
    else ScanWords(m, Spent(l, 1), a + 8, n - 1)
  }

  /** The words that hold the string and its end. */
  function WordsOf(m: Mem, a: int): nat {
    |CStr(m, a, MAX_BUFFER_SIZE - 1)| / 8 + 1
  }

  /** How the read of the string at `a` ends. */
  function StringRead(t: Tracee, a: int): (Tracee, Outcome) {
    var (l, o) := ScanWords(t.mem, t.life, a, WordsOf(t.mem, a));
    (t.(life := l), o)
  }

  lemma {:induction false} CStrPrefix(m: Mem, a: int, n: nat, b: seq<byte>)
    requires forall j :: a <= j < a + |b| ==> j in m && m[j] == b[j - a]
    ensures Strnlen(b) < |b| && Strnlen(b) <= n ==> CStr(m, a, n) == b[..Strnlen(b)]
    ensures n <= Strnlen(b) ==> CStr(m, a, n) == b[..n]
    ensures Strnlen(b) == |b| <= n ==> CStr(m, a, n) == b + CStr(m, a + |b|, n - |b|)
    decreases |b|
  {
    hide CStr; hide Strnlen;
    if b != [] && b[0] != 0 && n > 0 {
      var c := b[1..];
      CStrPrefix(m, a + 1, n - 1, c);
      assert m[a] == b[0];
      CStrStep(m, a, n);
      StrnlenStep(b);
      assert b == [b[0]] + c;
      if Strnlen(c) == |c| <= n - 1 {
        assert CStr(m, a, n) == b + CStr(m, a + |b|, n - |b|);
      }
    } else if b == [] {
      CStrNone(m, a, 0);
      StrnlenNone(b);
      assert b + CStr(m, a, n) == CStr(m, a, n);
    } else {
      assert m[a] == b[0];
      CStrNone(m, a, n);
      StrnlenNone(b);
    }
  }

  lemma {:induction false} StrnlenStep(b: seq<byte>)
    requires b != [] && b[0] != 0
    ensures Strnlen(b) == 1 + Strnlen(b[1..])
  {
  }

  lemma {:induction false} StrnlenNone(b: seq<byte>)
    ensures b == [] || b[0] == 0 ==> Strnlen(b) == 0
  {
  }

  lemma {:induction false} CStrNone(m: Mem, a: int, n: nat)
    ensures n == 0 || a !in m || m[a] == 0 ==> CStr(m, a, n) == []
  {
  }

  lemma CStrStep(m: Mem, a: int, n: nat)
    requires 0 < n && a in m && m[a] != 0
    ensures CStr(m, a, n) == [m[a]] + CStr(m, a + 1, n - 1)
  {
  }

  /** Before word `k` of the scan: `prefix` holds the first `8k` bytes and no NUL was seen. */
  ghost predicate Reading(t0: Tracee, t: Tracee, a: int, k: nat, prefix: seq<byte>) {
    && 8 * k == |prefix| < MAX_BUFFER_SIZE
    && t == t0.(life := t.life)
    && CStr(t.mem, a, MAX_BUFFER_SIZE - 1) == prefix + CStr(t.mem, a + 8 * k, MAX_BUFFER_SIZE - 1 - 8 * k)
    && k < WordsOf(t.mem, a)
    && ScanWords(t.mem, t0.life, a, WordsOf(t.mem, a)) == ScanWords(t.mem, t.life, a + 8 * k, WordsOf(t.mem, a) - k)
  }

  /** Copies the bytes of one word behind what the buffer holds. */
  method CopyBytes(buffer: array<byte>, length: nat, p: seq<byte>, n: nat)
    requires n <= |p| && length + n <= buffer.Length
    modifies buffer
    ensures buffer[..length] == old(buffer[..length])
    ensures buffer[length..length + n] == p[..n]
  {
    for i := 0 to n
      invariant buffer[..length] == old(buffer[..length])
      invariant forall j :: 0 <= j < i ==> buffer[length + j] == p[j]
    {
      buffer[length + i] := p[i];
    }
  }

  lemma ReadingStart(t: Tracee, a: int)
    ensures Reading(t, t, a, 0, [])
  {
  }

  lemma ReadingFails(t0: Tracee, t: Tracee, a: int, k: nat, prefix: seq<byte>)
    requires Reading(t0, t, a, k, prefix)
    requires var p := Peeked(t, a + 8 * k); !p.Word? || p.w == MINUS_ONE
    ensures StringRead(t0, a) == if t.life == Requests(0) then (t, Gone) else (t.(life := Spent(t.life, 1)), Fatal)
  {
    hide CStr; hide WordOf; hide WordBytes; hide WordMapped;
  }

  /** The word in which the string, or the buffer, ends. */
  lemma {:induction false} ReadingEnds(t0: Tracee, t: Tracee, a: int, k: nat, prefix: seq<byte>, b: seq<byte>, n: nat)
    requires Reading(t0, t, a, k, prefix)
    requires t.life != Requests(0) && WordMapped(t.mem, a + 8 * k) && b == WordBytes(t.mem, a + 8 * k)
    requires WordOf(b) != MINUS_ONE
    requires var room := MAX_BUFFER_SIZE - 1 - 8 * k;
             && (Strnlen(b) < 8 || room < 8)
             && n == if Strnlen(b) <= room then Strnlen(b) else room
    ensures prefix + b[..n] == CStr(t0.mem, a, MAX_BUFFER_SIZE - 1)
    ensures StringRead(t0, a) == (t.(life := Spent(t.life, 1)), Done)
  {
    hide CStr; hide WordOf; hide WordBytes; hide WordMapped; hide ScanWords; hide Strnlen;
    ReadingLast(t, a + 8 * k, MAX_BUFFER_SIZE - 1 - 8 * k, b);
    assert WordsOf(t.mem, a) == k + 1;
    ScanOne(t.mem, t.life, a + 8 * k, 1);
  }

  lemma {:induction false} ReadingGoesOn(t0: Tracee, t: Tracee, a: int, k: nat, prefix: seq<byte>, b: seq<byte>)
    requires Reading(t0, t, a, k, prefix)
    requires t.life != Requests(0) && WordMapped(t.mem, a + 8 * k) && b == WordBytes(t.mem, a + 8 * k)
    requires WordOf(b) != MINUS_ONE
    requires Strnlen(b) == 8 && 8 * k + 8 < MAX_BUFFER_SIZE - 1
    ensures Reading(t0, t.(life := Spent(t.life, 1)), a, k + 1, prefix + b)
  {
    hide CStr; hide WordOf; hide WordBytes; hide WordMapped; hide ScanWords; hide Strnlen;
    ReadingOn(t, a + 8 * k, k, MAX_BUFFER_SIZE - 1 - 8 * k, b);
    var rest := CStr(t.mem, a + 8 * k + 8, MAX_BUFFER_SIZE - 1 - 8 * k - 8);
    assert prefix + (b + rest) == (prefix + b) + rest;
    ScanOne(t.mem, t.life, a + 8 * k, WordsOf(t.mem, a) - k);
  }

  /** A good word that is not the last one. */
  lemma ReadingOn(t: Tracee, a: int, k: nat, n: nat, b: seq<byte>)
    requires WordMapped(t.mem, a) && b == WordBytes(t.mem, a) && Strnlen(b) == 8 <= n
    ensures CStr(t.mem, a, n) == b + CStr(t.mem, a + 8, n - 8)
  {
    CStrPrefix(t.mem, a, n, b);
  }

  lemma {:induction false} ReadingLast(t: Tracee, a: int, n: nat, b: seq<byte>)
    requires WordMapped(t.mem, a) && b == WordBytes(t.mem, a)
    requires Strnlen(b) < 8 || n < 8
    ensures CStr(t.mem, a, n) == b[..if Strnlen(b) <= n then Strnlen(b) else n]
  {
    CStrPrefix(t.mem, a, n, b);
  }

  /** The scan of one more good word. */
  lemma ScanOne(m: Mem, l: Life, a: int, n: nat)
    requires 0 < n && l != Requests(0) && WordMapped(m, a) && WordOf(WordBytes(m, a)) != MINUS_ONE
    ensures ScanWords(m, l, a, n) == ScanWords(m, Spent(l, 1), a + 8, n - 1)
    ensures ScanWords(m, l, a, 1) == (Spent(l, 1), Done)
  {
    hide WordOf; hide WordBytes; hide WordMapped;
  }

  /** `read_child_c_string`; `buffer` is its static buffer. */
  method ReadCString(p: Process, a: int, buffer: array<byte>) returns (o: Outcome, length: nat)
    requires buffer.Length == MAX_BUFFER_SIZE
    modifies p, buffer
    ensures p.t == StringRead(old(p.t), a).0 && o == StringRead(old(p.t), a).1
    ensures o == Done ==> length < MAX_BUFFER_SIZE
    ensures o == Done ==> buffer[..length] == CStr(old(p.t.mem), a, MAX_BUFFER_SIZE - 1) && buffer[length] == 0
  {
    hide CStr; hide ScanWords; hide WordsOf; hide WordOf; hide WordBytes; hide ToLe; hide WordMapped; hide Strnlen; hide Reading;
    var done := false;
    var raddr := a;
    length := 0;
    ghost var k, t0 := 0, p.t;
    ReadingStart(t0, a);
    assert buffer[..0] == [];
    while !done && length < MAX_BUFFER_SIZE - 1
      invariant length < MAX_BUFFER_SIZE
      invariant !done ==> length == 8 * k && raddr == a + 8 * k && Reading(t0, p.t, a, k, buffer[..length])
      invariant done ==> buffer[..length] == CStr(t0.mem, a, MAX_BUFFER_SIZE - 1)
      invariant done ==> StringRead(t0, a) == (p.t, Done)
      decreases !done, MAX_BUFFER_SIZE - length
    {
      ghost var t1 := p.t;
      var result := p.Peek(raddr);
      if result == NoProcess || result == Fault || result.w == MINUS_ONE {
        ReadingFails(t0, t1, a, k, buffer[..length]);
        return if result == NoProcess then Gone else Fatal, length;
      }
      PeekedBytes(t1, raddr);
      var bytes := ToLe(result.w, 8);
      var bytesRead := Strnlen(bytes);
      if bytesRead != 8 {
        done := true;
      }
      if length + bytesRead >= MAX_BUFFER_SIZE - 1 {
        bytesRead := MAX_BUFFER_SIZE - 1 - length;
        done := true;
      }
      ghost var before := buffer[..length];
      CopyBytes(buffer, length, bytes, bytesRead);
      assert buffer[..length + bytesRead] == before + bytes[..bytesRead];
      if done {
        ReadingEnds(t0, t1, a, k, before, bytes, bytesRead);
      } else {
        ReadingGoesOn(t0, t1, a, k, before, bytes);
        assert bytes[..8] == bytes;
        k := k + 1;
      }
      length := length + bytesRead;
      raddr := raddr + bytesRead;
    }
    buffer[length] := 0;
    o := Done;
  }

  // ---------- What a completed read says about memory ----------

  /** The NUL-terminated string `s` is at `a`. */
  ghost predicate IsString(m: Mem, a: int, s: seq<byte>) {
    && (forall j :: a <= j < a + |s| ==> j in m && m[j] == s[j - a])
    && a + |s| in m && m[a + |s|] == 0
  }

  predicate GoodWord(m: Mem, a: int) {
    WordMapped(m, a) && WordOf(WordBytes(m, a)) != MINUS_ONE
  }

  /** The scan completes exactly when the process outlives it and every word is mapped and not -1. */
  lemma {:induction false} ScanExact(m: Mem, l: Life, a: int, n: nat)
    ensures ScanWords(m, l, a, n).1 == Done <==> Lasts(l, n) && forall k :: 0 <= k < n ==> GoodWord(m, a + 8 * k)
    ensures ScanWords(m, l, a, n).1 == Done ==> ScanWords(m, l, a, n).0 == Spent(l, n)
    decreases n
  {
    hide WordOf; hide WordBytes; hide WordMapped;
    if n > 0 {
      ScanExact(m, Spent(l, 1), a + 8, n - 1);
      if forall k :: 0 <= k < n ==> GoodWord(m, a + 8 * k) {
        assert GoodWord(m, a + 8 * 0);
        forall k | 0 <= k < n - 1
          ensures GoodWord(m, a + 8 + 8 * k)
        {
          assert GoodWord(m, a + 8 * (k + 1));
        }
      }
      if GoodWord(m, a) && forall k :: 0 <= k < n - 1 ==> GoodWord(m, a + 8 + 8 * k) {
        forall k | 0 <= k < n
          ensures GoodWord(m, a + 8 * k)
        {
          if k > 0 { assert GoodWord(m, a + 8 + 8 * (k - 1)); }
        }
      }
    }
  }

  /** Reading the string at `a` completes exactly when the process outlives the
      peeks and every word up to the string's end is mapped and does not read as -1. */
  lemma StringReadExact(t: Tracee, a: int)
    ensures StringRead(t, a).1 == Done <==>
              Lasts(t.life, WordsOf(t.mem, a)) && forall k :: 0 <= k < WordsOf(t.mem, a) ==> GoodWord(t.mem, a + 8 * k)
    ensures StringRead(t, a).1 == Done ==> StringRead(t, a).0 == t.(life := Spent(t.life, WordsOf(t.mem, a)))
  {
    ScanExact(t.mem, t.life, a, WordsOf(t.mem, a));
  }

  lemma {:induction false} CStrMeaning(m: Mem, a: int, n: nat)
    ensures var s := CStr(m, a, n);
            && (forall j :: a <= j < a + |s| ==> j in m && m[j] == s[j - a] && m[j] != 0)
            && (|s| < n && a + |s| in m ==> m[a + |s|] == 0)
    decreases n
  {
    if n > 0 && a in m && m[a] != 0 {
      CStrMeaning(m, a + 1, n - 1);
      CStrStep(m, a, n);
    }
  }

  lemma {:induction false} CStrOfString(m: Mem, a: int, n: nat, s: seq<byte>)
    requires IsString(m, a, s) && |s| < n
    requires forall k :: 0 <= k < |s| ==> s[k] != 0
    ensures CStr(m, a, n) == s
    decreases n
  {
    if s != [] {
      assert m[a] == s[0];
      CStrOfString(m, a + 1, n - 1, s[1..]);
      CStrStep(m, a, n);
      assert s == [s[0]] + s[1..];
    }
  }

  /** A completed read equals a short string exactly when that string, with its
      NUL, is what memory holds: truncation never makes a false match. */
  lemma {:induction false} ReadDecides(t: Tracee, a: int, s: seq<byte>)
    requires StringRead(t, a).1 == Done
    requires |s| < MAX_BUFFER_SIZE - 1 && forall k :: 0 <= k < |s| ==> s[k] != 0
    ensures CStr(t.mem, a, MAX_BUFFER_SIZE - 1) == s <==> IsString(t.mem, a, s)
  {
    hide CStr; hide WordOf; hide WordBytes; hide ScanWords;
    var c := CStr(t.mem, a, MAX_BUFFER_SIZE - 1);
    if c == s {
      StringReadExact(t, a);
      var k := |c| / 8;
      assert GoodWord(t.mem, a + 8 * k);
      WordRange(t.mem, a + 8 * k);
      CStrMeaning(t.mem, a, MAX_BUFFER_SIZE - 1);
    }
    if IsString(t.mem, a, s) {
      CStrOfString(t.mem, a, MAX_BUFFER_SIZE - 1, s);
    }
  }

  lemma {:induction false} AllOnes(s: seq<byte>)
    requires forall k :: 0 <= k < |s| ==> s[k] == 0xff
    ensures FromLe(s) == Pow2(8 * |s|) - 1
  {
    if s != [] {
      AllOnes(s[1..]);
      Pow2Byte(8 * |s[1..]|);
    }
  }

  /** A legal path that cannot be read: one of its words is eight bytes 0xff.  A
      word that reads as -1 is taken for a failed request, and the tracer exits. */
  lemma {:induction false} OnesRefused(t: Tracee, a: int, path: seq<byte>, k: nat)
    requires t.life == Forever && IsString(t.mem, a, path)
    requires |path| < MAX_BUFFER_SIZE - 1 && forall j :: 0 <= j < |path| ==> path[j] != 0
    requires 8 * k + 8 <= |path| && forall j :: 8 * k <= j < 8 * k + 8 ==> path[j] == 0xff
    ensures StringRead(t, a).1 == Fatal
  {
    hide StringRead; hide CStr; hide ScanWords;
    CStrOfString(t.mem, a, MAX_BUFFER_SIZE - 1, path);
    OnesBad(t.mem, a + 8 * k);
    assert k < WordsOf(t.mem, a);
    StringReadExact(t, a);
    ReadLives(t, a);
  }

  lemma {:induction false} OnesBad(m: Mem, a: int)
    requires forall j :: a <= j < a + 8 ==> j in m && m[j] == 0xff
    ensures !GoodWord(m, a)
  {
    hide FromLe;
    AllOnes(WordBytes(m, a));
    Pow2Word64();
  }

  lemma {:induction false} ReadLives(t: Tracee, a: int)
    requires t.life == Forever
    ensures StringRead(t, a).1 != Gone
  {
    ScanLives(t.mem, a, WordsOf(t.mem, a));
  }

  lemma {:induction false} ScanLives(m: Mem, a: int, n: nat)
    ensures ScanWords(m, Forever, a, n).1 != Gone
    decreases n
  {
    hide WordMapped; hide WordOf; hide WordBytes;
    if n > 0 {
      ScanLives(m, a + 8, n - 1);
    }
  }
}

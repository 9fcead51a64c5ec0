/** Bob Jenkins's hash as `HASH_JEN` computes it: 32-bit words that wrap, twelve
    key bytes a round, and a mixing step that loses no information. */
module Jenkins {
  import opened Bits

  function Plus(x: word, y: word): word { if x + y < WORD then x + y else x + y - WORD }
  function Minus(x: word, y: word): word { if x >= y then x - y else x - y + WORD }

  function XorWord(x: word, y: word): word {
    XorWordBound(x, y);
    Xor(x, y)
  }

  lemma {:induction false} XorWordBound(x: word, y: word)
    ensures Xor(x, y) < WORD
  {
    WordIsPow2();
    XorBound(x, y, 32);
  }

  lemma WordIsPow2()
    ensures Pow2(32) == WORD
  {
    assert Pow2(8) == 256;
    assert Pow2(16) == 0x1_0000;
    assert Pow2(24) == 0x100_0000;
  }

  function ShiftLeft(x: word, k: nat): word { x * Pow2(k) % WORD }

  function ShiftDown(x: word, k: nat): (r: word) {
    ShiftDownBound(x, k);
    ShiftRight(x, k)
  }

  lemma {:induction false} ShiftDownBound(x: nat, k: nat)
    ensures ShiftRight(x, k) <= x
    decreases k
  {
    if k > 0 {
      ShiftDownBound(x / 2, k - 1);
    }
  }

  /** Addition and subtraction wrap around at 2^32. */
  lemma PlusMinusWrap(x: word, y: word)
    ensures Plus(x, y) == (x + y) % 0x1_0000_0000
    ensures Minus(x, y) == (x - y) % 0x1_0000_0000
  {
  }

  /** A left shift drops the `k` highest bits of the word and moves the others up. */
  lemma ShiftLeftDrops(x: word, k: nat)
    requires k <= 32
    ensures ShiftLeft(x, k) == (x % Pow2(32 - k)) * Pow2(k)
  {
    hide Pow2;
    var p, d := Pow2(k), Pow2(32 - k);
    Pow2Sum(k, 32 - k);
    WordIsPow2();
    WrappedProduct(x, d, p);
  }

  lemma WrappedProduct(x: nat, d: nat, p: nat)
    requires 0 < d && 0 < p && d * p == WORD
    ensures x * p % WORD == (x % d) * p
  {
    var q, r := x / d, x % d;
    assert x == d * q + r;
    assert x * p == WORD * q + r * p by {
      assert (d * q + r) * p == (d * q) * p + r * p;
      assert (d * q) * p == (d * p) * q;
    }
    assert r * p < WORD by {
      assert (r + 1) * p <= d * p;
      assert (r + 1) * p == r * p + p;
    }
    ModUnique(x * p, WORD, q, r * p);
  }

  /** A right shift drops the `k` lowest bits. */
  lemma {:induction false} ShiftDownDrops(x: word, k: nat)
    ensures ShiftDown(x, k) == x / Pow2(k)
  {
    ShiftIsDiv(x, k);
  }

  datatype Triple = Triple(i: word, j: word, h: word)

  // ---------- The mixing step ----------

  /** One line of the mix: subtract both other words, then xor in a shifted one. */
  function Line(x: word, y: word, z: word, shifted: word): word {
    XorWord(Minus(Minus(x, y), z), shifted)
  }

  function Unline(x: word, y: word, z: word, shifted: word): word {
    Plus(Plus(XorWord(x, shifted), z), y)
  }

  lemma LineInverse(x: word, y: word, z: word, shifted: word)
    ensures Unline(Line(x, y, z, shifted), y, z, shifted) == x
    ensures Line(Unline(x, y, z, shifted), y, z, shifted) == x
  {
    hide Xor;
    XorInverse(Minus(Minus(x, y), z), shifted);
    XorInverse(x, shifted);
  }

  /** Three lines, with their shift distances: each word in turn absorbs the other two. */
  function Round(t: Triple, r: nat, l: nat, s: nat): Triple {
    var a := Line(t.i, t.j, t.h, ShiftDown(t.h, r));
    var b := Line(t.j, t.h, a, ShiftLeft(a, l));
    var c := Line(t.h, a, b, ShiftDown(b, s));
    Triple(a, b, c)
  }

  function Unround(t: Triple, r: nat, l: nat, s: nat): Triple {
    var c := Unline(t.h, t.i, t.j, ShiftDown(t.j, s));
    var b := Unline(t.j, c, t.i, ShiftLeft(t.i, l));
    var a := Unline(t.i, b, c, ShiftDown(c, r));
    Triple(a, b, c)
  }

  lemma RoundInverse(t: Triple, r: nat, l: nat, s: nat)
    ensures Unround(Round(t, r, l, s), r, l, s) == t
    ensures Round(Unround(t, r, l, s), r, l, s) == t
  {
    hide Line; hide Unline; hide ShiftDown; hide ShiftLeft;
    var a := Line(t.i, t.j, t.h, ShiftDown(t.h, r));
    var b := Line(t.j, t.h, a, ShiftLeft(a, l));
    LineInverse(t.h, a, b, ShiftDown(b, s));
    LineInverse(t.j, t.h, a, ShiftLeft(a, l));
    LineInverse(t.i, t.j, t.h, ShiftDown(t.h, r));
    var c' := Unline(t.h, t.i, t.j, ShiftDown(t.j, s));
    var b' := Unline(t.j, c', t.i, ShiftLeft(t.i, l));
    LineInverse(t.h, t.i, t.j, ShiftDown(t.j, s));
    LineInverse(t.j, c', t.i, ShiftLeft(t.i, l));
    LineInverse(t.i, b', c', ShiftDown(c', r));
  }

  /** `HASH_JEN_MIX`. */
  function Mix(t: Triple): Triple {
    Round(Round(Round(t, 13, 8, 13), 12, 16, 5), 3, 10, 15)
  }

  function Unmix(t: Triple): Triple {
    Unround(Unround(Unround(t, 3, 10, 15), 12, 16, 5), 13, 8, 13)
  }

  /** The mix is a bijection on triples of words, with `Unmix` as its inverse. */
  lemma MixBijective(t: Triple)
    ensures Unmix(Mix(t)) == t
    ensures Mix(Unmix(t)) == t
  {
    hide Round; hide Unround;
    var t1 := Round(t, 13, 8, 13);
    var t2 := Round(t1, 12, 16, 5);
    RoundInverse(t, 13, 8, 13);
    RoundInverse(t1, 12, 16, 5);
    RoundInverse(t2, 3, 10, 15);
    var u1 := Unround(t, 3, 10, 15);
    var u2 := Unround(u1, 12, 16, 5);
    RoundInverse(t, 3, 10, 15);
    RoundInverse(u1, 12, 16, 5);
    RoundInverse(u2, 13, 8, 13);
  }

  /** The mix as the macro writes it: nine groups of three assignments. */
  method JenMix(a0: word, b0: word, c0: word) returns (a: word, b: word, c: word)
    ensures Triple(a, b, c) == Mix(Triple(a0, b0, c0))
  {
    hide XorWord; hide ShiftDown; hide ShiftLeft; hide Minus;
    a, b, c := a0, b0, c0;
    a := Minus(a, b); a := Minus(a, c); a := XorWord(a, ShiftDown(c, 13));
    b := Minus(b, c); b := Minus(b, a); b := XorWord(b, ShiftLeft(a, 8));
    c := Minus(c, a); c := Minus(c, b); c := XorWord(c, ShiftDown(b, 13));
    a := Minus(a, b); a := Minus(a, c); a := XorWord(a, ShiftDown(c, 12));
    b := Minus(b, c); b := Minus(b, a); b := XorWord(b, ShiftLeft(a, 16));
    c := Minus(c, a); c := Minus(c, b); c := XorWord(c, ShiftDown(b, 5));
    a := Minus(a, b); a := Minus(a, c); a := XorWord(a, ShiftDown(c, 3));
    b := Minus(b, c); b := Minus(b, a); b := XorWord(b, ShiftLeft(a, 10));
    c := Minus(c, a); c := Minus(c, b); c := XorWord(c, ShiftDown(b, 15));
  }

  // ---------- Absorbing the key ----------

  /** The byte at `k`, or 0 past the end. */
  function ByteAt(s: seq<byte>, k: nat): byte {
    if k < |s| then s[k] else 0
  }

  /** Four bytes as a little-endian word. */
  function WordAt(s: seq<byte>, k: nat): word {
    ByteAt(s, k) + 0x100 * ByteAt(s, k + 1) + 0x1_0000 * ByteAt(s, k + 2) + 0x100_0000 * ByteAt(s, k + 3)
  }

  /** Bytes 8 to 10, above a low byte left free. */
  function HighAt(s: seq<byte>): word {
    0x100 * ByteAt(s, 8) + 0x1_0000 * ByteAt(s, 9) + 0x100_0000 * ByteAt(s, 10)
  }

  /** A full round: twelve bytes are added to the three words, which are mixed. */
  function Absorb(t: Triple, s: seq<byte>): Triple {
    Mix(Triple(Plus(t.i, WordAt(s, 0)), Plus(t.j, WordAt(s, 4)), Plus(t.h, WordAt(s, 8))))
  }

  /** The last round: the length goes into the low byte of the third word, and
      what is left of the key around it. */
  function Finish(t: Triple, s: seq<byte>, keylen: nat): Triple {
    Mix(Triple(Plus(t.i, WordAt(s, 0)), Plus(t.j, WordAt(s, 4)), Plus(Plus(t.h, keylen % WORD), HighAt(s))))
  }

  function Rest(t: Triple, s: seq<byte>, keylen: nat): Triple
    decreases |s|
  {
    if |s| >= 12 then Rest(Absorb(t, s[..12]), s[12..], keylen) else Finish(t, s, keylen)
  }

  const START: Triple := Triple(0x9e3779b9, 0x9e3779b9, 0xfeedbeef)

  /** The three accumulators at the end of `HASH_JEN`. */
  function HashTriple(key: seq<byte>): Triple {
    Rest(START, key, |key|)
  }

  function Hash(key: seq<byte>): word {
    HashTriple(key).h
  }

  // ---------- The loop ----------

  /** What is left of the key from position `pos`, as the accumulators see it. */
  ghost predicate Absorbed(i: word, j: word, h: word, key: seq<byte>, pos: nat)
    requires pos <= |key|
  {
    Rest(Triple(i, j, h), key[pos..], |key|) == HashTriple(key)
  }

  lemma AbsorbStep(i: word, j: word, h: word, key: seq<byte>, pos: nat)
    requires pos + 12 <= |key| && Absorbed(i, j, h, key, pos)
    ensures var b := key[pos..pos + 12];
            var t := Mix(Triple(Plus(i, WordAt(b, 0)), Plus(j, WordAt(b, 4)), Plus(h, WordAt(b, 8))));
            Absorbed(t.i, t.j, t.h, key, pos + 12)
  {
    hide Mix;
    var s := key[pos..];
    assert s[..12] == key[pos..pos + 12] && s[12..] == key[pos + 12..];
  }

  lemma FourAdds(x: word, a: nat, b: nat, c: nat, d: nat)
    requires a < 256 && b < 256 && c < 256 && d < 256
    ensures Plus(Plus(Plus(Plus(x, 0x100_0000 * d), 0x1_0000 * c), 0x100 * b), a)
         == Plus(x, a + 0x100 * b + 0x1_0000 * c + 0x100_0000 * d)
  {
  }

  lemma ThreeAdds(x: word, b: nat, c: nat, d: nat)
    requires b < 256 && c < 256 && d < 256
    ensures Plus(Plus(Plus(x, 0x100_0000 * d), 0x1_0000 * c), 0x100 * b)
         == Plus(x, 0x100 * b + 0x1_0000 * c + 0x100_0000 * d)
  {
  }

  /** The bytes of the last, short block, added one by one as the switch falls through. */
  method AddTail(i0: word, j0: word, h0: word, s: seq<byte>) returns (i: word, j: word, h: word)
    requires |s| < 12
    ensures i == Plus(i0, WordAt(s, 0)) && j == Plus(j0, WordAt(s, 4))
    ensures h == Plus(h0, HighAt(s))
  {
    var k := |s|;
    FourAdds(i0, ByteAt(s, 0), ByteAt(s, 1), ByteAt(s, 2), ByteAt(s, 3));
    FourAdds(j0, ByteAt(s, 4), ByteAt(s, 5), ByteAt(s, 6), ByteAt(s, 7));
    ThreeAdds(h0, ByteAt(s, 8), ByteAt(s, 9), ByteAt(s, 10));
    i, j, h := i0, j0, h0;
    if k >= 11 { h := Plus(h, 0x100_0000 * (s[10] as int)); }
    if k >= 10 { h := Plus(h, 0x1_0000 * (s[9] as int)); }
    if k >= 9 { h := Plus(h, 0x100 * (s[8] as int)); }
    if k >= 8 { j := Plus(j, 0x100_0000 * (s[7] as int)); }
    if k >= 7 { j := Plus(j, 0x1_0000 * (s[6] as int)); }
    if k >= 6 { j := Plus(j, 0x100 * (s[5] as int)); }
    if k >= 5 { j := Plus(j, s[4]); }
    if k >= 4 { i := Plus(i, 0x100_0000 * (s[3] as int)); }
    if k >= 3 { i := Plus(i, 0x1_0000 * (s[2] as int)); }
    if k >= 2 { i := Plus(i, 0x100 * (s[1] as int)); }
    if k >= 1 { i := Plus(i, s[0]); }
  }

  /** `HASH_JEN`. */
  method HashJen(key: seq<byte>) returns (hashv: word)
    ensures hashv == Hash(key)
  {
    hide Mix; hide Rest; hide WordAt;
    var i: word, j: word, pos: nat := 0x9e3779b9, 0x9e3779b9, 0;
    hashv := 0xfeedbeef;
    assert key[0..] == key;
    while |key| - pos >= 12
      invariant pos <= |key|
      invariant Absorbed(i, j, hashv, key, pos)
    {
      var b := key[pos..pos + 12];
      AbsorbStep(i, j, hashv, key, pos);
      i, j, hashv := JenMix(Plus(i, WordAt(b, 0)), Plus(j, WordAt(b, 4)), Plus(hashv, WordAt(b, 8)));
      pos := pos + 12;
    }
    RestShort(Triple(i, j, hashv), key[pos..], |key|);
    hashv := Plus(hashv, |key| % WORD);
    i, j, hashv := AddTail(i, j, hashv, key[pos..]);
    i, j, hashv := JenMix(i, j, hashv);
  }

  lemma {:induction false} RestShort(t: Triple, s: seq<byte>, keylen: nat)
    requires |s| < 12
    ensures Rest(t, s, keylen) == Finish(t, s, keylen)
  {
  }

  // ---------- Nothing is lost ----------

  lemma PlusInjective(x: word, y: word, a: word, b: word)
    requires Plus(x, a) == Plus(y, b)
    ensures x == y <==> a == b
  {
  }

  lemma WordInjective(s: seq<byte>, t: seq<byte>, k: nat)
    requires WordAt(s, k) == WordAt(t, k)
    ensures forall l :: k <= l < k + 4 ==> ByteAt(s, l) == ByteAt(t, l)
  {
    var a0, a1, a2, a3 := ByteAt(s, k), ByteAt(s, k + 1), ByteAt(s, k + 2), ByteAt(s, k + 3);
    var b0, b1, b2, b3 := ByteAt(t, k), ByteAt(t, k + 1), ByteAt(t, k + 2), ByteAt(t, k + 3);
    assert a3 == b3 && a2 == b2 && a1 == b1 && a0 == b0;
  }

  lemma MixInjective(t: Triple, u: Triple)
    requires Mix(t) == Mix(u)
    ensures t == u
  {
    hide Mix; hide Unmix;
    MixBijective(t);
    MixBijective(u);
  }

  lemma AbsorbInjective(t: Triple, u: Triple, a: seq<byte>, b: seq<byte>)
    requires |a| == |b| == 12
    requires Absorb(t, a) == Absorb(u, b)
    ensures t == u <==> a == b
  {
    hide Mix; hide WordAt;
    MixInjective(Triple(Plus(t.i, WordAt(a, 0)), Plus(t.j, WordAt(a, 4)), Plus(t.h, WordAt(a, 8))),
                 Triple(Plus(u.i, WordAt(b, 0)), Plus(u.j, WordAt(b, 4)), Plus(u.h, WordAt(b, 8))));
    PlusInjective(t.i, u.i, WordAt(a, 0), WordAt(b, 0));
    PlusInjective(t.j, u.j, WordAt(a, 4), WordAt(b, 4));
    PlusInjective(t.h, u.h, WordAt(a, 8), WordAt(b, 8));
    if t == u {
      WordInjective(a, b, 0);
      WordInjective(a, b, 4);
      WordInjective(a, b, 8);
      assert forall k :: 0 <= k < 12 ==> a[k] == ByteAt(a, k) && b[k] == ByteAt(b, k);
      assert a == b;
    }
  }

  lemma FinishInjective(t: Triple, u: Triple, a: seq<byte>, b: seq<byte>, keylen: nat)
    requires |a| == |b| < 12
    requires Finish(t, a, keylen) == Finish(u, b, keylen)
    ensures t == u <==> a == b
  {
    hide Mix; hide WordAt;
    var ha, hb := HighAt(a), HighAt(b);
    var n: word := keylen % WORD;
    MixInjective(Triple(Plus(t.i, WordAt(a, 0)), Plus(t.j, WordAt(a, 4)), Plus(Plus(t.h, n), ha)),
                 Triple(Plus(u.i, WordAt(b, 0)), Plus(u.j, WordAt(b, 4)), Plus(Plus(u.h, n), hb)));
    PlusInjective(t.i, u.i, WordAt(a, 0), WordAt(b, 0));
    PlusInjective(t.j, u.j, WordAt(a, 4), WordAt(b, 4));
    PlusInjective(Plus(t.h, n), Plus(u.h, n), ha, hb);
    if Plus(t.h, n) == Plus(u.h, n) {
      PlusInjective(t.h, u.h, n, n);
    }
    if t == u {
      WordInjective(a, b, 0);
      WordInjective(a, b, 4);
      HighInjective(a, b);
      assert forall k :: 0 <= k < |a| ==> a[k] == ByteAt(a, k) && b[k] == ByteAt(b, k);
      assert a == b;
    }
  }

  lemma HighInjective(a: seq<byte>, b: seq<byte>)
    requires HighAt(a) == HighAt(b)
    ensures ByteAt(a, 8) == ByteAt(b, 8) && ByteAt(a, 9) == ByteAt(b, 9) && ByteAt(a, 10) == ByteAt(b, 10)
  {
    var a0, a1, a2 := ByteAt(a, 8), ByteAt(a, 9), ByteAt(a, 10);
    var b0, b1, b2 := ByteAt(b, 8), ByteAt(b, 9), ByteAt(b, 10);
    assert a2 == b2 && a1 == b1 && a0 == b0;
  }

  lemma {:induction false} RestInjective(t: Triple, u: Triple, s: seq<byte>, keylen: nat)
    requires Rest(t, s, keylen) == Rest(u, s, keylen)
    ensures t == u
    decreases |s|
  {
    if |s| >= 12 {
      RestInjective(Absorb(t, s[..12]), Absorb(u, s[..12]), s[12..], keylen);
      AbsorbInjective(t, u, s[..12], s[..12]);
    } else {
      FinishInjective(t, u, s, s, keylen);
    }
  }

  lemma {:induction false} RestOneBlock(t: Triple, a: seq<byte>, b: seq<byte>, keylen: nat, m: nat)
    requires |a| == |b|
    requires forall k :: 0 <= k < |a| && (k < 12 * m || 12 * m + 12 <= k) ==> a[k] == b[k]
    requires Rest(t, a, keylen) == Rest(t, b, keylen)
    ensures a == b
    decreases |a|
  {
    hide Absorb; hide Finish;
    if |a| < 12 {
      FinishInjective(t, t, a, b, keylen);
    } else if m == 0 {
      assert a[12..] == b[12..];
      RestInjective(Absorb(t, a[..12]), Absorb(t, b[..12]), a[12..], keylen);
      AbsorbInjective(t, t, a[..12], b[..12]);
      assert a == a[..12] + a[12..] && b == b[..12] + b[12..];
    } else {
      assert a[..12] == b[..12];
      RestOneBlock(Absorb(t, a[..12]), a[12..], b[12..], keylen, m - 1);
      assert a == a[..12] + a[12..] && b == b[..12] + b[12..];
    }
  }

  /** Keys of one length that differ only inside one aligned block of twelve
      bytes never leave the same three accumulators. */
  lemma BlockInjective(a: seq<byte>, b: seq<byte>, m: nat)
    requires |a| == |b| && a != b
    requires forall k :: 0 <= k < |a| && (k < 12 * m || 12 * m + 12 <= k) ==> a[k] == b[k]
    ensures HashTriple(a) != HashTriple(b)
  {
    if HashTriple(a) == HashTriple(b) {
      RestOneBlock(START, a, b, |a|, m);
    }
  }

  /** In particular keys of one length of at most twelve bytes, such as pids. */
  lemma ShortKeysInjective(a: seq<byte>, b: seq<byte>)
    requires |a| == |b| <= 12
    ensures HashTriple(a) == HashTriple(b) <==> a == b
  {
    if a != b {
      BlockInjective(a, b, 0);
    }
  }
}

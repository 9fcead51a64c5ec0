/** The hash as numbers.  Two keys whose hashes are written out fix the start
    words, the byte order, the shift distances and the place of the length. */
module HashExample {
  import opened Bits
  import opened Jenkins

  type bit = x: nat | x < 2

  /** Bit `k` of a byte. */
  function Bit(x: bv8, k: bv4): bit
    requires k < 8
  {
    if (x >> k) & 1 == 1 then 1 else 0
  }

  function Number(x: bv8): nat { x as nat }

  /** Eight binary digits, the lowest first. */
  function Value(a: nat, b: nat, c: nat, d: nat, e: nat, f: nat, g: nat, h: nat): nat {
    a + 2 * (b + 2 * (c + 2 * (d + 2 * (e + 2 * (f + 2 * (g + 2 * h))))))
  }

  lemma {:induction false} BitsOf(x: bv8)
    ensures Number(x) == Value(Bit(x, 0), Bit(x, 1), Bit(x, 2), Bit(x, 3), Bit(x, 4), Bit(x, 5), Bit(x, 6), Bit(x, 7))
  {
  }

  function Parity(p: nat, q: nat): nat { if p == q then 0 else 1 }

  lemma {:induction false} XorBit(a: nat, p: nat, b: nat, q: nat)
    requires p < 2 && q < 2
    ensures Xor(p + 2 * a, q + 2 * b) == Parity(p, q) + 2 * Xor(a, b)
  {
    hide Xor;
    HalvesOf(a, p);
    HalvesOf(b, q);
    XorStep(p + 2 * a, q + 2 * b);
  }

  lemma {:induction false} ParityBit(x: bv8, y: bv8, k: bv4)
    requires k < 8
    ensures Bit(x ^ y, k) == Parity(Bit(x, k), Bit(y, k))
  {
  }

  /** Eight low digits, below the words `a` and `b`. */
  lemma {:induction false} XorDigits(a: nat, a0: bit, a1: bit, a2: bit, a3: bit, a4: bit, a5: bit, a6: bit, a7: bit,
                                     b: nat, b0: bit, b1: bit, b2: bit, b3: bit, b4: bit, b5: bit, b6: bit, b7: bit)
    ensures Xor(Value(a0, a1, a2, a3, a4, a5, a6, a7) + 0x100 * a, Value(b0, b1, b2, b3, b4, b5, b6, b7) + 0x100 * b)
         == Value(Parity(a0, b0), Parity(a1, b1), Parity(a2, b2), Parity(a3, b3),
                  Parity(a4, b4), Parity(a5, b5), Parity(a6, b6), Parity(a7, b7)) + 0x100 * Xor(a, b)
  {
    hide Xor; hide Parity;
    var s7, t7 := a7 + 2 * a, b7 + 2 * b;
    var s6, t6 := a6 + 2 * s7, b6 + 2 * t7;
    var s5, t5 := a5 + 2 * s6, b5 + 2 * t6;
    var s4, t4 := a4 + 2 * s5, b4 + 2 * t5;
    var s3, t3 := a3 + 2 * s4, b3 + 2 * t4;
    var s2, t2 := a2 + 2 * s3, b2 + 2 * t3;
    var s1, t1 := a1 + 2 * s2, b1 + 2 * t2;
    XorBit(a, a7, b, b7);
    XorBit(s7, a6, t7, b6);
    XorBit(s6, a5, t6, b5);
    XorBit(s5, a4, t5, b4);
    XorBit(s4, a3, t4, b3);
    XorBit(s3, a2, t3, b2);
    XorBit(s2, a1, t2, b1);
    XorBit(s1, a0, t1, b0);
  }

  /** Exclusive or of numbers is that of their low bytes, bit by bit, below that of the rest. */
  lemma {:induction false} ByteXor(a: nat, x: bv8, b: nat, y: bv8)
    ensures Xor(Number(x) + 0x100 * a, Number(y) + 0x100 * b) == Number(x ^ y) + 0x100 * Xor(a, b)
  {
    hide Xor; hide Bit; hide Value; hide Parity; hide Number;
    BitsOf(x);
    BitsOf(y);
    BitsOf(x ^ y);
    ParityBit(x, y, 0); ParityBit(x, y, 1); ParityBit(x, y, 2); ParityBit(x, y, 3);
    ParityBit(x, y, 4); ParityBit(x, y, 5); ParityBit(x, y, 6); ParityBit(x, y, 7);
    XorDigits(a, Bit(x, 0), Bit(x, 1), Bit(x, 2), Bit(x, 3), Bit(x, 4), Bit(x, 5), Bit(x, 6), Bit(x, 7),
              b, Bit(y, 0), Bit(y, 1), Bit(y, 2), Bit(y, 3), Bit(y, 4), Bit(y, 5), Bit(y, 6), Bit(y, 7));
  }

  /** A word from its bytes, the highest first. */
  function Bytes(a: bv8, b: bv8, c: bv8, d: bv8): nat {
    Number(d) + 0x100 * (Number(c) + 0x100 * (Number(b) + 0x100 * Number(a)))
  }

  lemma {:induction false} XorBytes(a: bv8, b: bv8, c: bv8, d: bv8, e: bv8, f: bv8, g: bv8, h: bv8)
    ensures Xor(Bytes(a, b, c, d), Bytes(e, f, g, h)) == Bytes(a ^ e, b ^ f, c ^ g, d ^ h)
  {
    hide Xor; hide Number;
    var s1, t1 := Number(a), Number(e);
    var s2, t2 := Number(b) + 0x100 * s1, Number(f) + 0x100 * t1;
    var s3, t3 := Number(c) + 0x100 * s2, Number(g) + 0x100 * t2;
    XorZero();
    ByteXor(0, a, 0, e);
    ByteXor(s1, b, t1, f);
    ByteXor(s2, c, t2, g);
    ByteXor(s3, d, t3, h);
  }

  /** The shift distances of the mix, as factors. */
  lemma {:induction false} Distances()
    ensures Pow2(3) == 8 && Pow2(5) == 0x20 && Pow2(8) == 0x100 && Pow2(10) == 0x400
    ensures Pow2(12) == 0x1000 && Pow2(13) == 0x2000 && Pow2(15) == 0x8000 && Pow2(16) == 0x1_0000
  {
    Pow2Sum(3, 5);
    Pow2Sum(5, 5);
    Pow2Sum(5, 8);
    Pow2Sum(8, 8);
    Pow2Sum(5, 10);
  }

  lemma {:induction false} Shifts(x: word, k: nat, p: nat)
    requires Pow2(k) == p
    ensures ShiftDown(x, k) == x / p && ShiftLeft(x, k) == x * p % WORD
  {
    ShiftIsDiv(x, k);
  }

  /** One round by numbers: the three differences, what is xored in, and the results. */
  lemma {:induction false} RoundIs(t: Triple, r: nat, l: nat, s: nat, u: Triple)
    requires Xor(Minus(Minus(t.i, t.j), t.h), ShiftDown(t.h, r)) == u.i
    requires Xor(Minus(Minus(t.j, t.h), u.i), ShiftLeft(u.i, l)) == u.j
    requires Xor(Minus(Minus(t.h, u.i), u.j), ShiftDown(u.j, s)) == u.h
    ensures Round(t, r, l, s) == u
  {
    hide Xor; hide Minus; hide ShiftDown; hide ShiftLeft;
  }

  lemma {:induction false} One1()
    ensures Round(Triple(0x9e3779ba, 0x9e3779b9, 0xfeedbef3), 13, 8, 13)
         == Triple(0x0115b663, 0x8b826763, 0x7251fd3e)
  {
    hide Xor; hide ShiftDown; hide ShiftLeft; hide Pow2;
    Distances();
    Shifts(0xfeedbef3, 13, 0x2000);
    Shifts(0x115b663, 8, 0x100);
    Shifts(0x8b826763, 13, 0x2000);
    XorBytes(0x01, 0x12, 0x41, 0x0e, 0x00, 0x07, 0xf7, 0x6d);
    XorBytes(0x9e, 0x34, 0x04, 0x63, 0x15, 0xb6, 0x63, 0x00);
    XorBytes(0x72, 0x55, 0xa1, 0x2d, 0x00, 0x04, 0x5c, 0x13);
    RoundIs(Triple(0x9e3779ba, 0x9e3779b9, 0xfeedbef3), 13, 8, 13,
            Triple(0x0115b663, 0x8b826763, 0x7251fd3e));
  }

  lemma {:induction false} One2()
    ensures Round(Triple(0x0115b663, 0x8b826763, 0x7251fd3e), 12, 16, 5)
         == Triple(0x034674dd, 0x6134f548, 0x0edf34b3)
  {
    hide Xor; hide ShiftDown; hide ShiftLeft; hide Pow2;
    Distances();
    Shifts(0x7251fd3e, 12, 0x1000);
    Shifts(0x34674dd, 16, 0x10000);
    Shifts(0x6134f548, 5, 0x20);
    XorBytes(0x03, 0x41, 0x51, 0xc2, 0x00, 0x07, 0x25, 0x1f);
    XorBytes(0x15, 0xe9, 0xf5, 0x48, 0x74, 0xdd, 0x00, 0x00);
    XorBytes(0x0d, 0xd6, 0x93, 0x19, 0x03, 0x09, 0xa7, 0xaa);
    RoundIs(Triple(0x0115b663, 0x8b826763, 0x7251fd3e), 12, 16, 5,
            Triple(0x034674dd, 0x6134f548, 0x0edf34b3));
  }

  lemma {:induction false} One3()
    ensures Round(Triple(0x034674dd, 0x6134f548, 0x0edf34b3), 3, 10, 15)
         == Triple(0x92e9ac74, 0x19ddc421, 0x6217f7a5)
  {
    hide Xor; hide ShiftDown; hide ShiftLeft; hide Pow2;
    Distances();
    Shifts(0xedf34b3, 3, 0x8);
    Shifts(0x92e9ac74, 10, 0x400);
    Shifts(0x19ddc421, 15, 0x8000);
    XorBytes(0x93, 0x32, 0x4a, 0xe2, 0x01, 0xdb, 0xe6, 0x96);
    XorBytes(0xbf, 0x6c, 0x14, 0x21, 0xa6, 0xb1, 0xd0, 0x00);
    XorBytes(0x62, 0x17, 0xc4, 0x1e, 0x00, 0x00, 0x33, 0xbb);
    RoundIs(Triple(0x034674dd, 0x6134f548, 0x0edf34b3), 3, 10, 15,
            Triple(0x92e9ac74, 0x19ddc421, 0x6217f7a5));
  }

  /** The hash of a process id: the four bytes of 1. */
  lemma {:induction false} HashOfOne()
    ensures HashTriple([1, 0, 0, 0]) == Triple(0x92e9ac74, 0x19ddc421, 0x6217f7a5)
    ensures Hash([1, 0, 0, 0]) == 0x6217f7a5
  {
    hide Round;
    One1(); One2(); One3();
    assert Finish(START, [1, 0, 0, 0], 4) == Mix(Triple(0x9e3779ba, 0x9e3779b9, 0xfeedbef3));
  }

  lemma {:induction false} Long1()
    ensures Round(Triple(0xa23a7bba, 0xa63e7fbe, 0x0af8c8f8), 13, 8, 13)
         == Triple(0xf10364c2, 0xa9269004, 0x70cb9d06)
  {
    hide Xor; hide ShiftDown; hide ShiftLeft; hide Pow2;
    Distances();
    Shifts(0xaf8c8f8, 13, 0x2000);
    Shifts(0xf10364c2, 8, 0x100);
    Shifts(0xa9269004, 13, 0x2000);
    XorBytes(0xf1, 0x03, 0x33, 0x04, 0x00, 0x00, 0x57, 0xc6);
    XorBytes(0xaa, 0x42, 0x52, 0x04, 0x03, 0x64, 0xc2, 0x00);
    XorBytes(0x70, 0xce, 0xd4, 0x32, 0x00, 0x05, 0x49, 0x34);
    RoundIs(Triple(0xa23a7bba, 0xa63e7fbe, 0x0af8c8f8), 13, 8, 13,
            Triple(0xf10364c2, 0xa9269004, 0x70cb9d06));
  }

  lemma {:induction false} Long2()
    ensures Round(Triple(0xf10364c2, 0xa9269004, 0x70cb9d06), 12, 16, 5)
         == Triple(0xd7163b01, 0x5a45b7fd, 0x3dbd87b7)
  {
    hide Xor; hide ShiftDown; hide ShiftLeft; hide Pow2;
    Distances();
    Shifts(0x70cb9d06, 12, 0x1000);
    Shifts(0xd7163b01, 16, 0x10000);
    Shifts(0x5a45b7fd, 5, 0x20);
    XorBytes(0xd7, 0x11, 0x37, 0xb8, 0x00, 0x07, 0x0c, 0xb9);
    XorBytes(0x61, 0x44, 0xb7, 0xfd, 0x3b, 0x01, 0x00, 0x00);
    XorBytes(0x3f, 0x6f, 0xaa, 0x08, 0x02, 0xd2, 0x2d, 0xbf);
    RoundIs(Triple(0xf10364c2, 0xa9269004, 0x70cb9d06), 12, 16, 5,
            Triple(0xd7163b01, 0x5a45b7fd, 0x3dbd87b7));
  }

  lemma {:induction false} Long3()
    ensures Round(Triple(0xd7163b01, 0x5a45b7fd, 0x3dbd87b7), 3, 10, 15)
         == Triple(0x38a54bbb, 0x76cc088b, 0x8e4cdee9)
  {
    hide Xor; hide ShiftDown; hide ShiftLeft; hide Pow2;
    Distances();
    Shifts(0x3dbd87b7, 3, 0x8);
    Shifts(0x38a54bbb, 10, 0x400);
    Shifts(0x76cc088b, 15, 0x8000);
    XorBytes(0x3f, 0x12, 0xfb, 0x4d, 0x07, 0xb7, 0xb0, 0xf6);
    XorBytes(0xe3, 0xe2, 0xe4, 0x8b, 0x95, 0x2e, 0xec, 0x00);
    XorBytes(0x8e, 0x4c, 0x33, 0x71, 0x00, 0x00, 0xed, 0x98);
    RoundIs(Triple(0xd7163b01, 0x5a45b7fd, 0x3dbd87b7), 3, 10, 15,
            Triple(0x38a54bbb, 0x76cc088b, 0x8e4cdee9));
  }

  lemma {:induction false} Long4()
    ensures Round(Triple(0x48b459c8, 0x8adf1a9c, 0xa562f400), 13, 8, 13)
         == Triple(0x1877603b, 0xba64fd61, 0xd2834543)
  {
    hide Xor; hide ShiftDown; hide ShiftLeft; hide Pow2;
    Distances();
    Shifts(0xa562f400, 13, 0x2000);
    Shifts(0x1877603b, 8, 0x100);
    Shifts(0xba64fd61, 13, 0x2000);
    XorBytes(0x18, 0x72, 0x4b, 0x2c, 0x00, 0x05, 0x2b, 0x17);
    XorBytes(0xcd, 0x04, 0xc6, 0x61, 0x77, 0x60, 0x3b, 0x00);
    XorBytes(0xd2, 0x86, 0x96, 0x64, 0x00, 0x05, 0xd3, 0x27);
    RoundIs(Triple(0x48b459c8, 0x8adf1a9c, 0xa562f400), 13, 8, 13,
            Triple(0x1877603b, 0xba64fd61, 0xd2834543));
  }

  lemma {:induction false} Long5()
    ensures Round(Triple(0x1877603b, 0xba64fd61, 0xd2834543), 12, 16, 5)
         == Triple(0x8b8235a3, 0x69fc827b, 0xde4b6936)
  {
    hide Xor; hide ShiftDown; hide ShiftLeft; hide Pow2;
    Distances();
    Shifts(0xd2834543, 12, 0x1000);
    Shifts(0x8b8235a3, 16, 0x10000);
    Shifts(0x69fc827b, 5, 0x20);
    XorBytes(0x8b, 0x8f, 0x1d, 0x97, 0x00, 0x0d, 0x28, 0x34);
    XorBytes(0x5c, 0x5f, 0x82, 0x7b, 0x35, 0xa3, 0x00, 0x00);
    XorBytes(0xdd, 0x04, 0x8d, 0x25, 0x03, 0x4f, 0xe4, 0x13);
    RoundIs(Triple(0x1877603b, 0xba64fd61, 0xd2834543), 12, 16, 5,
            Triple(0x8b8235a3, 0x69fc827b, 0xde4b6936));
  }

  lemma {:induction false} Long6()
    ensures Round(Triple(0x8b8235a3, 0x69fc827b, 0xde4b6936), 3, 10, 15)
         == Triple(0x58f324d4, 0xfe2ea471, 0x872863ac)
  {
    hide Xor; hide ShiftDown; hide ShiftLeft; hide Pow2;
    Distances();
    Shifts(0xde4b6936, 3, 0x8);
    Shifts(0x58f324d4, 10, 0x400);
    Shifts(0xfe2ea471, 15, 0x8000);
    XorBytes(0x43, 0x3a, 0x49, 0xf2, 0x1b, 0xc9, 0x6d, 0x26);
    XorBytes(0x32, 0xbd, 0xf4, 0x71, 0xcc, 0x93, 0x50, 0x00);
    XorBytes(0x87, 0x29, 0x9f, 0xf1, 0x00, 0x01, 0xfc, 0x5d);
    RoundIs(Triple(0x8b8235a3, 0x69fc827b, 0xde4b6936), 3, 10, 15,
            Triple(0x58f324d4, 0xfe2ea471, 0x872863ac));
  }

  const KEY: seq<byte> := [1, 2, 3, 4, 5, 6, 7, 8, 9, 10, 11, 12, 13, 14, 15, 16, 17, 18, 19, 20, 21, 22, 23]

  /** A key of one full block and a rest of eleven bytes. */
  lemma {:induction false} HashOfLong()
    ensures HashTriple(KEY) == Triple(0x58f324d4, 0xfe2ea471, 0x872863ac)
    ensures Hash(KEY) == 0x872863ac
  {
    hide Round;
    Long1(); Long2(); Long3(); Long4(); Long5(); Long6();
    var block, rest := KEY[..12], KEY[12..];
    assert Absorb(START, block) == Mix(Triple(0xa23a7bba, 0xa63e7fbe, 0x0af8c8f8));
    assert Finish(Absorb(START, block), rest, 23) == Mix(Triple(0x48b459c8, 0x8adf1a9c, 0xa562f400));
    assert Rest(Absorb(START, block), rest, 23) == Finish(Absorb(START, block), rest, 23);
  }
}

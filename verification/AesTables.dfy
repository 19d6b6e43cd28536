/**
 The tables of `AES/include/aestab.h` and the byte and word arithmetic of `AES/src/aes.c`
 and `AES/include/aes.h`, with what the tables hold: the substitution box is the affine image
 of the inverse in the field of 256 elements, and the round tables hold its column-mixed values.
 */
module AesTables {
  // ---------- words ----------

  /** `upr(x,1)`, `upr(x,2)` and `upr(x,3)`: rotation by one, two and three bytes. */
  function Upr1(x: bv32): bv32 {
    (x << 8) | (x >> 24)
  }

  function Upr2(x: bv32): bv32 {
    (x << 16) | (x >> 16)
  }

  function Upr3(x: bv32): bv32 {
    (x << 24) | (x >> 8)
  }

  /** `bval(x,0)` to `bval(x,3)`. */
  function Bval0(x: bv32): bv8 {
    (x & 0xff) as bv8
  }

  function Bval1(x: bv32): bv8 {
    ((x >> 8) & 0xff) as bv8
  }

  function Bval2(x: bv32): bv8 {
    ((x >> 16) & 0xff) as bv8
  }

  function Bval3(x: bv32): bv8 {
    ((x >> 24) & 0xff) as bv8
  }

  function Bytes2Word(b0: bv8, b1: bv8, b2: bv8, b3: bv8): bv32 {
    (b3 as bv32 << 24) | (b2 as bv32 << 16) | (b1 as bv32 << 8) | b0 as bv32
  }

  lemma BytesOfWord(b0: bv8, b1: bv8, b2: bv8, b3: bv8)
    ensures var w := Bytes2Word(b0, b1, b2, b3);
      Bval0(w) == b0 && Bval1(w) == b1 && Bval2(w) == b2 && Bval3(w) == b3
  {
  }

  lemma WordOfBytes(w: bv32)
    ensures Bytes2Word(Bval0(w), Bval1(w), Bval2(w), Bval3(w)) == w
  {
  }

  // ---------- the field and the column mixes ----------

  // Sums of words, named so that proofs can treat them as opaque.

  function Xor(a: bv32, b: bv32): bv32 {
    a ^ b
  }

  function Xor3(a: bv32, b: bv32, c: bv32): bv32 {
    a ^ b ^ c
  }

  function Xor4(a: bv32, b: bv32, c: bv32, d: bv32): bv32 {
    a ^ b ^ c ^ d
  }

  /** `FFmulX`: each of four bytes times {02} in the field with polynomial 0x11b. */
  function FFmulX(x: bv32): bv32 {
    ((x & 0x7f7f7f7f) << 1) ^ (((x & 0x80808080) >> 7) * 0x1b)
  }

  /** `fwd_mcol`. */
  function FwdMcol(x: bv32): bv32 {
    var f2 := FFmulX(x);
    f2 ^ Upr3(x ^ f2) ^ Upr2(x) ^ Upr1(x)
  }

  /** `inv_mcol`, the form without tables. */
  function InvMcol(x: bv32): bv32 {
    var f2 := FFmulX(x);
    var f4 := FFmulX(f2);
    var f8 := FFmulX(f4);
    var f9 := Xor(x, f8);
    Xor(Xor3(f2, f4, f8), Xor3(Upr3(Xor(f2, f9)), Upr2(Xor(f4, f9)), Upr1(f9)))
  }

  /** The multiplication by 0x1b as a sum of shifts. */
  lemma FFmulXIsXor(x: bv32)
    ensures FFmulX(x) == ((x & 0x7f7f7f7f) << 1) ^ ((x & 0x80808080) >> 7) ^ ((x & 0x80808080) >> 6)
                         ^ ((x & 0x80808080) >> 4) ^ ((x & 0x80808080) >> 3)
  {
  }

  lemma FFmulXLinear(a: bv32, b: bv32)
    ensures FFmulX(Xor(a, b)) == Xor(FFmulX(a), FFmulX(b))
  {
    FFmulXIsXor(a);
    FFmulXIsXor(b);
    FFmulXIsXor(a ^ b);
    hide FFmulX;
  }

  lemma FFmulXRotates1(a: bv32)
    ensures FFmulX(Upr1(a)) == Upr1(FFmulX(a))
  {
    FFmulXIsXor(a);
    FFmulXIsXor(Upr1(a));
    hide FFmulX;
  }

  lemma FFmulXRotates2(a: bv32)
    ensures FFmulX(Upr2(a)) == Upr2(FFmulX(a))
  {
    FFmulXIsXor(a);
    FFmulXIsXor(Upr2(a));
    hide FFmulX;
  }

  lemma FFmulXRotates3(a: bv32)
    ensures FFmulX(Upr3(a)) == Upr3(FFmulX(a))
  {
    FFmulXIsXor(a);
    FFmulXIsXor(Upr3(a));
    hide FFmulX;
  }

  lemma Upr1Linear(a: bv32, b: bv32)
    ensures Upr1(Xor(a, b)) == Xor(Upr1(a), Upr1(b))
  {
  }

  lemma Upr2Linear(a: bv32, b: bv32)
    ensures Upr2(Xor(a, b)) == Xor(Upr2(a), Upr2(b))
  {
  }

  lemma Upr3Linear(a: bv32, b: bv32)
    ensures Upr3(Xor(a, b)) == Xor(Upr3(a), Upr3(b))
  {
  }

  lemma FullTurn(a: bv32)
    ensures Upr1(Upr3(a)) == a
  {
  }

  lemma Upr1Upr(a: bv32)
    ensures Upr1(Upr1(a)) == Upr2(a) && Upr1(Upr2(a)) == Upr3(a) && Upr1(Upr3(a)) == a
  {
    FullTurn(a);
  }

  lemma Upr2Upr(a: bv32)
    ensures Upr2(Upr1(a)) == Upr3(a) && Upr2(Upr2(a)) == a && Upr2(Upr3(a)) == Upr1(a)
  {
  }

  lemma Upr3Upr(a: bv32)
    ensures Upr3(Upr1(a)) == a && Upr3(Upr2(a)) == Upr1(a) && Upr3(Upr3(a)) == Upr2(a)
  {
  }

  lemma XorSwap(a: bv32, b: bv32)
    ensures Xor(a, b) == Xor(b, a)
  {
  }

  lemma XorAssoc(a: bv32, b: bv32, c: bv32)
    ensures Xor(Xor(a, b), c) == Xor(a, Xor(b, c))
  {
    assert Xor(a, b) == a ^ b && Xor(b, c) == b ^ c;
    assert Xor(a ^ b, c) == Xor(a, b ^ c);
  }

  lemma XorTwice(a: bv32, b: bv32)
    ensures Xor(Xor(a, b), b) == a
  {
    assert Xor(a, b) == a ^ b;
    assert Xor(a ^ b, b) == a;
  }

  lemma Xor3Nested(a: bv32, b: bv32, c: bv32)
    ensures Xor3(a, b, c) == Xor(Xor(a, b), c)
  {
    assert Xor(a, b) == a ^ b;
    assert Xor(a ^ b, c) == a ^ b ^ c;
  }

  lemma Xor4Nested(a: bv32, b: bv32, c: bv32, d: bv32)
    ensures Xor4(a, b, c, d) == Xor(Xor(a, b), Xor(c, d))
  {
    assert Xor(a, b) == a ^ b && Xor(c, d) == c ^ d;
    assert Xor(a ^ b, c ^ d) == a ^ b ^ c ^ d;
  }

  lemma XorCrossed(a: bv32, b: bv32, c: bv32, d: bv32)
    ensures Xor(Xor(a, b), Xor(c, d)) == Xor(Xor(a, c), Xor(b, d))
  {
    hide Xor;
    XorAssoc(Xor(a, b), c, d);
    XorAssoc(a, b, c);
    XorSwap(b, c);
    XorAssoc(a, c, b);
    XorAssoc(Xor(a, c), b, d);
  }

  lemma XorNested(a: bv32, b: bv32, c: bv32, d: bv32)
    ensures Xor3(a, b, c) == Xor(Xor(a, b), c)
    ensures Xor4(a, b, c, d) == Xor(Xor(a, b), Xor(c, d))
    ensures Xor(Xor(a, b), Xor(c, d)) == Xor(Xor(a, c), Xor(b, d))
  {
    hide Xor, Xor3, Xor4;
    Xor3Nested(a, b, c);
    Xor4Nested(a, b, c, d);
    XorCrossed(a, b, c, d);
  }

  lemma FFmulXLinear4(a: bv32, b: bv32, c: bv32, d: bv32)
    ensures FFmulX(Xor3(a, b, c)) == Xor3(FFmulX(a), FFmulX(b), FFmulX(c))
    ensures FFmulX(Xor4(a, b, c, d)) == Xor4(FFmulX(a), FFmulX(b), FFmulX(c), FFmulX(d))
  {
    XorNested(a, b, c, d);
    XorNested(FFmulX(a), FFmulX(b), FFmulX(c), FFmulX(d));
    hide FFmulX, Xor, Xor3, Xor4;
    FFmulXLinear(a, b);
    FFmulXLinear(c, d);
    FFmulXLinear(Xor(a, b), c);
    FFmulXLinear(Xor(a, b), Xor(c, d));
  }

  lemma Upr1Linear4(a: bv32, b: bv32, c: bv32, d: bv32)
    ensures Upr1(Xor3(a, b, c)) == Xor3(Upr1(a), Upr1(b), Upr1(c))
    ensures Upr1(Xor4(a, b, c, d)) == Xor4(Upr1(a), Upr1(b), Upr1(c), Upr1(d))
  {
    XorNested(a, b, c, d);
    XorNested(Upr1(a), Upr1(b), Upr1(c), Upr1(d));
    hide Upr1, Xor, Xor3, Xor4;
    Upr1Linear(a, b);
    Upr1Linear(c, d);
    Upr1Linear(Xor(a, b), c);
    Upr1Linear(Xor(a, b), Xor(c, d));
  }

  lemma Upr2Linear4(a: bv32, b: bv32, c: bv32, d: bv32)
    ensures Upr2(Xor3(a, b, c)) == Xor3(Upr2(a), Upr2(b), Upr2(c))
    ensures Upr2(Xor4(a, b, c, d)) == Xor4(Upr2(a), Upr2(b), Upr2(c), Upr2(d))
  {
    XorNested(a, b, c, d);
    XorNested(Upr2(a), Upr2(b), Upr2(c), Upr2(d));
    hide Upr2, Xor, Xor3, Xor4;
    Upr2Linear(a, b);
    Upr2Linear(c, d);
    Upr2Linear(Xor(a, b), c);
    Upr2Linear(Xor(a, b), Xor(c, d));
  }

  lemma Upr3Linear4(a: bv32, b: bv32, c: bv32, d: bv32)
    ensures Upr3(Xor3(a, b, c)) == Xor3(Upr3(a), Upr3(b), Upr3(c))
    ensures Upr3(Xor4(a, b, c, d)) == Xor4(Upr3(a), Upr3(b), Upr3(c), Upr3(d))
  {
    XorNested(a, b, c, d);
    XorNested(Upr3(a), Upr3(b), Upr3(c), Upr3(d));
    hide Upr3, Xor, Xor3, Xor4;
    Upr3Linear(a, b);
    Upr3Linear(c, d);
    Upr3Linear(Xor(a, b), c);
    Upr3Linear(Xor(a, b), Xor(c, d));
  }

  lemma FwdMcolIs(x: bv32)
    ensures FwdMcol(x) == Xor4(FFmulX(x), Upr3(Xor(x, FFmulX(x))), Upr2(x), Upr1(x))
  {
    hide FFmulX, Upr1, Upr2, Upr3;
  }

  lemma XorPairs(a: bv32, b: bv32, c: bv32, d: bv32, e: bv32, f: bv32, g: bv32, h: bv32)
    ensures Xor4(Xor(a, b), Xor(c, d), Xor(e, f), Xor(g, h)) == Xor(Xor4(a, c, e, g), Xor4(b, d, f, h))
  {
    hide Xor, Xor4;
    Xor4Nested(Xor(a, b), Xor(c, d), Xor(e, f), Xor(g, h));
    Xor4Nested(a, c, e, g);
    Xor4Nested(b, d, f, h);
    XorCrossed(a, b, c, d);
    XorCrossed(e, f, g, h);
    XorCrossed(Xor(a, c), Xor(b, d), Xor(e, g), Xor(f, h));
  }

  lemma FwdMcolLinear(a: bv32, b: bv32)
    ensures FwdMcol(Xor(a, b)) == Xor(FwdMcol(a), FwdMcol(b))
  {
    var f, g := FFmulX(a), FFmulX(b);
    XorNested(a, b, f, g);
    XorPairs(f, g, Upr3(Xor(a, f)), Upr3(Xor(b, g)), Upr2(a), Upr2(b), Upr1(a), Upr1(b));
    hide FFmulX, Upr1, Upr2, Upr3, Xor, Xor4, FwdMcol;
    FwdMcolIs(a);
    FwdMcolIs(b);
    FwdMcolIs(Xor(a, b));
    FFmulXLinear(a, b);
    Upr1Linear(a, b);
    Upr2Linear(a, b);
    Upr3Linear(Xor(a, f), Xor(b, g));
  }

  lemma FwdMcolLinear4(a: bv32, b: bv32, c: bv32, d: bv32)
    ensures FwdMcol(Xor4(a, b, c, d)) == Xor4(FwdMcol(a), FwdMcol(b), FwdMcol(c), FwdMcol(d))
  {
    XorNested(a, b, c, d);
    XorNested(FwdMcol(a), FwdMcol(b), FwdMcol(c), FwdMcol(d));
    hide FwdMcol, Xor, Xor4;
    FwdMcolLinear(a, b);
    FwdMcolLinear(c, d);
    FwdMcolLinear(Xor(a, b), Xor(c, d));
  }

  /** Mixing commutes with rotation, so one table serves all four byte positions. */
  lemma FwdMcolRotates1(a: bv32)
    ensures FwdMcol(Upr1(a)) == Upr1(FwdMcol(a))
  {
    var f := FFmulX(a);
    hide FFmulX, Upr1, Upr2, Upr3, Xor, Xor4, FwdMcol;
    FwdMcolIs(a);
    FwdMcolIs(Upr1(a));
    FFmulXRotates1(a);
    Upr1Linear(a, f);
    Upr1Linear4(f, Upr3(Xor(a, f)), Upr2(a), Upr1(a));
    Upr1Upr(Xor(a, f));
    Upr3Upr(Xor(a, f));
    Upr1Upr(a);
    Upr2Upr(a);
  }

  // ---------- the inverse mix ----------

  /** The forward mix twice, which is also its inverse twice. */
  function Mcol2(a: bv32): bv32 {
    var f4 := FFmulX(FFmulX(a));
    Xor3(a, f4, Upr2(f4))
  }

  lemma XorMiddle(a: bv32, s: bv32, t: bv32)
    ensures Xor(Xor(a, s), Xor(s, t)) == Xor(a, t)
  {
    assert Xor(a, s) == a ^ s && Xor(s, t) == s ^ t;
    assert Xor(a ^ s, s ^ t) == a ^ t;
  }

  lemma XorRows(a: bv32, s: bv32, p: bv32, q: bv32, t: bv32, r: bv32, u: bv32)
    ensures Xor(Xor4(a, s, p, q), Xor4(s, t, r, u)) == Xor4(a, t, Xor(p, r), Xor(q, u))
    ensures Xor(Xor4(p, q, a, s), Xor4(r, u, s, t)) == Xor4(Xor(p, q), Xor(r, u), a, t)
  {
    hide Xor, Xor4;
    Xor4Nested(a, s, p, q);
    Xor4Nested(s, t, r, u);
    Xor4Nested(a, t, Xor(p, r), Xor(q, u));
    Xor4Nested(p, q, a, s);
    Xor4Nested(r, u, s, t);
    Xor4Nested(Xor(p, q), Xor(r, u), a, t);
    XorMiddle(a, s, t);
    XorCrossed(p, q, r, u);
    XorCrossed(Xor(a, s), Xor(p, q), Xor(s, t), Xor(r, u));
    XorCrossed(Xor(p, q), Xor(a, s), Xor(r, u), Xor(s, t));
  }

  lemma XorShared(a: bv32, b: bv32, e: bv32, f: bv32, c: bv32, d: bv32)
    ensures Xor(Xor4(a, b, e, f), Xor4(e, f, c, d)) == Xor4(a, b, c, d)
  {
    assert Xor4(a, b, e, f) == a ^ b ^ e ^ f && Xor4(e, f, c, d) == e ^ f ^ c ^ d;
    assert Xor(a ^ b ^ e ^ f, e ^ f ^ c ^ d) == a ^ b ^ c ^ d;
  }

  lemma XorCancel16(x2: bv32, s: bv32, p: bv32, q: bv32, t: bv32, r: bv32, u: bv32, a: bv32, b: bv32, c: bv32)
    ensures Xor4(Xor4(x2, s, p, q), Xor4(s, t, r, u), Xor4(p, r, a, b), Xor4(q, u, b, c)) == Xor4(x2, t, a, c)
  {
    hide Xor, Xor4;
    Xor4Nested(Xor4(x2, s, p, q), Xor4(s, t, r, u), Xor4(p, r, a, b), Xor4(q, u, b, c));
    XorRows(x2, s, p, q, t, r, u);
    XorRows(a, b, p, r, c, q, u);
    XorShared(x2, t, Xor(p, r), Xor(q, u), a, c);
  }

  lemma XorOuter(x2: bv32, t: bv32, r: bv32, a: bv32)
    ensures Xor4(x2, Xor(t, r), a, t) == Xor3(a, x2, r)
  {
    assert Xor(t, r) == t ^ r;
    assert Xor4(x2, t ^ r, a, t) == a ^ x2 ^ r;
  }

  lemma MixedTwice(a: bv32)
    ensures FwdMcol(FwdMcol(a)) == Mcol2(a)
  {
    var x1 := FFmulX(a);
    var x2 := FFmulX(x1);
    var u, u' := Xor(a, x1), Xor(x1, x2);
    var c := Xor4(x1, Upr3(u), Upr2(a), Upr1(a));
    var c' := Xor4(x2, Upr3(u'), Upr2(x1), Upr1(x1));
    var v := Xor(u, u');
    XorPairs(x1, x2, Upr3(u), Upr3(u'), Upr2(a), Upr2(x1), Upr1(a), Upr1(x1));
    XorCancel16(x2, Upr3(u'), Upr2(x1), Upr1(x1), Upr2(v), Upr1(u), u, a, Upr3(a), Upr2(a));
    XorMiddle(a, x1, x2);
    XorOuter(x2, Upr2(a), Upr2(x2), a);
    hide FFmulX, Upr1, Upr2, Upr3, Xor, Xor3, Xor4, FwdMcol;
    FwdMcolIs(a);
    FwdMcolIs(c);
    assert FFmulX(c) == c' by {
      FFmulXLinear4(x1, Upr3(u), Upr2(a), Upr1(a));
      FFmulXRotates1(a);
      FFmulXRotates2(a);
      FFmulXRotates3(u);
      FFmulXLinear(a, x1);
    }
    assert Xor(c, c') == Xor4(u', Upr3(v), Upr2(u), Upr1(u)) by {
      Upr3Linear(u, u');
      Upr2Linear(a, x1);
      Upr1Linear(a, x1);
    }
    assert Upr3(Xor(c, c')) == Xor4(Upr3(u'), Upr2(v), Upr1(u), u) by {
      Upr3Linear4(u', Upr3(v), Upr2(u), Upr1(u));
      Upr3Upr(v);
      Upr3Upr(u);
    }
    assert Upr2(c) == Xor4(Upr2(x1), Upr1(u), a, Upr3(a)) by {
      Upr2Linear4(x1, Upr3(u), Upr2(a), Upr1(a));
      Upr2Upr(u);
      Upr2Upr(a);
    }
    assert Upr1(c) == Xor4(Upr1(x1), u, Upr3(a), Upr2(a)) by {
      Upr1Linear4(x1, Upr3(u), Upr2(a), Upr1(a));
      Upr1Upr(u);
      Upr1Upr(a);
    }
    Upr2Linear(a, x2);
  }

  lemma XorCancel9(a: bv32, b: bv32, c: bv32, d: bv32, e: bv32)
    ensures Xor3(Xor3(a, b, c), Xor3(b, d, e), Xor3(c, e, d)) == a
  {
    hide Xor, Xor3;
    var p, q, r, de := Xor3(a, b, c), Xor3(b, d, e), Xor3(c, e, d), Xor(d, e);
    Xor3Nested(a, b, c);
    Xor3Nested(b, d, e);
    Xor3Nested(c, e, d);
    XorAssoc(a, b, c);
    XorAssoc(b, d, e);
    XorAssoc(c, e, d);
    XorSwap(d, e);
    XorSwap(c, de);
    XorMiddle(b, de, c);
    Xor3Nested(p, q, r);
    XorAssoc(p, q, r);
    XorTwice(a, Xor(b, c));
  }

  lemma MixedFourTimes(a: bv32)
    ensures Mcol2(Mcol2(a)) == a
  {
    var x1 := FFmulX(a);
    var x2 := FFmulX(x1);
    var x3 := FFmulX(x2);
    var x4 := FFmulX(x3);
    XorCancel9(a, x2, Upr2(x2), x4, Upr2(x4));
    hide FFmulX, Upr2, Xor3;
    FFmulXLinear4(a, x2, Upr2(x2), a);
    FFmulXRotates2(x2);
    FFmulXLinear4(x1, x3, Upr2(x3), a);
    FFmulXRotates2(x3);
    Upr2Linear4(x2, x4, Upr2(x4), a);
    Upr2Upr(x4);
  }

  lemma XorCancel9Of(b: bv32, c: bv32, d: bv32, e: bv32, f: bv32, g: bv32, j: bv32)
    ensures Xor(Xor(Xor3(b, c, d), Xor3(e, f, g)), Xor3(j, d, c)) == Xor(Xor(e, Xor(b, f)), Xor(j, g))
  {
    hide Xor, Xor3;
    var x, y, z, cd := Xor3(b, c, d), Xor3(e, f, g), Xor3(j, d, c), Xor(c, d);
    Xor3Nested(b, c, d);
    Xor3Nested(e, f, g);
    Xor3Nested(j, d, c);
    XorAssoc(b, c, d);
    XorAssoc(j, d, c);
    XorSwap(d, c);
    XorSwap(j, cd);
    XorMiddle(b, cd, j);
    XorSwap(x, y);
    XorAssoc(y, x, z);
    XorCrossed(Xor(e, f), g, b, j);
    XorAssoc(e, f, b);
    XorSwap(f, b);
    XorSwap(g, j);
  }

  lemma XorSwap6(x1: bv32, x2: bv32, x3: bv32, a: bv32, h: bv32, i: bv32)
    ensures Xor(Xor3(x1, x3, a), Xor3(h, i, x2)) == Xor(Xor3(x1, x2, x3), Xor(i, Xor(h, a)))
  {
    hide Xor, Xor3;
    var p, q := Xor(x1, x3), Xor(h, i);
    Xor3Nested(x1, x3, a);
    Xor3Nested(h, i, x2);
    Xor3Nested(x1, x2, x3);
    XorSwap(q, x2);
    XorCrossed(p, a, x2, q);
    XorAssoc(x1, x3, x2);
    XorSwap(x3, x2);
    XorAssoc(x1, x2, x3);
    XorSwap(a, q);
    XorSwap(h, i);
    XorAssoc(i, h, a);
  }

  lemma XorRegroup(t: bv32, u: bv32, v: bv32, w: bv32)
    ensures Xor(Xor(t, u), Xor(v, w)) == Xor(t, Xor3(v, u, w))
  {
    hide Xor, Xor3;
    Xor3Nested(v, u, w);
    XorSwap(v, u);
    XorAssoc(u, v, w);
    XorAssoc(t, u, Xor(v, w));
  }

  lemma XorCancel15(x1: bv32, x2: bv32, x3: bv32, a: bv32, b: bv32, c: bv32, d: bv32, e: bv32, f: bv32, g: bv32,
                    h: bv32, i: bv32, j: bv32)
    ensures Xor4(Xor3(x1, x3, a), Xor(Xor3(b, c, d), Xor3(e, f, g)), Xor3(h, i, x2), Xor3(j, d, c))
         == Xor(Xor3(x1, x2, x3), Xor3(Xor(e, Xor(b, f)), Xor(i, Xor(h, a)), Xor(j, g)))
  {
    hide Xor, Xor3, Xor4;
    var m := Xor(Xor3(b, c, d), Xor3(e, f, g));
    Xor4Nested(Xor3(x1, x3, a), m, Xor3(h, i, x2), Xor3(j, d, c));
    XorCrossed(Xor3(x1, x3, a), m, Xor3(h, i, x2), Xor3(j, d, c));
    XorCancel9Of(b, c, d, e, f, g, j);
    XorSwap6(x1, x2, x3, a, h, i);
    XorRegroup(Xor3(x1, x2, x3), Xor(i, Xor(h, a)), Xor(e, Xor(b, f)), Xor(j, g));
  }

  /** The inverse mix is the forward mix three times. */
  lemma InvMcolIsThrice(a: bv32)
    ensures InvMcol(a) == FwdMcol(Mcol2(a))
  {
    var x1 := FFmulX(a);
    var x2 := FFmulX(x1);
    var x3 := FFmulX(x2);
    var s, s' := Xor3(a, x2, Upr2(x2)), Xor3(x1, x3, Upr2(x3));
    XorCancel15(x1, x2, x3, Upr2(x3), Upr3(a), Upr3(x2), Upr1(x2), Upr3(x1), Upr3(x3), Upr1(x3),
      Upr2(a), Upr2(x2), Upr1(a));
    InvMcolTerms(a);
    hide FFmulX, Upr1, Upr2, Upr3, Xor, Xor3, Xor4, FwdMcol, InvMcol;
    FwdMcolIs(s);
    DoubledSum(a);
    TurnedThrice(a, x2, x1, x3);
    TurnedOnceAndTwice(a, x2);
  }

  /** The terms of the inverse mix, turned one by one. */
  lemma InvMcolTerms(a: bv32)
    ensures var x1 := FFmulX(a); var x2 := FFmulX(x1); var x3 := FFmulX(x2);
      InvMcol(a) == Xor(Xor3(x1, x2, x3),
        Xor3(Xor(Upr3(x1), Xor(Upr3(a), Upr3(x3))), Xor(Upr2(x2), Xor(Upr2(a), Upr2(x3))), Xor(Upr1(a), Upr1(x3))))
  {
    var x1 := FFmulX(a);
    var x2 := FFmulX(x1);
    var x3 := FFmulX(x2);
    hide FFmulX, Upr1, Upr2, Upr3, Xor, Xor3;
    Upr3Linear(a, x3);
    Upr3Linear(x1, Xor(a, x3));
    Upr2Linear(a, x3);
    Upr2Linear(x2, Xor(a, x3));
    Upr1Linear(a, x3);
  }

  lemma DoubledSum(a: bv32)
    ensures var x2 := FFmulX(FFmulX(a));
      FFmulX(Xor3(a, x2, Upr2(x2))) == Xor3(FFmulX(a), FFmulX(x2), Upr2(FFmulX(x2)))
  {
    var x2 := FFmulX(FFmulX(a));
    hide FFmulX, Upr2, Xor3;
    FFmulXLinear4(a, x2, Upr2(x2), a);
    FFmulXRotates2(x2);
  }

  lemma TurnedThrice(a: bv32, x2: bv32, x1: bv32, x3: bv32)
    ensures Upr3(Xor(Xor3(a, x2, Upr2(x2)), Xor3(x1, x3, Upr2(x3))))
      == Xor(Xor3(Upr3(a), Upr3(x2), Upr1(x2)), Xor3(Upr3(x1), Upr3(x3), Upr1(x3)))
  {
    hide Upr1, Upr2, Upr3, Xor, Xor3;
    Upr3Linear(Xor3(a, x2, Upr2(x2)), Xor3(x1, x3, Upr2(x3)));
    Upr3Linear4(a, x2, Upr2(x2), a);
    Upr3Linear4(x1, x3, Upr2(x3), a);
    Upr3Upr(x2);
    Upr3Upr(x3);
  }

  lemma TurnedOnceAndTwice(a: bv32, x2: bv32)
    ensures var s := Xor3(a, x2, Upr2(x2));
      Upr2(s) == Xor3(Upr2(a), Upr2(x2), x2) && Upr1(s) == Xor3(Upr1(a), Upr1(x2), Upr3(x2))
  {
    hide Upr1, Upr2, Upr3, Xor3;
    Upr2Linear4(a, x2, Upr2(x2), a);
    Upr1Linear4(a, x2, Upr2(x2), a);
    Upr2Upr(x2);
    Upr1Upr(x2);
  }

  /** The inverse mix undoes the forward mix. */
  lemma InvMcolInverts(a: bv32)
    ensures InvMcol(FwdMcol(a)) == a
  {
    hide FwdMcol, InvMcol, Mcol2;
    InvMcolIsThrice(FwdMcol(a));
    MixedTwice(a);
    MixedTwice(FwdMcol(FwdMcol(a)));
    MixedTwice(FwdMcol(a));
    MixedTwice(Mcol2(a));
    MixedFourTimes(a);
  }

  lemma InvMcolLinear(a: bv32, b: bv32)
    ensures InvMcol(Xor(a, b)) == Xor(InvMcol(a), InvMcol(b))
  {
    hide FwdMcol, InvMcol, Mcol2, Xor;
    InvMcolIsThrice(a);
    InvMcolIsThrice(b);
    InvMcolIsThrice(Xor(a, b));
    MixedTwice(a);
    MixedTwice(b);
    MixedTwice(Xor(a, b));
    FwdMcolLinear(a, b);
    FwdMcolLinear(FwdMcol(a), FwdMcol(b));
    FwdMcolLinear(Mcol2(a), Mcol2(b));
  }

  lemma InvMcolLinear4(a: bv32, b: bv32, c: bv32, d: bv32)
    ensures InvMcol(Xor4(a, b, c, d)) == Xor4(InvMcol(a), InvMcol(b), InvMcol(c), InvMcol(d))
  {
    XorNested(a, b, c, d);
    XorNested(InvMcol(a), InvMcol(b), InvMcol(c), InvMcol(d));
    hide InvMcol, Xor, Xor4;
    InvMcolLinear(a, b);
    InvMcolLinear(c, d);
    InvMcolLinear(Xor(a, b), Xor(c, d));
  }

  lemma InvMcolRotates1(a: bv32)
    ensures InvMcol(Upr1(a)) == Upr1(InvMcol(a))
  {
    hide FwdMcol, InvMcol, Mcol2, Upr1;
    InvMcolIsThrice(a);
    InvMcolIsThrice(Upr1(a));
    MixedTwice(a);
    MixedTwice(Upr1(a));
    FwdMcolRotates1(a);
    FwdMcolRotates1(FwdMcol(a));
    FwdMcolRotates1(Mcol2(a));
  }

  // ---------- the tables ----------

  /** The table `f_table`; `ft_tab[n][x]` is `FTable(x)` rotated by `n` bytes. */
  function FTable(x: bv8): bv32 {
    if x < 0x10 then
      if x < 0x04 then (if x < 0x01 then 0xa56363c6 else if x < 0x02 then 0x847c7cf8 else if x < 0x03 then 0x997777ee else 0x8d7b7bf6)
      else if x < 0x08 then (if x < 0x05 then 0x0df2f2ff else if x < 0x06 then 0xbd6b6bd6 else if x < 0x07 then 0xb16f6fde else 0x54c5c591)
      else if x < 0x0c then (if x < 0x09 then 0x50303060 else if x < 0x0a then 0x03010102 else if x < 0x0b then 0xa96767ce else 0x7d2b2b56)
      else if x < 0x0d then 0x19fefee7 else if x < 0x0e then 0x62d7d7b5 else if x < 0x0f then 0xe6abab4d else 0x9a7676ec
    else if x < 0x20 then
      if x < 0x14 then (if x < 0x11 then 0x45caca8f else if x < 0x12 then 0x9d82821f else if x < 0x13 then 0x40c9c989 else 0x877d7dfa)
      else if x < 0x18 then (if x < 0x15 then 0x15fafaef else if x < 0x16 then 0xeb5959b2 else if x < 0x17 then 0xc947478e else 0x0bf0f0fb)
      else if x < 0x1c then (if x < 0x19 then 0xecadad41 else if x < 0x1a then 0x67d4d4b3 else if x < 0x1b then 0xfda2a25f else 0xeaafaf45)
      else if x < 0x1d then 0xbf9c9c23 else if x < 0x1e then 0xf7a4a453 else if x < 0x1f then 0x967272e4 else 0x5bc0c09b
    else if x < 0x30 then
      if x < 0x24 then (if x < 0x21 then 0xc2b7b775 else if x < 0x22 then 0x1cfdfde1 else if x < 0x23 then 0xae93933d else 0x6a26264c)
      else if x < 0x28 then (if x < 0x25 then 0x5a36366c else if x < 0x26 then 0x413f3f7e else if x < 0x27 then 0x02f7f7f5 else 0x4fcccc83)
      else if x < 0x2c then (if x < 0x29 then 0x5c343468 else if x < 0x2a then 0xf4a5a551 else if x < 0x2b then 0x34e5e5d1 else 0x08f1f1f9)
      else if x < 0x2d then 0x937171e2 else if x < 0x2e then 0x73d8d8ab else if x < 0x2f then 0x53313162 else 0x3f15152a
    else if x < 0x40 then
      if x < 0x34 then (if x < 0x31 then 0x0c040408 else if x < 0x32 then 0x52c7c795 else if x < 0x33 then 0x65232346 else 0x5ec3c39d)
      else if x < 0x38 then (if x < 0x35 then 0x28181830 else if x < 0x36 then 0xa1969637 else if x < 0x37 then 0x0f05050a else 0xb59a9a2f)
      else if x < 0x3c then (if x < 0x39 then 0x0907070e else if x < 0x3a then 0x36121224 else if x < 0x3b then 0x9b80801b else 0x3de2e2df)
      else if x < 0x3d then 0x26ebebcd else if x < 0x3e then 0x6927274e else if x < 0x3f then 0xcdb2b27f else 0x9f7575ea
    else if x < 0x50 then
      if x < 0x44 then (if x < 0x41 then 0x1b090912 else if x < 0x42 then 0x9e83831d else if x < 0x43 then 0x742c2c58 else 0x2e1a1a34)
      else if x < 0x48 then (if x < 0x45 then 0x2d1b1b36 else if x < 0x46 then 0xb26e6edc else if x < 0x47 then 0xee5a5ab4 else 0xfba0a05b)
      else if x < 0x4c then (if x < 0x49 then 0xf65252a4 else if x < 0x4a then 0x4d3b3b76 else if x < 0x4b then 0x61d6d6b7 else 0xceb3b37d)
      else if x < 0x4d then 0x7b292952 else if x < 0x4e then 0x3ee3e3dd else if x < 0x4f then 0x712f2f5e else 0x97848413
    else if x < 0x60 then
      if x < 0x54 then (if x < 0x51 then 0xf55353a6 else if x < 0x52 then 0x68d1d1b9 else if x < 0x53 then 0x00000000 else 0x2cededc1)
      else if x < 0x58 then (if x < 0x55 then 0x60202040 else if x < 0x56 then 0x1ffcfce3 else if x < 0x57 then 0xc8b1b179 else 0xed5b5bb6)
      else if x < 0x5c then (if x < 0x59 then 0xbe6a6ad4 else if x < 0x5a then 0x46cbcb8d else if x < 0x5b then 0xd9bebe67 else 0x4b393972)
      else if x < 0x5d then 0xde4a4a94 else if x < 0x5e then 0xd44c4c98 else if x < 0x5f then 0xe85858b0 else 0x4acfcf85
    else if x < 0x70 then
      if x < 0x64 then (if x < 0x61 then 0x6bd0d0bb else if x < 0x62 then 0x2aefefc5 else if x < 0x63 then 0xe5aaaa4f else 0x16fbfbed)
      else if x < 0x68 then (if x < 0x65 then 0xc5434386 else if x < 0x66 then 0xd74d4d9a else if x < 0x67 then 0x55333366 else 0x94858511)
      else if x < 0x6c then (if x < 0x69 then 0xcf45458a else if x < 0x6a then 0x10f9f9e9 else if x < 0x6b then 0x06020204 else 0x817f7ffe)
      else if x < 0x6d then 0xf05050a0 else if x < 0x6e then 0x443c3c78 else if x < 0x6f then 0xba9f9f25 else 0xe3a8a84b
    else if x < 0x80 then
      if x < 0x74 then (if x < 0x71 then 0xf35151a2 else if x < 0x72 then 0xfea3a35d else if x < 0x73 then 0xc0404080 else 0x8a8f8f05)
      else if x < 0x78 then (if x < 0x75 then 0xad92923f else if x < 0x76 then 0xbc9d9d21 else if x < 0x77 then 0x48383870 else 0x04f5f5f1)
      else if x < 0x7c then (if x < 0x79 then 0xdfbcbc63 else if x < 0x7a then 0xc1b6b677 else if x < 0x7b then 0x75dadaaf else 0x63212142)
      else if x < 0x7d then 0x30101020 else if x < 0x7e then 0x1affffe5 else if x < 0x7f then 0x0ef3f3fd else 0x6dd2d2bf
    else if x < 0x90 then
      if x < 0x84 then (if x < 0x81 then 0x4ccdcd81 else if x < 0x82 then 0x140c0c18 else if x < 0x83 then 0x35131326 else 0x2fececc3)
      else if x < 0x88 then (if x < 0x85 then 0xe15f5fbe else if x < 0x86 then 0xa2979735 else if x < 0x87 then 0xcc444488 else 0x3917172e)
      else if x < 0x8c then (if x < 0x89 then 0x57c4c493 else if x < 0x8a then 0xf2a7a755 else if x < 0x8b then 0x827e7efc else 0x473d3d7a)
      else if x < 0x8d then 0xac6464c8 else if x < 0x8e then 0xe75d5dba else if x < 0x8f then 0x2b191932 else 0x957373e6
    else if x < 0xa0 then
      if x < 0x94 then (if x < 0x91 then 0xa06060c0 else if x < 0x92 then 0x98818119 else if x < 0x93 then 0xd14f4f9e else 0x7fdcdca3)
      else if x < 0x98 then (if x < 0x95 then 0x66222244 else if x < 0x96 then 0x7e2a2a54 else if x < 0x97 then 0xab90903b else 0x8388880b)
      else if x < 0x9c then (if x < 0x99 then 0xca46468c else if x < 0x9a then 0x29eeeec7 else if x < 0x9b then 0xd3b8b86b else 0x3c141428)
      else if x < 0x9d then 0x79dedea7 else if x < 0x9e then 0xe25e5ebc else if x < 0x9f then 0x1d0b0b16 else 0x76dbdbad
    else if x < 0xb0 then
      if x < 0xa4 then (if x < 0xa1 then 0x3be0e0db else if x < 0xa2 then 0x56323264 else if x < 0xa3 then 0x4e3a3a74 else 0x1e0a0a14)
      else if x < 0xa8 then (if x < 0xa5 then 0xdb494992 else if x < 0xa6 then 0x0a06060c else if x < 0xa7 then 0x6c242448 else 0xe45c5cb8)
      else if x < 0xac then (if x < 0xa9 then 0x5dc2c29f else if x < 0xaa then 0x6ed3d3bd else if x < 0xab then 0xefacac43 else 0xa66262c4)
      else if x < 0xad then 0xa8919139 else if x < 0xae then 0xa4959531 else if x < 0xaf then 0x37e4e4d3 else 0x8b7979f2
    else if x < 0xc0 then
      if x < 0xb4 then (if x < 0xb1 then 0x32e7e7d5 else if x < 0xb2 then 0x43c8c88b else if x < 0xb3 then 0x5937376e else 0xb76d6dda)
      else if x < 0xb8 then (if x < 0xb5 then 0x8c8d8d01 else if x < 0xb6 then 0x64d5d5b1 else if x < 0xb7 then 0xd24e4e9c else 0xe0a9a949)
      else if x < 0xbc then (if x < 0xb9 then 0xb46c6cd8 else if x < 0xba then 0xfa5656ac else if x < 0xbb then 0x07f4f4f3 else 0x25eaeacf)
      else if x < 0xbd then 0xaf6565ca else if x < 0xbe then 0x8e7a7af4 else if x < 0xbf then 0xe9aeae47 else 0x18080810
    else if x < 0xd0 then
      if x < 0xc4 then (if x < 0xc1 then 0xd5baba6f else if x < 0xc2 then 0x887878f0 else if x < 0xc3 then 0x6f25254a else 0x722e2e5c)
      else if x < 0xc8 then (if x < 0xc5 then 0x241c1c38 else if x < 0xc6 then 0xf1a6a657 else if x < 0xc7 then 0xc7b4b473 else 0x51c6c697)
      else if x < 0xcc then (if x < 0xc9 then 0x23e8e8cb else if x < 0xca then 0x7cdddda1 else if x < 0xcb then 0x9c7474e8 else 0x211f1f3e)
      else if x < 0xcd then 0xdd4b4b96 else if x < 0xce then 0xdcbdbd61 else if x < 0xcf then 0x868b8b0d else 0x858a8a0f
    else if x < 0xe0 then
      if x < 0xd4 then (if x < 0xd1 then 0x907070e0 else if x < 0xd2 then 0x423e3e7c else if x < 0xd3 then 0xc4b5b571 else 0xaa6666cc)
      else if x < 0xd8 then (if x < 0xd5 then 0xd8484890 else if x < 0xd6 then 0x05030306 else if x < 0xd7 then 0x01f6f6f7 else 0x120e0e1c)
      else if x < 0xdc then (if x < 0xd9 then 0xa36161c2 else if x < 0xda then 0x5f35356a else if x < 0xdb then 0xf95757ae else 0xd0b9b969)
      else if x < 0xdd then 0x91868617 else if x < 0xde then 0x58c1c199 else if x < 0xdf then 0x271d1d3a else 0xb99e9e27
    else if x < 0xf0 then
      if x < 0xe4 then (if x < 0xe1 then 0x38e1e1d9 else if x < 0xe2 then 0x13f8f8eb else if x < 0xe3 then 0xb398982b else 0x33111122)
      else if x < 0xe8 then (if x < 0xe5 then 0xbb6969d2 else if x < 0xe6 then 0x70d9d9a9 else if x < 0xe7 then 0x898e8e07 else 0xa7949433)
      else if x < 0xec then (if x < 0xe9 then 0xb69b9b2d else if x < 0xea then 0x221e1e3c else if x < 0xeb then 0x92878715 else 0x20e9e9c9)
      else if x < 0xed then 0x49cece87 else if x < 0xee then 0xff5555aa else if x < 0xef then 0x78282850 else 0x7adfdfa5
    else
      if x < 0xf4 then (if x < 0xf1 then 0x8f8c8c03 else if x < 0xf2 then 0xf8a1a159 else if x < 0xf3 then 0x80898909 else 0x170d0d1a)
      else if x < 0xf8 then (if x < 0xf5 then 0xdabfbf65 else if x < 0xf6 then 0x31e6e6d7 else if x < 0xf7 then 0xc6424284 else 0xb86868d0)
      else if x < 0xfc then (if x < 0xf9 then 0xc3414182 else if x < 0xfa then 0xb0999929 else if x < 0xfb then 0x772d2d5a else 0x110f0f1e)
      else if x < 0xfd then 0xcbb0b07b else if x < 0xfe then 0xfc5454a8 else if x < 0xff then 0xd6bbbb6d else 0x3a16162c
  }

  /** The table `i_table`; `it_tab[n][x]` is `ITable(x)` rotated by `n` bytes. */
  function ITable(x: bv8): bv32 {
    if x < 0x10 then
      if x < 0x04 then (if x < 0x01 then 0x50a7f451 else if x < 0x02 then 0x5365417e else if x < 0x03 then 0xc3a4171a else 0x965e273a)
      else if x < 0x08 then (if x < 0x05 then 0xcb6bab3b else if x < 0x06 then 0xf1459d1f else if x < 0x07 then 0xab58faac else 0x9303e34b)
      else if x < 0x0c then (if x < 0x09 then 0x55fa3020 else if x < 0x0a then 0xf66d76ad else if x < 0x0b then 0x9176cc88 else 0x254c02f5)
      else if x < 0x0d then 0xfcd7e54f else if x < 0x0e then 0xd7cb2ac5 else if x < 0x0f then 0x80443526 else 0x8fa362b5
    else if x < 0x20 then
      if x < 0x14 then (if x < 0x11 then 0x495ab1de else if x < 0x12 then 0x671bba25 else if x < 0x13 then 0x980eea45 else 0xe1c0fe5d)
      else if x < 0x18 then (if x < 0x15 then 0x02752fc3 else if x < 0x16 then 0x12f04c81 else if x < 0x17 then 0xa397468d else 0xc6f9d36b)
      else if x < 0x1c then (if x < 0x19 then 0xe75f8f03 else if x < 0x1a then 0x959c9215 else if x < 0x1b then 0xeb7a6dbf else 0xda595295)
      else if x < 0x1d then 0x2d83bed4 else if x < 0x1e then 0xd3217458 else if x < 0x1f then 0x2969e049 else 0x44c8c98e
    else if x < 0x30 then
      if x < 0x24 then (if x < 0x21 then 0x6a89c275 else if x < 0x22 then 0x78798ef4 else if x < 0x23 then 0x6b3e5899 else 0xdd71b927)
      else if x < 0x28 then (if x < 0x25 then 0xb64fe1be else if x < 0x26 then 0x17ad88f0 else if x < 0x27 then 0x66ac20c9 else 0xb43ace7d)
      else if x < 0x2c then (if x < 0x29 then 0x184adf63 else if x < 0x2a then 0x82311ae5 else if x < 0x2b then 0x60335197 else 0x457f5362)
      else if x < 0x2d then 0xe07764b1 else if x < 0x2e then 0x84ae6bbb else if x < 0x2f then 0x1ca081fe else 0x942b08f9
    else if x < 0x40 then
      if x < 0x34 then (if x < 0x31 then 0x58684870 else if x < 0x32 then 0x19fd458f else if x < 0x33 then 0x876cde94 else 0xb7f87b52)
      else if x < 0x38 then (if x < 0x35 then 0x23d373ab else if x < 0x36 then 0xe2024b72 else if x < 0x37 then 0x578f1fe3 else 0x2aab5566)
      else if x < 0x3c then (if x < 0x39 then 0x0728ebb2 else if x < 0x3a then 0x03c2b52f else if x < 0x3b then 0x9a7bc586 else 0xa50837d3)
      else if x < 0x3d then 0xf2872830 else if x < 0x3e then 0xb2a5bf23 else if x < 0x3f then 0xba6a0302 else 0x5c8216ed
    else if x < 0x50 then
      if x < 0x44 then (if x < 0x41 then 0x2b1ccf8a else if x < 0x42 then 0x92b479a7 else if x < 0x43 then 0xf0f207f3 else 0xa1e2694e)
      else if x < 0x48 then (if x < 0x45 then 0xcdf4da65 else if x < 0x46 then 0xd5be0506 else if x < 0x47 then 0x1f6234d1 else 0x8afea6c4)
      else if x < 0x4c then (if x < 0x49 then 0x9d532e34 else if x < 0x4a then 0xa055f3a2 else if x < 0x4b then 0x32e18a05 else 0x75ebf6a4)
      else if x < 0x4d then 0x39ec830b else if x < 0x4e then 0xaaef6040 else if x < 0x4f then 0x069f715e else 0x51106ebd
    else if x < 0x60 then
      if x < 0x54 then (if x < 0x51 then 0xf98a213e else if x < 0x52 then 0x3d06dd96 else if x < 0x53 then 0xae053edd else 0x46bde64d)
      else if x < 0x58 then (if x < 0x55 then 0xb58d5491 else if x < 0x56 then 0x055dc471 else if x < 0x57 then 0x6fd40604 else 0xff155060)
      else if x < 0x5c then (if x < 0x59 then 0x24fb9819 else if x < 0x5a then 0x97e9bdd6 else if x < 0x5b then 0xcc434089 else 0x779ed967)
      else if x < 0x5d then 0xbd42e8b0 else if x < 0x5e then 0x888b8907 else if x < 0x5f then 0x385b19e7 else 0xdbeec879
    else if x < 0x70 then
      if x < 0x64 then (if x < 0x61 then 0x470a7ca1 else if x < 0x62 then 0xe90f427c else if x < 0x63 then 0xc91e84f8 else 0x00000000)
      else if x < 0x68 then (if x < 0x65 then 0x83868009 else if x < 0x66 then 0x48ed2b32 else if x < 0x67 then 0xac70111e else 0x4e725a6c)
      else if x < 0x6c then (if x < 0x69 then 0xfbff0efd else if x < 0x6a then 0x5638850f else if x < 0x6b then 0x1ed5ae3d else 0x27392d36)
      else if x < 0x6d then 0x64d90f0a else if x < 0x6e then 0x21a65c68 else if x < 0x6f then 0xd1545b9b else 0x3a2e3624
    else if x < 0x80 then
      if x < 0x74 then (if x < 0x71 then 0xb1670a0c else if x < 0x72 then 0x0fe75793 else if x < 0x73 then 0xd296eeb4 else 0x9e919b1b)
      else if x < 0x78 then (if x < 0x75 then 0x4fc5c080 else if x < 0x76 then 0xa220dc61 else if x < 0x77 then 0x694b775a else 0x161a121c)
      else if x < 0x7c then (if x < 0x79 then 0x0aba93e2 else if x < 0x7a then 0xe52aa0c0 else if x < 0x7b then 0x43e0223c else 0x1d171b12)
      else if x < 0x7d then 0x0b0d090e else if x < 0x7e then 0xadc78bf2 else if x < 0x7f then 0xb9a8b62d else 0xc8a91e14
    else if x < 0x90 then
      if x < 0x84 then (if x < 0x81 then 0x8519f157 else if x < 0x82 then 0x4c0775af else if x < 0x83 then 0xbbdd99ee else 0xfd607fa3)
      else if x < 0x88 then (if x < 0x85 then 0x9f2601f7 else if x < 0x86 then 0xbcf5725c else if x < 0x87 then 0xc53b6644 else 0x347efb5b)
      else if x < 0x8c then (if x < 0x89 then 0x7629438b else if x < 0x8a then 0xdcc623cb else if x < 0x8b then 0x68fcedb6 else 0x63f1e4b8)
      else if x < 0x8d then 0xcadc31d7 else if x < 0x8e then 0x10856342 else if x < 0x8f then 0x40229713 else 0x2011c684
    else if x < 0xa0 then
      if x < 0x94 then (if x < 0x91 then 0x7d244a85 else if x < 0x92 then 0xf83dbbd2 else if x < 0x93 then 0x1132f9ae else 0x6da129c7)
      else if x < 0x98 then (if x < 0x95 then 0x4b2f9e1d else if x < 0x96 then 0xf330b2dc else if x < 0x97 then 0xec52860d else 0xd0e3c177)
      else if x < 0x9c then (if x < 0x99 then 0x6c16b32b else if x < 0x9a then 0x99b970a9 else if x < 0x9b then 0xfa489411 else 0x2264e947)
      else if x < 0x9d then 0xc48cfca8 else if x < 0x9e then 0x1a3ff0a0 else if x < 0x9f then 0xd82c7d56 else 0xef903322
    else if x < 0xb0 then
      if x < 0xa4 then (if x < 0xa1 then 0xc74e4987 else if x < 0xa2 then 0xc1d138d9 else if x < 0xa3 then 0xfea2ca8c else 0x360bd498)
      else if x < 0xa8 then (if x < 0xa5 then 0xcf81f5a6 else if x < 0xa6 then 0x28de7aa5 else if x < 0xa7 then 0x268eb7da else 0xa4bfad3f)
      else if x < 0xac then (if x < 0xa9 then 0xe49d3a2c else if x < 0xaa then 0x0d927850 else if x < 0xab then 0x9bcc5f6a else 0x62467e54)
      else if x < 0xad then 0xc2138df6 else if x < 0xae then 0xe8b8d890 else if x < 0xaf then 0x5ef7392e else 0xf5afc382
    else if x < 0xc0 then
      if x < 0xb4 then (if x < 0xb1 then 0xbe805d9f else if x < 0xb2 then 0x7c93d069 else if x < 0xb3 then 0xa92dd56f else 0xb31225cf)
      else if x < 0xb8 then (if x < 0xb5 then 0x3b99acc8 else if x < 0xb6 then 0xa77d1810 else if x < 0xb7 then 0x6e639ce8 else 0x7bbb3bdb)
      else if x < 0xbc then (if x < 0xb9 then 0x097826cd else if x < 0xba then 0xf418596e else if x < 0xbb then 0x01b79aec else 0xa89a4f83)
      else if x < 0xbd then 0x656e95e6 else if x < 0xbe then 0x7ee6ffaa else if x < 0xbf then 0x08cfbc21 else 0xe6e815ef
    else if x < 0xd0 then
      if x < 0xc4 then (if x < 0xc1 then 0xd99be7ba else if x < 0xc2 then 0xce366f4a else if x < 0xc3 then 0xd4099fea else 0xd67cb029)
      else if x < 0xc8 then (if x < 0xc5 then 0xafb2a431 else if x < 0xc6 then 0x31233f2a else if x < 0xc7 then 0x3094a5c6 else 0xc066a235)
      else if x < 0xcc then (if x < 0xc9 then 0x37bc4e74 else if x < 0xca then 0xa6ca82fc else if x < 0xcb then 0xb0d090e0 else 0x15d8a733)
      else if x < 0xcd then 0x4a9804f1 else if x < 0xce then 0xf7daec41 else if x < 0xcf then 0x0e50cd7f else 0x2ff69117
    else if x < 0xe0 then
      if x < 0xd4 then (if x < 0xd1 then 0x8dd64d76 else if x < 0xd2 then 0x4db0ef43 else if x < 0xd3 then 0x544daacc else 0xdf0496e4)
      else if x < 0xd8 then (if x < 0xd5 then 0xe3b5d19e else if x < 0xd6 then 0x1b886a4c else if x < 0xd7 then 0xb81f2cc1 else 0x7f516546)
      else if x < 0xdc then (if x < 0xd9 then 0x04ea5e9d else if x < 0xda then 0x5d358c01 else if x < 0xdb then 0x737487fa else 0x2e410bfb)
      else if x < 0xdd then 0x5a1d67b3 else if x < 0xde then 0x52d2db92 else if x < 0xdf then 0x335610e9 else 0x1347d66d
    else if x < 0xf0 then
      if x < 0xe4 then (if x < 0xe1 then 0x8c61d79a else if x < 0xe2 then 0x7a0ca137 else if x < 0xe3 then 0x8e14f859 else 0x893c13eb)
      else if x < 0xe8 then (if x < 0xe5 then 0xee27a9ce else if x < 0xe6 then 0x35c961b7 else if x < 0xe7 then 0xede51ce1 else 0x3cb1477a)
      else if x < 0xec then (if x < 0xe9 then 0x59dfd29c else if x < 0xea then 0x3f73f255 else if x < 0xeb then 0x79ce1418 else 0xbf37c773)
      else if x < 0xed then 0xeacdf753 else if x < 0xee then 0x5baafd5f else if x < 0xef then 0x146f3ddf else 0x86db4478
    else
      if x < 0xf4 then (if x < 0xf1 then 0x81f3afca else if x < 0xf2 then 0x3ec468b9 else if x < 0xf3 then 0x2c342438 else 0x5f40a3c2)
      else if x < 0xf8 then (if x < 0xf5 then 0x72c31d16 else if x < 0xf6 then 0x0c25e2bc else if x < 0xf7 then 0x8b493c28 else 0x41950dff)
      else if x < 0xfc then (if x < 0xf9 then 0x7101a839 else if x < 0xfa then 0xdeb30c08 else if x < 0xfb then 0x9ce4b4d8 else 0x90c15664)
      else if x < 0xfd then 0x6184cb7b else if x < 0xfe then 0x70b632d5 else if x < 0xff then 0x745c6c48 else 0x4257b8d0
  }

  /** The table `m_table`; `im_tab[n][x]` is `MTable(x)` rotated by `n` bytes. */
  function MTable(x: bv8): bv32 {
    if x < 0x10 then
      if x < 0x04 then (if x < 0x01 then 0x00000000 else if x < 0x02 then 0x0b0d090e else if x < 0x03 then 0x161a121c else 0x1d171b12)
      else if x < 0x08 then (if x < 0x05 then 0x2c342438 else if x < 0x06 then 0x27392d36 else if x < 0x07 then 0x3a2e3624 else 0x31233f2a)
      else if x < 0x0c then (if x < 0x09 then 0x58684870 else if x < 0x0a then 0x5365417e else if x < 0x0b then 0x4e725a6c else 0x457f5362)
      else if x < 0x0d then 0x745c6c48 else if x < 0x0e then 0x7f516546 else if x < 0x0f then 0x62467e54 else 0x694b775a
    else if x < 0x20 then
      if x < 0x14 then (if x < 0x11 then 0xb0d090e0 else if x < 0x12 then 0xbbdd99ee else if x < 0x13 then 0xa6ca82fc else 0xadc78bf2)
      else if x < 0x18 then (if x < 0x15 then 0x9ce4b4d8 else if x < 0x16 then 0x97e9bdd6 else if x < 0x17 then 0x8afea6c4 else 0x81f3afca)
      else if x < 0x1c then (if x < 0x19 then 0xe8b8d890 else if x < 0x1a then 0xe3b5d19e else if x < 0x1b then 0xfea2ca8c else 0xf5afc382)
      else if x < 0x1d then 0xc48cfca8 else if x < 0x1e then 0xcf81f5a6 else if x < 0x1f then 0xd296eeb4 else 0xd99be7ba
    else if x < 0x30 then
      if x < 0x24 then (if x < 0x21 then 0x7bbb3bdb else if x < 0x22 then 0x70b632d5 else if x < 0x23 then 0x6da129c7 else 0x66ac20c9)
      else if x < 0x28 then (if x < 0x25 then 0x578f1fe3 else if x < 0x26 then 0x5c8216ed else if x < 0x27 then 0x41950dff else 0x4a9804f1)
      else if x < 0x2c then (if x < 0x29 then 0x23d373ab else if x < 0x2a then 0x28de7aa5 else if x < 0x2b then 0x35c961b7 else 0x3ec468b9)
      else if x < 0x2d then 0x0fe75793 else if x < 0x2e then 0x04ea5e9d else if x < 0x2f then 0x19fd458f else 0x12f04c81
    else if x < 0x40 then
      if x < 0x34 then (if x < 0x31 then 0xcb6bab3b else if x < 0x32 then 0xc066a235 else if x < 0x33 then 0xdd71b927 else 0xd67cb029)
      else if x < 0x38 then (if x < 0x35 then 0xe75f8f03 else if x < 0x36 then 0xec52860d else if x < 0x37 then 0xf1459d1f else 0xfa489411)
      else if x < 0x3c then (if x < 0x39 then 0x9303e34b else if x < 0x3a then 0x980eea45 else if x < 0x3b then 0x8519f157 else 0x8e14f859)
      else if x < 0x3d then 0xbf37c773 else if x < 0x3e then 0xb43ace7d else if x < 0x3f then 0xa92dd56f else 0xa220dc61
    else if x < 0x50 then
      if x < 0x44 then (if x < 0x41 then 0xf66d76ad else if x < 0x42 then 0xfd607fa3 else if x < 0x43 then 0xe07764b1 else 0xeb7a6dbf)
      else if x < 0x48 then (if x < 0x45 then 0xda595295 else if x < 0x46 then 0xd1545b9b else if x < 0x47 then 0xcc434089 else 0xc74e4987)
      else if x < 0x4c then (if x < 0x49 then 0xae053edd else if x < 0x4a then 0xa50837d3 else if x < 0x4b then 0xb81f2cc1 else 0xb31225cf)
      else if x < 0x4d then 0x82311ae5 else if x < 0x4e then 0x893c13eb else if x < 0x4f then 0x942b08f9 else 0x9f2601f7
    else if x < 0x60 then
      if x < 0x54 then (if x < 0x51 then 0x46bde64d else if x < 0x52 then 0x4db0ef43 else if x < 0x53 then 0x50a7f451 else 0x5baafd5f)
      else if x < 0x58 then (if x < 0x55 then 0x6a89c275 else if x < 0x56 then 0x6184cb7b else if x < 0x57 then 0x7c93d069 else 0x779ed967)
      else if x < 0x5c then (if x < 0x59 then 0x1ed5ae3d else if x < 0x5a then 0x15d8a733 else if x < 0x5b then 0x08cfbc21 else 0x03c2b52f)
      else if x < 0x5d then 0x32e18a05 else if x < 0x5e then 0x39ec830b else if x < 0x5f then 0x24fb9819 else 0x2ff69117
    else if x < 0x70 then
      if x < 0x64 then (if x < 0x61 then 0x8dd64d76 else if x < 0x62 then 0x86db4478 else if x < 0x63 then 0x9bcc5f6a else 0x90c15664)
      else if x < 0x68 then (if x < 0x65 then 0xa1e2694e else if x < 0x66 then 0xaaef6040 else if x < 0x67 then 0xb7f87b52 else 0xbcf5725c)
      else if x < 0x6c then (if x < 0x69 then 0xd5be0506 else if x < 0x6a then 0xdeb30c08 else if x < 0x6b then 0xc3a4171a else 0xc8a91e14)
      else if x < 0x6d then 0xf98a213e else if x < 0x6e then 0xf2872830 else if x < 0x6f then 0xef903322 else 0xe49d3a2c
    else if x < 0x80 then
      if x < 0x74 then (if x < 0x71 then 0x3d06dd96 else if x < 0x72 then 0x360bd498 else if x < 0x73 then 0x2b1ccf8a else 0x2011c684)
      else if x < 0x78 then (if x < 0x75 then 0x1132f9ae else if x < 0x76 then 0x1a3ff0a0 else if x < 0x77 then 0x0728ebb2 else 0x0c25e2bc)
      else if x < 0x7c then (if x < 0x79 then 0x656e95e6 else if x < 0x7a then 0x6e639ce8 else if x < 0x7b then 0x737487fa else 0x78798ef4)
      else if x < 0x7d then 0x495ab1de else if x < 0x7e then 0x4257b8d0 else if x < 0x7f then 0x5f40a3c2 else 0x544daacc
    else if x < 0x90 then
      if x < 0x84 then (if x < 0x81 then 0xf7daec41 else if x < 0x82 then 0xfcd7e54f else if x < 0x83 then 0xe1c0fe5d else 0xeacdf753)
      else if x < 0x88 then (if x < 0x85 then 0xdbeec879 else if x < 0x86 then 0xd0e3c177 else if x < 0x87 then 0xcdf4da65 else 0xc6f9d36b)
      else if x < 0x8c then (if x < 0x89 then 0xafb2a431 else if x < 0x8a then 0xa4bfad3f else if x < 0x8b then 0xb9a8b62d else 0xb2a5bf23)
      else if x < 0x8d then 0x83868009 else if x < 0x8e then 0x888b8907 else if x < 0x8f then 0x959c9215 else 0x9e919b1b
    else if x < 0xa0 then
      if x < 0x94 then (if x < 0x91 then 0x470a7ca1 else if x < 0x92 then 0x4c0775af else if x < 0x93 then 0x51106ebd else 0x5a1d67b3)
      else if x < 0x98 then (if x < 0x95 then 0x6b3e5899 else if x < 0x96 then 0x60335197 else if x < 0x97 then 0x7d244a85 else 0x7629438b)
      else if x < 0x9c then (if x < 0x99 then 0x1f6234d1 else if x < 0x9a then 0x146f3ddf else if x < 0x9b then 0x097826cd else 0x02752fc3)
      else if x < 0x9d then 0x335610e9 else if x < 0x9e then 0x385b19e7 else if x < 0x9f then 0x254c02f5 else 0x2e410bfb
    else if x < 0xb0 then
      if x < 0xa4 then (if x < 0xa1 then 0x8c61d79a else if x < 0xa2 then 0x876cde94 else if x < 0xa3 then 0x9a7bc586 else 0x9176cc88)
      else if x < 0xa8 then (if x < 0xa5 then 0xa055f3a2 else if x < 0xa6 then 0xab58faac else if x < 0xa7 then 0xb64fe1be else 0xbd42e8b0)
      else if x < 0xac then (if x < 0xa9 then 0xd4099fea else if x < 0xaa then 0xdf0496e4 else if x < 0xab then 0xc2138df6 else 0xc91e84f8)
      else if x < 0xad then 0xf83dbbd2 else if x < 0xae then 0xf330b2dc else if x < 0xaf then 0xee27a9ce else 0xe52aa0c0
    else if x < 0xc0 then
      if x < 0xb4 then (if x < 0xb1 then 0x3cb1477a else if x < 0xb2 then 0x37bc4e74 else if x < 0xb3 then 0x2aab5566 else 0x21a65c68)
      else if x < 0xb8 then (if x < 0xb5 then 0x10856342 else if x < 0xb6 then 0x1b886a4c else if x < 0xb7 then 0x069f715e else 0x0d927850)
      else if x < 0xbc then (if x < 0xb9 then 0x64d90f0a else if x < 0xba then 0x6fd40604 else if x < 0xbb then 0x72c31d16 else 0x79ce1418)
      else if x < 0xbd then 0x48ed2b32 else if x < 0xbe then 0x43e0223c else if x < 0xbf then 0x5ef7392e else 0x55fa3020
    else if x < 0xd0 then
      if x < 0xc4 then (if x < 0xc1 then 0x01b79aec else if x < 0xc2 then 0x0aba93e2 else if x < 0xc3 then 0x17ad88f0 else 0x1ca081fe)
      else if x < 0xc8 then (if x < 0xc5 then 0x2d83bed4 else if x < 0xc6 then 0x268eb7da else if x < 0xc7 then 0x3b99acc8 else 0x3094a5c6)
      else if x < 0xcc then (if x < 0xc9 then 0x59dfd29c else if x < 0xca then 0x52d2db92 else if x < 0xcb then 0x4fc5c080 else 0x44c8c98e)
      else if x < 0xcd then 0x75ebf6a4 else if x < 0xce then 0x7ee6ffaa else if x < 0xcf then 0x63f1e4b8 else 0x68fcedb6
    else if x < 0xe0 then
      if x < 0xd4 then (if x < 0xd1 then 0xb1670a0c else if x < 0xd2 then 0xba6a0302 else if x < 0xd3 then 0xa77d1810 else 0xac70111e)
      else if x < 0xd8 then (if x < 0xd5 then 0x9d532e34 else if x < 0xd6 then 0x965e273a else if x < 0xd7 then 0x8b493c28 else 0x80443526)
      else if x < 0xdc then (if x < 0xd9 then 0xe90f427c else if x < 0xda then 0xe2024b72 else if x < 0xdb then 0xff155060 else 0xf418596e)
      else if x < 0xdd then 0xc53b6644 else if x < 0xde then 0xce366f4a else if x < 0xdf then 0xd3217458 else 0xd82c7d56
    else if x < 0xf0 then
      if x < 0xe4 then (if x < 0xe1 then 0x7a0ca137 else if x < 0xe2 then 0x7101a839 else if x < 0xe3 then 0x6c16b32b else 0x671bba25)
      else if x < 0xe8 then (if x < 0xe5 then 0x5638850f else if x < 0xe6 then 0x5d358c01 else if x < 0xe7 then 0x40229713 else 0x4b2f9e1d)
      else if x < 0xec then (if x < 0xe9 then 0x2264e947 else if x < 0xea then 0x2969e049 else if x < 0xeb then 0x347efb5b else 0x3f73f255)
      else if x < 0xed then 0x0e50cd7f else if x < 0xee then 0x055dc471 else if x < 0xef then 0x184adf63 else 0x1347d66d
    else
      if x < 0xf4 then (if x < 0xf1 then 0xcadc31d7 else if x < 0xf2 then 0xc1d138d9 else if x < 0xf3 then 0xdcc623cb else 0xd7cb2ac5)
      else if x < 0xf8 then (if x < 0xf5 then 0xe6e815ef else if x < 0xf6 then 0xede51ce1 else if x < 0xf7 then 0xf0f207f3 else 0xfbff0efd)
      else if x < 0xfc then (if x < 0xf9 then 0x92b479a7 else if x < 0xfa then 0x99b970a9 else if x < 0xfb then 0x84ae6bbb else 0x8fa362b5)
      else if x < 0xfd then 0xbe805d9f else if x < 0xfe then 0xb58d5491 else if x < 0xff then 0xa89a4f83 else 0xa397468d
  }

  /** The table `li_table`; `il_tab[n][x]` is `LiTable(x)` moved up by `n` bytes. */
  function LiTable(x: bv8): bv32 {
    if x < 0x10 then
      if x < 0x04 then (if x < 0x01 then 0x52 else if x < 0x02 then 0x09 else if x < 0x03 then 0x6a else 0xd5)
      else if x < 0x08 then (if x < 0x05 then 0x30 else if x < 0x06 then 0x36 else if x < 0x07 then 0xa5 else 0x38)
      else if x < 0x0c then (if x < 0x09 then 0xbf else if x < 0x0a then 0x40 else if x < 0x0b then 0xa3 else 0x9e)
      else if x < 0x0d then 0x81 else if x < 0x0e then 0xf3 else if x < 0x0f then 0xd7 else 0xfb
    else if x < 0x20 then
      if x < 0x14 then (if x < 0x11 then 0x7c else if x < 0x12 then 0xe3 else if x < 0x13 then 0x39 else 0x82)
      else if x < 0x18 then (if x < 0x15 then 0x9b else if x < 0x16 then 0x2f else if x < 0x17 then 0xff else 0x87)
      else if x < 0x1c then (if x < 0x19 then 0x34 else if x < 0x1a then 0x8e else if x < 0x1b then 0x43 else 0x44)
      else if x < 0x1d then 0xc4 else if x < 0x1e then 0xde else if x < 0x1f then 0xe9 else 0xcb
    else if x < 0x30 then
      if x < 0x24 then (if x < 0x21 then 0x54 else if x < 0x22 then 0x7b else if x < 0x23 then 0x94 else 0x32)
      else if x < 0x28 then (if x < 0x25 then 0xa6 else if x < 0x26 then 0xc2 else if x < 0x27 then 0x23 else 0x3d)
      else if x < 0x2c then (if x < 0x29 then 0xee else if x < 0x2a then 0x4c else if x < 0x2b then 0x95 else 0x0b)
      else if x < 0x2d then 0x42 else if x < 0x2e then 0xfa else if x < 0x2f then 0xc3 else 0x4e
    else if x < 0x40 then
      if x < 0x34 then (if x < 0x31 then 0x08 else if x < 0x32 then 0x2e else if x < 0x33 then 0xa1 else 0x66)
      else if x < 0x38 then (if x < 0x35 then 0x28 else if x < 0x36 then 0xd9 else if x < 0x37 then 0x24 else 0xb2)
      else if x < 0x3c then (if x < 0x39 then 0x76 else if x < 0x3a then 0x5b else if x < 0x3b then 0xa2 else 0x49)
      else if x < 0x3d then 0x6d else if x < 0x3e then 0x8b else if x < 0x3f then 0xd1 else 0x25
    else if x < 0x50 then
      if x < 0x44 then (if x < 0x41 then 0x72 else if x < 0x42 then 0xf8 else if x < 0x43 then 0xf6 else 0x64)
      else if x < 0x48 then (if x < 0x45 then 0x86 else if x < 0x46 then 0x68 else if x < 0x47 then 0x98 else 0x16)
      else if x < 0x4c then (if x < 0x49 then 0xd4 else if x < 0x4a then 0xa4 else if x < 0x4b then 0x5c else 0xcc)
      else if x < 0x4d then 0x5d else if x < 0x4e then 0x65 else if x < 0x4f then 0xb6 else 0x92
    else if x < 0x60 then
      if x < 0x54 then (if x < 0x51 then 0x6c else if x < 0x52 then 0x70 else if x < 0x53 then 0x48 else 0x50)
      else if x < 0x58 then (if x < 0x55 then 0xfd else if x < 0x56 then 0xed else if x < 0x57 then 0xb9 else 0xda)
      else if x < 0x5c then (if x < 0x59 then 0x5e else if x < 0x5a then 0x15 else if x < 0x5b then 0x46 else 0x57)
      else if x < 0x5d then 0xa7 else if x < 0x5e then 0x8d else if x < 0x5f then 0x9d else 0x84
    else if x < 0x70 then
      if x < 0x64 then (if x < 0x61 then 0x90 else if x < 0x62 then 0xd8 else if x < 0x63 then 0xab else 0x00)
      else if x < 0x68 then (if x < 0x65 then 0x8c else if x < 0x66 then 0xbc else if x < 0x67 then 0xd3 else 0x0a)
      else if x < 0x6c then (if x < 0x69 then 0xf7 else if x < 0x6a then 0xe4 else if x < 0x6b then 0x58 else 0x05)
      else if x < 0x6d then 0xb8 else if x < 0x6e then 0xb3 else if x < 0x6f then 0x45 else 0x06
    else if x < 0x80 then
      if x < 0x74 then (if x < 0x71 then 0xd0 else if x < 0x72 then 0x2c else if x < 0x73 then 0x1e else 0x8f)
      else if x < 0x78 then (if x < 0x75 then 0xca else if x < 0x76 then 0x3f else if x < 0x77 then 0x0f else 0x02)
      else if x < 0x7c then (if x < 0x79 then 0xc1 else if x < 0x7a then 0xaf else if x < 0x7b then 0xbd else 0x03)
      else if x < 0x7d then 0x01 else if x < 0x7e then 0x13 else if x < 0x7f then 0x8a else 0x6b
    else if x < 0x90 then
      if x < 0x84 then (if x < 0x81 then 0x3a else if x < 0x82 then 0x91 else if x < 0x83 then 0x11 else 0x41)
      else if x < 0x88 then (if x < 0x85 then 0x4f else if x < 0x86 then 0x67 else if x < 0x87 then 0xdc else 0xea)
      else if x < 0x8c then (if x < 0x89 then 0x97 else if x < 0x8a then 0xf2 else if x < 0x8b then 0xcf else 0xce)
      else if x < 0x8d then 0xf0 else if x < 0x8e then 0xb4 else if x < 0x8f then 0xe6 else 0x73
    else if x < 0xa0 then
      if x < 0x94 then (if x < 0x91 then 0x96 else if x < 0x92 then 0xac else if x < 0x93 then 0x74 else 0x22)
      else if x < 0x98 then (if x < 0x95 then 0xe7 else if x < 0x96 then 0xad else if x < 0x97 then 0x35 else 0x85)
      else if x < 0x9c then (if x < 0x99 then 0xe2 else if x < 0x9a then 0xf9 else if x < 0x9b then 0x37 else 0xe8)
      else if x < 0x9d then 0x1c else if x < 0x9e then 0x75 else if x < 0x9f then 0xdf else 0x6e
    else if x < 0xb0 then
      if x < 0xa4 then (if x < 0xa1 then 0x47 else if x < 0xa2 then 0xf1 else if x < 0xa3 then 0x1a else 0x71)
      else if x < 0xa8 then (if x < 0xa5 then 0x1d else if x < 0xa6 then 0x29 else if x < 0xa7 then 0xc5 else 0x89)
      else if x < 0xac then (if x < 0xa9 then 0x6f else if x < 0xaa then 0xb7 else if x < 0xab then 0x62 else 0x0e)
      else if x < 0xad then 0xaa else if x < 0xae then 0x18 else if x < 0xaf then 0xbe else 0x1b
    else if x < 0xc0 then
      if x < 0xb4 then (if x < 0xb1 then 0xfc else if x < 0xb2 then 0x56 else if x < 0xb3 then 0x3e else 0x4b)
      else if x < 0xb8 then (if x < 0xb5 then 0xc6 else if x < 0xb6 then 0xd2 else if x < 0xb7 then 0x79 else 0x20)
      else if x < 0xbc then (if x < 0xb9 then 0x9a else if x < 0xba then 0xdb else if x < 0xbb then 0xc0 else 0xfe)
      else if x < 0xbd then 0x78 else if x < 0xbe then 0xcd else if x < 0xbf then 0x5a else 0xf4
    else if x < 0xd0 then
      if x < 0xc4 then (if x < 0xc1 then 0x1f else if x < 0xc2 then 0xdd else if x < 0xc3 then 0xa8 else 0x33)
      else if x < 0xc8 then (if x < 0xc5 then 0x88 else if x < 0xc6 then 0x07 else if x < 0xc7 then 0xc7 else 0x31)
      else if x < 0xcc then (if x < 0xc9 then 0xb1 else if x < 0xca then 0x12 else if x < 0xcb then 0x10 else 0x59)
      else if x < 0xcd then 0x27 else if x < 0xce then 0x80 else if x < 0xcf then 0xec else 0x5f
    else if x < 0xe0 then
      if x < 0xd4 then (if x < 0xd1 then 0x60 else if x < 0xd2 then 0x51 else if x < 0xd3 then 0x7f else 0xa9)
      else if x < 0xd8 then (if x < 0xd5 then 0x19 else if x < 0xd6 then 0xb5 else if x < 0xd7 then 0x4a else 0x0d)
      else if x < 0xdc then (if x < 0xd9 then 0x2d else if x < 0xda then 0xe5 else if x < 0xdb then 0x7a else 0x9f)
      else if x < 0xdd then 0x93 else if x < 0xde then 0xc9 else if x < 0xdf then 0x9c else 0xef
    else if x < 0xf0 then
      if x < 0xe4 then (if x < 0xe1 then 0xa0 else if x < 0xe2 then 0xe0 else if x < 0xe3 then 0x3b else 0x4d)
      else if x < 0xe8 then (if x < 0xe5 then 0xae else if x < 0xe6 then 0x2a else if x < 0xe7 then 0xf5 else 0xb0)
      else if x < 0xec then (if x < 0xe9 then 0xc8 else if x < 0xea then 0xeb else if x < 0xeb then 0xbb else 0x3c)
      else if x < 0xed then 0x83 else if x < 0xee then 0x53 else if x < 0xef then 0x99 else 0x61
    else
      if x < 0xf4 then (if x < 0xf1 then 0x17 else if x < 0xf2 then 0x2b else if x < 0xf3 then 0x04 else 0x7e)
      else if x < 0xf8 then (if x < 0xf5 then 0xba else if x < 0xf6 then 0x77 else if x < 0xf7 then 0xd6 else 0x26)
      else if x < 0xfc then (if x < 0xf9 then 0xe1 else if x < 0xfa then 0x69 else if x < 0xfb then 0x14 else 0x63)
      else if x < 0xfd then 0x55 else if x < 0xfe then 0x21 else if x < 0xff then 0x0c else 0x7d
  }

  /** The substitution box: `fl_tab[n][x]` is `SBox(x)` moved up by `n` bytes. */
  function SBox(x: bv8): bv8 {
    Bval2(FTable(x))
  }

  /** Its inverse. */
  function InvSBox(x: bv8): bv8 {
    Bval0(LiTable(x))
  }

  // ---------- what the tables hold ----------

  ghost predicate FHolds(x: bv8) {
    FTable(x) == FwdMcol(SBox(x) as bv32)
  }

  ghost predicate IHolds(x: bv8) {
    ITable(x) == InvMcol(InvSBox(x) as bv32) && LiTable(x) == InvSBox(x) as bv32
  }

  ghost predicate MHolds(x: bv8) {
    MTable(x) == InvMcol(x as bv32)
  }

  ghost predicate Undone(x: bv8) {
    InvSBox(SBox(x)) == x
  }

  ghost predicate Redone(x: bv8) {
    SBox(InvSBox(x)) == x
  }

  /** The product in the field with polynomial 0x11b. */
  function FieldMul(a: bv8, b: bv8): bv8 {
    var a1 := Xtime(a);
    var a2 := Xtime(a1);
    var a3 := Xtime(a2);
    var a4 := Xtime(a3);
    var a5 := Xtime(a4);
    var a6 := Xtime(a5);
    var a7 := Xtime(a6);
    (a * (b & 1)) ^ (a1 * ((b >> 1) & 1)) ^ (a2 * ((b >> 2) & 1)) ^ (a3 * ((b >> 3) & 1))
    ^ (a4 * ((b >> 4) & 1)) ^ (a5 * ((b >> 5) & 1)) ^ (a6 * ((b >> 6) & 1)) ^ (a7 * (b >> 7))
  }

  function Xtime(a: bv8): bv8 {
    (a << 1) ^ ((a >> 7) * 0x1b)
  }

  /** `inv_affine`. */
  function InvAffine(x: bv8): bv8 {
    var w := (x as bv16 << 1) ^ (x as bv16 << 3) ^ (x as bv16 << 6);
    0x05 ^ ((w ^ (w >> 8)) & 0xff) as bv8
  }

  /** The substitution box of section 5.1.1 of FIPS 197: undoing the affine map gives the inverse in the field. */
  ghost predicate IsFieldInverse(x: bv8) {
    if x == 0 then InvAffine(SBox(x)) == 0 else FieldMul(x, InvAffine(SBox(x))) == 1
  }

  lemma FTableHolds(x: bv8)
    ensures FHolds(x)
  {
    if x < 0x10 { assert FHolds(x); } else if x < 0x20 { assert FHolds(x); } else if x < 0x30 { assert FHolds(x); } else if x < 0x40 { assert FHolds(x); }
    else if x < 0x50 { assert FHolds(x); } else if x < 0x60 { assert FHolds(x); } else if x < 0x70 { assert FHolds(x); } else if x < 0x80 { assert FHolds(x); }
    else if x < 0x90 { assert FHolds(x); } else if x < 0xa0 { assert FHolds(x); } else if x < 0xb0 { assert FHolds(x); } else if x < 0xc0 { assert FHolds(x); }
    else if x < 0xd0 { assert FHolds(x); } else if x < 0xe0 { assert FHolds(x); } else if x < 0xf0 { assert FHolds(x); } else { assert FHolds(x); }
  }

  lemma ITableHolds(x: bv8)
    ensures IHolds(x)
  {
    if x < 0x80 {
      ITableHoldsLow(x);
    } else {
      ITableHoldsHigh(x);
    }
  }

  lemma ITableHoldsLow(x: bv8)
    requires x < 0x80
    ensures IHolds(x)
  {
    if x < 0x10 { assert IHolds(x); } else if x < 0x20 { assert IHolds(x); } else if x < 0x30 { assert IHolds(x); } else if x < 0x40 { assert IHolds(x); }
    else if x < 0x50 { assert IHolds(x); } else if x < 0x60 { assert IHolds(x); } else if x < 0x70 { assert IHolds(x); } else { assert IHolds(x); }
  }

  lemma ITableHoldsHigh(x: bv8)
    requires x >= 0x80
    ensures IHolds(x)
  {
    if x < 0x90 { assert IHolds(x); } else if x < 0xa0 { assert IHolds(x); } else if x < 0xb0 { assert IHolds(x); } else if x < 0xc0 { assert IHolds(x); }
    else if x < 0xd0 { assert IHolds(x); } else if x < 0xe0 { assert IHolds(x); } else if x < 0xf0 { assert IHolds(x); } else { assert IHolds(x); }
  }

  lemma MTableHolds(x: bv8)
    ensures MHolds(x)
  {
    if x < 0x10 { assert MHolds(x); } else if x < 0x20 { assert MHolds(x); } else if x < 0x30 { assert MHolds(x); } else if x < 0x40 { assert MHolds(x); }
    else if x < 0x50 { assert MHolds(x); } else if x < 0x60 { assert MHolds(x); } else if x < 0x70 { assert MHolds(x); } else if x < 0x80 { assert MHolds(x); }
    else if x < 0x90 { assert MHolds(x); } else if x < 0xa0 { assert MHolds(x); } else if x < 0xb0 { assert MHolds(x); } else if x < 0xc0 { assert MHolds(x); }
    else if x < 0xd0 { assert MHolds(x); } else if x < 0xe0 { assert MHolds(x); } else if x < 0xf0 { assert MHolds(x); } else { assert MHolds(x); }
  }

  lemma SBoxUndone(x: bv8)
    ensures Undone(x)
  {
    if x < 0x10 { assert Undone(x); } else if x < 0x20 { assert Undone(x); } else if x < 0x30 { assert Undone(x); } else if x < 0x40 { assert Undone(x); }
    else if x < 0x50 { assert Undone(x); } else if x < 0x60 { assert Undone(x); } else if x < 0x70 { assert Undone(x); } else if x < 0x80 { assert Undone(x); }
    else if x < 0x90 { assert Undone(x); } else if x < 0xa0 { assert Undone(x); } else if x < 0xb0 { assert Undone(x); } else if x < 0xc0 { assert Undone(x); }
    else if x < 0xd0 { assert Undone(x); } else if x < 0xe0 { assert Undone(x); } else if x < 0xf0 { assert Undone(x); } else { assert Undone(x); }
  }

  lemma InvSBoxUndone(x: bv8)
    ensures Redone(x)
  {
    if x < 0x10 { assert Redone(x); } else if x < 0x20 { assert Redone(x); } else if x < 0x30 { assert Redone(x); } else if x < 0x40 { assert Redone(x); }
    else if x < 0x50 { assert Redone(x); } else if x < 0x60 { assert Redone(x); } else if x < 0x70 { assert Redone(x); } else if x < 0x80 { assert Redone(x); }
    else if x < 0x90 { assert Redone(x); } else if x < 0xa0 { assert Redone(x); } else if x < 0xb0 { assert Redone(x); } else if x < 0xc0 { assert Redone(x); }
    else if x < 0xd0 { assert Redone(x); } else if x < 0xe0 { assert Redone(x); } else if x < 0xf0 { assert Redone(x); } else { assert Redone(x); }
  }

  /** The two boxes are each other's inverse, so each is a bijection on bytes. */
  lemma SBoxIsBijective(x: bv8, y: bv8)
    ensures SBox(x) == y <==> InvSBox(y) == x
  {
    SBoxUndone(x);
    InvSBoxUndone(y);
    hide SBox, InvSBox;
  }

  lemma SBoxIsFieldInverse(x: bv8)
    ensures IsFieldInverse(x)
  {
    if x < 0x10 { assert IsFieldInverse(x); } else if x < 0x20 { assert IsFieldInverse(x); } else if x < 0x30 { assert IsFieldInverse(x); } else if x < 0x40 { assert IsFieldInverse(x); }
    else if x < 0x50 { assert IsFieldInverse(x); } else if x < 0x60 { assert IsFieldInverse(x); } else if x < 0x70 { assert IsFieldInverse(x); } else if x < 0x80 { assert IsFieldInverse(x); }
    else if x < 0x90 { assert IsFieldInverse(x); } else if x < 0xa0 { assert IsFieldInverse(x); } else if x < 0xb0 { assert IsFieldInverse(x); } else if x < 0xc0 { assert IsFieldInverse(x); }
    else if x < 0xd0 { assert IsFieldInverse(x); } else if x < 0xe0 { assert IsFieldInverse(x); } else if x < 0xf0 { assert IsFieldInverse(x); } else { assert IsFieldInverse(x); }
  }
}

/** Bytes of the AES cipher as elements of its field, and columns of four of them. */
module AesField {
  import opened Bytes

  /** Multiplication by {02} in the field of the cipher, and the powers of it. */
  function X2(x: Byte): Byte { (x << 1) ^ Reduce(x) }
  function Reduce(x: Byte): Byte { if x & 0x80 != 0 then 0x1b else 0 }
  function X4(x: Byte): Byte { X2(X2(x)) }
  function X8(x: Byte): Byte { X2(X4(x)) }

  function Mul3(x: Byte): Byte { Xor(X2(x), x) }
  function Mul9(x: Byte): Byte { Xor(X8(x), x) }
  function MulB(x: Byte): Byte { Xor(Xor(X8(x), X2(x)), x) }
  function MulD(x: Byte): Byte { Xor(Xor(X8(x), X4(x)), x) }
  function MulE(x: Byte): Byte { Xor(Xor(X8(x), X4(x)), X2(x)) }

  function Sum4(a: Byte, b: Byte, c: Byte, d: Byte): Byte { Xor(Xor(a, b), Xor(c, d)) }

  // ---- the field adds by exclusive or ----

  lemma Swap(a: Byte, b: Byte, c: Byte, d: Byte)
    ensures Xor(Xor(a, b), Xor(c, d)) == Xor(Xor(a, c), Xor(b, d))
  {
    hide Xor;
    Assoc(a, b, Xor(c, d));
    Assoc(b, c, d);
    Comm(b, c);
    Assoc(c, b, d);
    Assoc(a, c, Xor(b, d));
  }

  lemma ShiftAdds(x: Byte, y: Byte)
    ensures (x ^ y) << 1 == (x << 1) ^ (y << 1)
  {
  }

  lemma ReduceAdds(x: Byte, y: Byte)
    ensures Reduce(x ^ y) == Reduce(x) ^ Reduce(y)
  {
  }

  lemma X2Raw(x: Byte, y: Byte)
    ensures X2(x ^ y) == X2(x) ^ X2(y)
  {
    hide Reduce;
    ShiftAdds(x, y);
    ReduceAdds(x, y);
  }

  /** Multiplication by {02} distributes over addition, and so do its powers and the
      multipliers made of them. */
  lemma X2Adds(x: Byte, y: Byte)
    ensures X2(Xor(x, y)) == Xor(X2(x), X2(y))
  {
    hide X2;
    X2Raw(x, y);
    assert Xor(x, y) == x ^ y;
    assert Xor(X2(x), X2(y)) == X2(x) ^ X2(y);
  }

  lemma PowersAdd(x: Byte, y: Byte)
    ensures X4(Xor(x, y)) == Xor(X4(x), X4(y)) && X8(Xor(x, y)) == Xor(X8(x), X8(y))
  {
    hide Xor, X2;
    X2Adds(x, y);
    X2Adds(X2(x), X2(y));
    X2Adds(X4(x), X4(y));
  }

  lemma MulsAdd(x: Byte, y: Byte)
    ensures Mul9(Xor(x, y)) == Xor(Mul9(x), Mul9(y)) && MulB(Xor(x, y)) == Xor(MulB(x), MulB(y))
    ensures MulD(Xor(x, y)) == Xor(MulD(x), MulD(y)) && MulE(Xor(x, y)) == Xor(MulE(x), MulE(y))
  {
    hide Xor, X2, X4, X8;
    X2Adds(x, y);
    PowersAdd(x, y);
    Swap(X8(x), X8(y), x, y);
    Swap(X8(x), X8(y), X2(x), X2(y));
    Swap(Xor(X8(x), X2(x)), Xor(X8(y), X2(y)), x, y);
    Swap(X8(x), X8(y), X4(x), X4(y));
    Swap(Xor(X8(x), X4(x)), Xor(X8(y), X4(y)), x, y);
    Swap(Xor(X8(x), X4(x)), Xor(X8(y), X4(y)), X2(x), X2(y));
  }

  // ---- sums of four ----

  lemma Transpose(a0: Byte, a1: Byte, a2: Byte, a3: Byte, b0: Byte, b1: Byte, b2: Byte, b3: Byte)
    ensures Xor(Sum4(a0, a1, a2, a3), Sum4(b0, b1, b2, b3)) == Sum4(Xor(a0, b0), Xor(a1, b1), Xor(a2, b2), Xor(a3, b3))
  {
    hide Xor;
    Swap(Xor(a0, a1), Xor(a2, a3), Xor(b0, b1), Xor(b2, b3));
    Swap(a0, a1, b0, b1);
    Swap(a2, a3, b2, b3);
  }

  lemma Rotate(a: Byte, b: Byte, c: Byte, d: Byte)
    ensures Sum4(a, b, c, d) == Sum4(b, c, d, a)
  {
    hide Xor;
    Comm(a, b);
    Assoc(b, a, Xor(c, d));
    Comm(a, Xor(c, d));
    Assoc(c, d, a);
    Assoc(b, c, Xor(d, a));
  }

  lemma MulsAdd4(a: Byte, b: Byte, c: Byte, d: Byte)
    ensures Mul9(Sum4(a, b, c, d)) == Sum4(Mul9(a), Mul9(b), Mul9(c), Mul9(d))
    ensures MulB(Sum4(a, b, c, d)) == Sum4(MulB(a), MulB(b), MulB(c), MulB(d))
    ensures MulD(Sum4(a, b, c, d)) == Sum4(MulD(a), MulD(b), MulD(c), MulD(d))
    ensures MulE(Sum4(a, b, c, d)) == Sum4(MulE(a), MulE(b), MulE(c), MulE(d))
  {
    hide Xor, Mul9, MulB, MulD, MulE;
    MulsAdd(Xor(a, b), Xor(c, d));
    MulsAdd(a, b);
    MulsAdd(c, d);
  }

  // The multiples of {02} times a byte, in terms of its powers.
  lemma MulsOfX2(x: Byte)
    ensures var t, s, r, q := X2(X8(x)), X8(x), X4(x), X2(x);
            && Mul9(q) == Xor(t, q) && MulB(q) == Xor(Xor(t, r), q)
            && MulD(q) == Xor(Xor(t, s), q) && MulE(q) == Xor(Xor(t, s), r)
  {
    hide X2, Xor;
  }

  // Sums written out as exclusive ors of bits.
  lemma Bits2(a: Byte, b: Byte)
    ensures Xor(a, b) == a ^ b
  {
  }

  lemma Bits3(a: Byte, b: Byte, c: Byte)
    ensures Xor(Xor(a, b), c) == (a ^ b) ^ c
  {
  }

  lemma Bits6(a: Byte, b: Byte, c: Byte, d: Byte, e: Byte, f: Byte)
    ensures Xor(Xor(Xor(a, b), c), Xor(Xor(d, e), f)) == ((a ^ b) ^ c) ^ ((d ^ e) ^ f)
  {
    hide Xor;
    Bits3(a, b, c);
    Bits3(d, e, f);
    Bits2(Xor(Xor(a, b), c), Xor(Xor(d, e), f));
  }

  lemma Bits4(a: Byte, b: Byte, c: Byte, d: Byte)
    ensures Xor(Xor(a, b), Xor(c, d)) == (a ^ b) ^ (c ^ d)
  {
  }

  lemma BitsOfSum(a: Byte, b: Byte, c: Byte, d: Byte)
    ensures Sum4(a, b, c, d) == (a ^ b) ^ (c ^ d)
  {
  }

  // Every power in these sums comes in pairs, but for the one that is left.
  lemma Pairs(t: Byte, s: Byte, r: Byte, q: Byte, p: Byte)
    ensures ((((t ^ s) ^ r) ^ ((s ^ q) ^ p)) ^ (((s ^ r) ^ p) ^ ((t ^ q) ^ (s ^ p)))) == p
    ensures (((((t ^ s) ^ r) ^ ((s ^ r) ^ q)) ^ ((t ^ r) ^ q)) ^ (((s ^ r) ^ p) ^ (s ^ p))) == 0
    ensures ((((s ^ r) ^ q) ^ (((t ^ r) ^ q) ^ ((s ^ q) ^ p))) ^ (((t ^ s) ^ q) ^ (s ^ p))) == 0
    ensures ((((s ^ r) ^ q) ^ ((s ^ q) ^ p)) ^ ((((t ^ s) ^ q) ^ ((s ^ r) ^ p)) ^ (t ^ q))) == 0
  {
  }

  lemma Cancel0(t: Byte, s: Byte, r: Byte, q: Byte, p: Byte)
    ensures Sum4(Xor(Xor(t, s), r), Xor(Xor(s, q), p), Xor(Xor(s, r), p), Xor(Xor(t, q), Xor(s, p))) == p
  {
    hide Xor, Sum4;
    Bits3(t, s, r);
    Bits3(s, q, p);
    Bits3(s, r, p);
    Bits4(t, q, s, p);
    BitsOfSum(Xor(Xor(t, s), r), Xor(Xor(s, q), p), Xor(Xor(s, r), p), Xor(Xor(t, q), Xor(s, p)));
    Pairs(t, s, r, q, p);
  }

  lemma Cancel1(t: Byte, s: Byte, r: Byte, q: Byte, p: Byte)
    ensures Sum4(Xor(Xor(Xor(t, s), r), Xor(Xor(s, r), q)), Xor(Xor(t, r), q), Xor(Xor(s, r), p), Xor(s, p)) == 0
  {
    hide Xor, Sum4;
    Bits6(t, s, r, s, r, q);
    Bits3(t, r, q);
    Bits3(s, r, p);
    Bits2(s, p);
    BitsOfSum(Xor(Xor(Xor(t, s), r), Xor(Xor(s, r), q)), Xor(Xor(t, r), q), Xor(Xor(s, r), p), Xor(s, p));
    Pairs(t, s, r, q, p);
  }

  lemma Cancel2(t: Byte, s: Byte, r: Byte, q: Byte, p: Byte)
    ensures Sum4(Xor(Xor(s, r), q), Xor(Xor(Xor(t, r), q), Xor(Xor(s, q), p)), Xor(Xor(t, s), q), Xor(s, p)) == 0
  {
    hide Xor, Sum4;
    Bits3(s, r, q);
    Bits6(t, r, q, s, q, p);
    Bits3(t, s, q);
    Bits2(s, p);
    BitsOfSum(Xor(Xor(s, r), q), Xor(Xor(Xor(t, r), q), Xor(Xor(s, q), p)), Xor(Xor(t, s), q), Xor(s, p));
    Pairs(t, s, r, q, p);
  }

  lemma Cancel3(t: Byte, s: Byte, r: Byte, q: Byte, p: Byte)
    ensures Sum4(Xor(Xor(s, r), q), Xor(Xor(s, q), p), Xor(Xor(Xor(t, s), q), Xor(Xor(s, r), p)), Xor(t, q)) == 0
  {
    hide Xor, Sum4;
    Bits3(s, r, q);
    Bits3(s, q, p);
    Bits6(t, s, q, s, r, p);
    Bits2(t, q);
    BitsOfSum(Xor(Xor(s, r), q), Xor(Xor(s, q), p), Xor(Xor(Xor(t, s), q), Xor(Xor(s, r), p)), Xor(t, q));
    Pairs(t, s, r, q, p);
  }

  // The coefficient of each byte of a column in the first byte of the product of the two
  // mixing matrices: one for the byte itself and none for the others.
  lemma Coefficient0(x: Byte)
    ensures Sum4(MulE(X2(x)), MulB(x), MulD(x), Mul9(Mul3(x))) == x
  {
    hide X2, X4, X8, Xor, Sum4;
    MulsOfX2(x);
    MulsAdd(X2(x), x);
    Cancel0(X2(X8(x)), X8(x), X4(x), X2(x), x);
  }

  lemma Coefficient1(x: Byte)
    ensures Sum4(MulE(Mul3(x)), MulB(X2(x)), MulD(x), Mul9(x)) == 0
  {
    hide X2, X4, X8, Xor, Sum4;
    MulsOfX2(x);
    MulsAdd(X2(x), x);
    Cancel1(X2(X8(x)), X8(x), X4(x), X2(x), x);
  }

  lemma Coefficient2(x: Byte)
    ensures Sum4(MulE(x), MulB(Mul3(x)), MulD(X2(x)), Mul9(x)) == 0
  {
    hide X2, X4, X8, Xor, Sum4;
    MulsOfX2(x);
    MulsAdd(X2(x), x);
    Cancel2(X2(X8(x)), X8(x), X4(x), X2(x), x);
  }

  lemma Coefficient3(x: Byte)
    ensures Sum4(MulE(x), MulB(x), MulD(Mul3(x)), Mul9(X2(x))) == 0
  {
    hide X2, X4, X8, Xor, Sum4;
    MulsOfX2(x);
    MulsAdd(X2(x), x);
    Cancel3(X2(X8(x)), X8(x), X4(x), X2(x), x);
  }
}

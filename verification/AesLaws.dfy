/** The steps of the AES cipher by the formulas of FIPS 197: the substitution table as inverses
    in the field under the affine map (section 5.1.1), and what each step leaves in row r and
    column c (sections 5.1.2 to 5.1.4 and 5.3.1 to 5.3.3). */
module AesLaws {
  import opened Aes
  import opened AesCipher
  import C = AesCipher
  import opened AesField
  import opened AesTables
  import opened Bytes

  function If(b: Byte, bit: Byte, x: Byte): Byte { if b & bit != 0 then x else 0 }

  /** The product in the field: the multiples of a by the powers of {02} that b is a sum of. */
  function Times(a: Byte, b: Byte): Byte {
    var a1 := X2(a);
    var a2 := X2(a1);
    var a3 := X2(a2);
    var a4 := X2(a3);
    var a5 := X2(a4);
    var a6 := X2(a5);
    var a7 := X2(a6);
    If(b, 1, a) ^ If(b, 2, a1) ^ If(b, 4, a2) ^ If(b, 8, a3) ^ If(b, 0x10, a4) ^ If(b, 0x20, a5) ^ If(b, 0x40, a6) ^ If(b, 0x80, a7)
  }

  function Turn(b: Byte, n: Byte): Byte
    requires n <= 8
  {
    (b << n) | (b >> (8 - n))
  }

  /** Each bit added to those four, five, six and seven places on, and {63} added. */
  function Affine(b: Byte): Byte { b ^ Turn(b, 1) ^ Turn(b, 2) ^ Turn(b, 3) ^ Turn(b, 4) ^ 0x63 }
  function Unaffine(s: Byte): Byte { Turn(s, 1) ^ Turn(s, 3) ^ Turn(s, 6) ^ 0x05 }

  lemma AffineBit(b: Byte, i: Byte)
    requires i < 8
    ensures (Affine(b) >> i) & 1
         == ((b >> i) ^ (b >> ((i + 4) % 8)) ^ (b >> ((i + 5) % 8)) ^ (b >> ((i + 6) % 8)) ^ (b >> ((i + 7) % 8)) ^ (0x63 >> i)) & 1
  {
  }

  lemma AffineUndone(s: Byte)
    ensures Affine(Unaffine(s)) == s && Unaffine(Affine(s)) == s
  {
  }

  lemma BoxOfZero()
    ensures SubByte(0) == Affine(0)
  {
  }

  lemma LowBytes(x: Byte)
    requires 0 < x < 0x80
    ensures Times(x, Unaffine(SubByte(x))) == 1
  {
  }

  lemma HighBytes(x: Byte)
    requires 0x80 <= x
    ensures Times(x, Unaffine(SubByte(x))) == 1
  {
  }

  /** The table maps a byte to the affine image of its inverse, and zero to that of zero. */
  lemma BoxIsInverse(x: Byte) returns (y: Byte)
    ensures SubByte(x) == Affine(y) && if x == 0 then y == 0 else Times(x, y) == 1
  {
    hide SubByte, Affine, Unaffine, Times;
    y := Unaffine(SubByte(x));
    AffineUndone(SubByte(x));
    AffineUndone(0);
    BoxOfZero();
    if x >= 0x80 { HighBytes(x); } else if x > 0 { LowBytes(x); }
  }

  // ---- rows and columns ----

  // The rows of the state.
  function Row0(x: State): Col { Col(x.c0.b0, x.c1.b0, x.c2.b0, x.c3.b0) }
  function Row1(x: State): Col { Col(x.c0.b1, x.c1.b1, x.c2.b1, x.c3.b1) }
  function Row2(x: State): Col { Col(x.c0.b2, x.c1.b2, x.c2.b2, x.c3.b2) }
  function Row3(x: State): Col { Col(x.c0.b3, x.c1.b3, x.c2.b3, x.c3.b3) }

  function Substituted(w: Col): Col { Col(SubByte(w.b0), SubByte(w.b1), SubByte(w.b2), SubByte(w.b3)) }

  function Turns(w: Col, n: nat): Col
    decreases n
  {
    if n == 0 then w else Turns(Col(w.b1, w.b2, w.b3, w.b0), n - 1)
  }

  /** Row r is substituted and turned by r places. */
  lemma ShiftRows(x: State)
    ensures var y := SubShift(x);
            && Row0(y) == Substituted(Row0(x)) && Row1(y) == Substituted(Turns(Row1(x), 1))
            && Row2(y) == Substituted(Turns(Row2(x), 2)) && Row3(y) == Substituted(Turns(Row3(x), 3))
  {
    hide SubByte;
    assert Turns(Row2(x), 2) == Turns(Turns(Row2(x), 1), 1);
    assert Turns(Row3(x), 3) == Turns(Turns(Turns(Row3(x), 1), 1), 1);
  }

  lemma Doubles(x: Byte)
    ensures Times(x, 2) == X2(x) && Times(x, 3) == Mul3(x)
  {
    hide X2;
  }

  lemma Nines(x: Byte)
    ensures Times(x, 9) == Mul9(x) && Times(x, 0xb) == MulB(x)
  {
    hide X2;
  }

  lemma Thirteens(x: Byte)
    ensures Times(x, 0xd) == MulD(x)
  {
    hide X2;
  }

  lemma Fourteens(x: Byte)
    ensures Times(x, 0xe) == MulE(x)
  {
    hide X2;
  }

  // One byte of a mixed column, from the byte in its row on.
  function Mixed(a: Byte, b: Byte, c: Byte, d: Byte): Byte {
    Times(a, 2) ^ Times(b, 3) ^ c ^ d
  }

  function Unmixed(a: Byte, b: Byte, c: Byte, d: Byte): Byte {
    Times(a, 0xe) ^ Times(b, 0xb) ^ Times(c, 0xd) ^ Times(d, 9)
  }

  lemma SumIs(a: Byte, b: Byte, c: Byte, d: Byte)
    ensures Sum4(a, b, c, d) == a ^ b ^ c ^ d
  {
  }

  lemma FirstMixed(w: Col)
    ensures Mix(w).b0 == Mixed(w.b0, w.b1, w.b2, w.b3)
    ensures InvMix(w).b0 == Unmixed(w.b0, w.b1, w.b2, w.b3)
  {
    hide Times, X2, Mul3, Mul9, MulB, MulD, MulE, Sum4;
    Doubles(w.b0);
    Doubles(w.b1);
    SumIs(X2(w.b0), Mul3(w.b1), w.b2, w.b3);
    Fourteens(w.b0);
    Nines(w.b1);
    Thirteens(w.b2);
    Nines(w.b3);
    SumIs(MulE(w.b0), MulB(w.b1), MulD(w.b2), Mul9(w.b3));
  }

  /** A column is multiplied by the polynomial {03}x^3 + {01}x^2 + {01}x + {02}, and by
      {0b}x^3 + {0d}x^2 + {09}x + {0e} on the way back. */
  lemma MixColumns(w: Col)
    ensures Mix(w) == Col(Mixed(w.b0, w.b1, w.b2, w.b3), Mixed(w.b1, w.b2, w.b3, w.b0),
                          Mixed(w.b2, w.b3, w.b0, w.b1), Mixed(w.b3, w.b0, w.b1, w.b2))
    ensures InvMix(w) == Col(Unmixed(w.b0, w.b1, w.b2, w.b3), Unmixed(w.b1, w.b2, w.b3, w.b0),
                             Unmixed(w.b2, w.b3, w.b0, w.b1), Unmixed(w.b3, w.b0, w.b1, w.b2))
  {
    hide Mix, InvMix, Mixed, Unmixed;
    var w1 := C.Turn(w);
    var w2 := C.Turn(w1);
    var w3 := C.Turn(w2);
    FirstMixed(w);
    FirstMixed(w1);
    FirstMixed(w2);
    FirstMixed(w3);
    MixTurns(w);
    MixTurns(w1);
    MixTurns(w2);
  }

  function Added(x: Col, y: Col): Col { Col(x.b0 ^ y.b0, x.b1 ^ y.b1, x.b2 ^ y.b2, x.b3 ^ y.b3) }

  /** Every byte of a round key is added to the byte in its place. */
  lemma AddRoundKey(x: State, k: State)
    ensures AddKey(x, k) == State(Added(x.c0, k.c0), Added(x.c1, k.c1), Added(x.c2, k.c2), Added(x.c3, k.c3))
  {
    hide Plus, Added;
    PlusIs(x.c0, k.c0);
    PlusIs(x.c1, k.c1);
    PlusIs(x.c2, k.c2);
    PlusIs(x.c3, k.c3);
  }

  lemma PlusIs(x: Col, y: Col)
    ensures Plus(x, y) == Added(x, y)
  {
  }

  /** The words of the key expansion are substituted byte by byte and turned by one. */
  lemma KeyWords(w: Col)
    ensures SubWord(w) == Substituted(w) && RotWord(w) == Turns(w, 1)
  {
    hide SubByte;
  }

  /** A block fills the state column by column (section 3.4), and a key its words. */
  lemma InputBytes(b: seq<Byte>)
    requires |b| == 16
    ensures var x := Block(b);
            && Row0(x) == Col(b[0], b[4], b[8], b[12]) && Row1(x) == Col(b[1], b[5], b[9], b[13])
            && Row2(x) == Col(b[2], b[6], b[10], b[14]) && Row3(x) == Col(b[3], b[7], b[11], b[15])
  {
  }

  lemma KeyBytes(b: seq<Byte>, nk: nat, i: nat)
    requires 4 * nk <= |b| && i < nk
    ensures |KeyIn(b, nk)| == nk && KeyIn(b, nk)[i] == Col(b[4 * i], b[4 * i + 1], b[4 * i + 2], b[4 * i + 3])
  {
  }
}

/** The AES cipher of FIPS 197 on columns of four bytes, the table look-ups that stand for
    its steps, and the proof that the equivalent inverse cipher undoes it. */
module AesCipher {
  import opened AesField
  import opened Bytes
  import opened AesTables

  // A 32-bit word, lowest byte first: one column of the state.
  datatype Col = Col(b0: Byte, b1: Byte, b2: Byte, b3: Byte)
  datatype State = State(c0: Col, c1: Col, c2: Col, c3: Col)

  function Plus(x: Col, y: Col): Col {
    Col(Xor(x.b0, y.b0), Xor(x.b1, y.b1), Xor(x.b2, y.b2), Xor(x.b3, y.b3))
  }

  // ---- the steps of the cipher (sections 5.1 and 5.3 of FIPS 197) ----

  function Mix(w: Col): Col {
    Col(Sum4(X2(w.b0), Mul3(w.b1), w.b2, w.b3),
        Sum4(w.b0, X2(w.b1), Mul3(w.b2), w.b3),
        Sum4(w.b0, w.b1, X2(w.b2), Mul3(w.b3)),
        Sum4(Mul3(w.b0), w.b1, w.b2, X2(w.b3)))
  }

  function InvMix(w: Col): Col {
    Col(Sum4(MulE(w.b0), MulB(w.b1), MulD(w.b2), Mul9(w.b3)),
        Sum4(Mul9(w.b0), MulE(w.b1), MulB(w.b2), MulD(w.b3)),
        Sum4(MulD(w.b0), Mul9(w.b1), MulE(w.b2), MulB(w.b3)),
        Sum4(MulB(w.b0), MulD(w.b1), Mul9(w.b2), MulE(w.b3)))
  }

  function MixAll(x: State): State { State(Mix(x.c0), Mix(x.c1), Mix(x.c2), Mix(x.c3)) }
  function InvMixAll(x: State): State { State(InvMix(x.c0), InvMix(x.c1), InvMix(x.c2), InvMix(x.c3)) }

  function Sub(b0: Byte, b1: Byte, b2: Byte, b3: Byte): Col {
    Col(SubByte(b0), SubByte(b1), SubByte(b2), SubByte(b3))
  }

  function InvSub(b0: Byte, b1: Byte, b2: Byte, b3: Byte): Col {
    Col(InvSubByte(b0), InvSubByte(b1), InvSubByte(b2), InvSubByte(b3))
  }

  // Row r of the state is rotated by r columns, one way or the other.
  function SubShift(x: State): State {
    State(Sub(x.c0.b0, x.c1.b1, x.c2.b2, x.c3.b3), Sub(x.c1.b0, x.c2.b1, x.c3.b2, x.c0.b3),
          Sub(x.c2.b0, x.c3.b1, x.c0.b2, x.c1.b3), Sub(x.c3.b0, x.c0.b1, x.c1.b2, x.c2.b3))
  }

  function InvSubShift(x: State): State {
    State(InvSub(x.c0.b0, x.c3.b1, x.c2.b2, x.c1.b3), InvSub(x.c1.b0, x.c0.b1, x.c3.b2, x.c2.b3),
          InvSub(x.c2.b0, x.c1.b1, x.c0.b2, x.c3.b3), InvSub(x.c3.b0, x.c2.b1, x.c1.b2, x.c0.b3))
  }

  function AddKey(x: State, k: State): State {
    State(Plus(x.c0, k.c0), Plus(x.c1, k.c1), Plus(x.c2, k.c2), Plus(x.c3, k.c3))
  }

  function Round(x: State, k: State): State { AddKey(MixAll(SubShift(x)), k) }
  function LastRound(x: State, k: State): State { AddKey(SubShift(x), k) }
  function InvRound(x: State, k: State): State { AddKey(InvMixAll(InvSubShift(x)), k) }
  function InvLastRound(x: State, k: State): State { AddKey(InvSubShift(x), k) }

  // ---- whole runs over a schedule of words, four to a round ----

  function KeyAt(w: seq<Col>, i: nat): State
    requires 4 * i + 4 <= |w|
  {
    State(w[4 * i], w[4 * i + 1], w[4 * i + 2], w[4 * i + 3])
  }

  function Rounds(w: seq<Col>, x: State, n: nat): State
    requires 4 * n + 4 <= |w|
  {
    if n == 0 then AddKey(x, KeyAt(w, 0)) else Round(Rounds(w, x, n - 1), KeyAt(w, n))
  }

  function Cipher(w: seq<Col>, x: State, nr: nat): State
    requires 0 < nr && 4 * nr + 4 <= |w|
  {
    LastRound(Rounds(w, x, nr - 1), KeyAt(w, nr))
  }

  // The equivalent inverse cipher, with a schedule of its own (section 5.3.5).
  function EquivRounds(w: seq<Col>, x: State, n: nat): State
    requires 4 * n + 4 <= |w|
  {
    if n == 0 then AddKey(x, KeyAt(w, 0)) else InvRound(EquivRounds(w, x, n - 1), KeyAt(w, n))
  }

  function EquivCipher(w: seq<Col>, x: State, nr: nat): State
    requires 0 < nr && 4 * nr + 4 <= |w|
  {
    InvLastRound(EquivRounds(w, x, nr - 1), KeyAt(w, nr))
  }

  // The inverse cipher, which adds the same round keys in reverse (section 5.3).
  function InvRounds(w: seq<Col>, y: State, nr: nat, n: nat): State
    requires n <= nr && 4 * nr + 4 <= |w|
  {
    if n == 0 then AddKey(y, KeyAt(w, nr))
    else InvMixAll(AddKey(InvSubShift(InvRounds(w, y, nr, n - 1)), KeyAt(w, nr - n)))
  }

  function InvCipher(w: seq<Col>, y: State, nr: nat): State
    requires 0 < nr && 4 * nr + 4 <= |w|
  {
    AddKey(InvSubShift(InvRounds(w, y, nr, nr - 1)), KeyAt(w, 0))
  }

  /** Round i of the decryption schedule that belongs to the schedule w: the rounds in
      reverse, all but the first and the last mixed (section 5.3.5 of FIPS 197). */
  function DualAt(w: seq<Col>, nr: nat, i: nat): State
    requires i <= nr && 4 * nr + 4 <= |w|
  {
    if i == 0 || i == nr then KeyAt(w, nr - i) else InvMixAll(KeyAt(w, nr - i))
  }

  ghost predicate Dual(e: seq<Col>, d: seq<Col>, nr: nat)
    requires 4 * nr + 4 <= |e| && 4 * nr + 4 <= |d|
  {
    forall i :: 0 <= i <= nr ==> KeyAt(d, i) == DualAt(e, nr, i)
  }

  // ---- each step is undone ----

  lemma PlusTwice(x: Col, y: Col)
    ensures Plus(Plus(x, y), y) == x && Plus(x, y) == Plus(y, x)
  {
    hide Xor;
    Cancel(x.b0, y.b0); Cancel(x.b1, y.b1); Cancel(x.b2, y.b2); Cancel(x.b3, y.b3);
    Comm(x.b0, y.b0); Comm(x.b1, y.b1); Comm(x.b2, y.b2); Comm(x.b3, y.b3);
  }

  lemma AddKeyTwice(x: State, k: State)
    ensures AddKey(AddKey(x, k), k) == x
  {
    hide Plus;
    PlusTwice(x.c0, k.c0); PlusTwice(x.c1, k.c1); PlusTwice(x.c2, k.c2); PlusTwice(x.c3, k.c3);
  }

  lemma SubUndone(x: State)
    ensures InvSubShift(SubShift(x)) == x
  {
    hide SubByte, InvSubByte;
    InvSubByteOf(x.c0.b0); InvSubByteOf(x.c0.b1); InvSubByteOf(x.c0.b2); InvSubByteOf(x.c0.b3);
    InvSubByteOf(x.c1.b0); InvSubByteOf(x.c1.b1); InvSubByteOf(x.c1.b2); InvSubByteOf(x.c1.b3);
    InvSubByteOf(x.c2.b0); InvSubByteOf(x.c2.b1); InvSubByteOf(x.c2.b2); InvSubByteOf(x.c2.b3);
    InvSubByteOf(x.c3.b0); InvSubByteOf(x.c3.b1); InvSubByteOf(x.c3.b2); InvSubByteOf(x.c3.b3);
  }

  lemma Transpose4(a: Col, b: Col, c: Col, d: Col)
    ensures Sum4(Sum4(a.b0, a.b1, a.b2, a.b3), Sum4(b.b0, b.b1, b.b2, b.b3),
                 Sum4(c.b0, c.b1, c.b2, c.b3), Sum4(d.b0, d.b1, d.b2, d.b3))
         == Sum4(Sum4(a.b0, b.b0, c.b0, d.b0), Sum4(a.b1, b.b1, c.b1, d.b1),
                 Sum4(a.b2, b.b2, c.b2, d.b2), Sum4(a.b3, b.b3, c.b3, d.b3))
  {
    hide Xor;
    Transpose(a.b0, a.b1, a.b2, a.b3, b.b0, b.b1, b.b2, b.b3);
    Transpose(c.b0, c.b1, c.b2, c.b3, d.b0, d.b1, d.b2, d.b3);
    Transpose(Xor(a.b0, b.b0), Xor(a.b1, b.b1), Xor(a.b2, b.b2), Xor(a.b3, b.b3),
              Xor(c.b0, d.b0), Xor(c.b1, d.b1), Xor(c.b2, d.b2), Xor(c.b3, d.b3));
  }

  lemma Alone(x: Byte)
    ensures Sum4(x, 0, 0, 0) == x && Sum4(0, x, 0, 0) == x && Sum4(0, 0, x, 0) == x && Sum4(0, 0, 0, x) == x
  {
    hide Xor;
    Zero(x);
    Zero(0);
  }

  lemma FirstByteUnmixed(w: Col)
    ensures InvMix(Mix(w)).b0 == w.b0
  {
    hide X2, Mul3, Mul9, MulB, MulD, MulE, Sum4, Xor;
    MulsAdd4(X2(w.b0), Mul3(w.b1), w.b2, w.b3);
    MulsAdd4(w.b0, X2(w.b1), Mul3(w.b2), w.b3);
    MulsAdd4(w.b0, w.b1, X2(w.b2), Mul3(w.b3));
    MulsAdd4(Mul3(w.b0), w.b1, w.b2, X2(w.b3));
    Transpose4(Col(MulE(X2(w.b0)), MulE(Mul3(w.b1)), MulE(w.b2), MulE(w.b3)),
               Col(MulB(w.b0), MulB(X2(w.b1)), MulB(Mul3(w.b2)), MulB(w.b3)),
               Col(MulD(w.b0), MulD(w.b1), MulD(X2(w.b2)), MulD(Mul3(w.b3))),
               Col(Mul9(Mul3(w.b0)), Mul9(w.b1), Mul9(w.b2), Mul9(X2(w.b3))));
    Coefficient0(w.b0);
    Coefficient1(w.b1);
    Coefficient2(w.b2);
    Coefficient3(w.b3);
    Alone(w.b0);
  }

  // Both matrices are circulant: turning the column turns the product.
  function Turn(w: Col): Col { Col(w.b1, w.b2, w.b3, w.b0) }

  lemma MixTurns(w: Col)
    ensures Mix(Turn(w)) == Turn(Mix(w)) && InvMix(Turn(w)) == Turn(InvMix(w))
  {
    hide X2, Mul3, Mul9, MulB, MulD, MulE, Sum4;
    Rotate(w.b0, X2(w.b1), Mul3(w.b2), w.b3);
    Rotate(w.b0, w.b1, X2(w.b2), Mul3(w.b3));
    Rotate(Mul3(w.b0), w.b1, w.b2, X2(w.b3));
    Rotate(X2(w.b0), Mul3(w.b1), w.b2, w.b3);
    Rotate(MulE(w.b0), MulB(w.b1), MulD(w.b2), Mul9(w.b3));
    Rotate(Mul9(w.b0), MulE(w.b1), MulB(w.b2), MulD(w.b3));
    Rotate(MulD(w.b0), Mul9(w.b1), MulE(w.b2), MulB(w.b3));
    Rotate(MulB(w.b0), MulD(w.b1), Mul9(w.b2), MulE(w.b3));
  }

  /** The inverse matrix undoes the mixing of every column. */
  lemma MixUndone(w: Col)
    ensures InvMix(Mix(w)) == w
  {
    hide Mix, InvMix;
    var w1 := Turn(w);
    var w2 := Turn(w1);
    var w3 := Turn(w2);
    FirstByteUnmixed(w); FirstByteUnmixed(w1); FirstByteUnmixed(w2); FirstByteUnmixed(w3);
    MixTurns(w); MixTurns(w1); MixTurns(w2);
    MixTurns(Mix(w)); MixTurns(Mix(w1)); MixTurns(Mix(w2));
  }

  /** The inverse matrix distributes over the addition of a key. */
  lemma InvMixAdds(x: Col, y: Col)
    ensures InvMix(Plus(x, y)) == Plus(InvMix(x), InvMix(y))
  {
    hide Mul9, MulB, MulD, MulE, Sum4, Xor;
    MulsAdd(x.b0, y.b0); MulsAdd(x.b1, y.b1); MulsAdd(x.b2, y.b2); MulsAdd(x.b3, y.b3);
    Transpose(MulE(x.b0), MulB(x.b1), MulD(x.b2), Mul9(x.b3), MulE(y.b0), MulB(y.b1), MulD(y.b2), Mul9(y.b3));
    Transpose(Mul9(x.b0), MulE(x.b1), MulB(x.b2), MulD(x.b3), Mul9(y.b0), MulE(y.b1), MulB(y.b2), MulD(y.b3));
    Transpose(MulD(x.b0), Mul9(x.b1), MulE(x.b2), MulB(x.b3), MulD(y.b0), Mul9(y.b1), MulE(y.b2), MulB(y.b3));
    Transpose(MulB(x.b0), MulD(x.b1), Mul9(x.b2), MulE(x.b3), MulB(y.b0), MulD(y.b1), Mul9(y.b2), MulE(y.b3));
  }

  lemma InvMixAllAdds(x: State, k: State)
    ensures InvMixAll(AddKey(x, k)) == AddKey(InvMixAll(x), InvMixAll(k))
  {
    hide InvMix, Plus;
    InvMixAdds(x.c0, k.c0); InvMixAdds(x.c1, k.c1); InvMixAdds(x.c2, k.c2); InvMixAdds(x.c3, k.c3);
  }

  lemma RoundUndone(x: State, k: State)
    ensures InvMixAll(AddKey(Round(x, k), k)) == SubShift(x)
  {
    hide SubShift, AddKey, Mix, InvMix;
    AddKeyTwice(MixAll(SubShift(x)), k);
    var y := SubShift(x);
    MixUndone(y.c0); MixUndone(y.c1); MixUndone(y.c2); MixUndone(y.c3);
  }

  // ---- and so is a whole run ----

  lemma {:induction false} RunUndone(w: seq<Col>, nr: nat, x: State, n: nat)
    requires n < nr && 4 * nr + 4 <= |w|
    ensures InvRounds(w, Cipher(w, x, nr), nr, n) == SubShift(Rounds(w, x, nr - 1 - n))
  {
    hide SubShift, InvSubShift, AddKey, Round, InvMixAll, KeyAt;
    if n == 0 {
      AddKeyTwice(SubShift(Rounds(w, x, nr - 1)), KeyAt(w, nr));
    } else {
      RunUndone(w, nr, x, n - 1);
      SubUndone(Rounds(w, x, nr - n));
      RoundUndone(Rounds(w, x, nr - 1 - n), KeyAt(w, nr - n));
    }
  }

  /** The inverse cipher gives back every block, for every schedule. */
  lemma CipherUndone(w: seq<Col>, nr: nat, x: State)
    requires 0 < nr && 4 * nr + 4 <= |w|
    ensures InvCipher(w, Cipher(w, x, nr), nr) == x
  {
    hide SubShift, InvSubShift, AddKey, InvMixAll, KeyAt, Cipher;
    RunUndone(w, nr, x, nr - 1);
    SubUndone(Rounds(w, x, 0));
    AddKeyTwice(x, KeyAt(w, 0));
  }

  lemma {:induction false} EquivRun(e: seq<Col>, d: seq<Col>, nr: nat, y: State, n: nat)
    requires n < nr && 4 * nr + 4 <= |e| && 4 * nr + 4 <= |d| && Dual(e, d, nr)
    ensures EquivRounds(d, y, n) == InvRounds(e, y, nr, n)
  {
    hide InvSubShift, AddKey, InvMixAll, KeyAt;
    assert KeyAt(d, n) == DualAt(e, nr, n);
    if n > 0 {
      EquivRun(e, d, nr, y, n - 1);
      InvMixAllAdds(InvSubShift(InvRounds(e, y, nr, n - 1)), KeyAt(e, nr - n));
    }
  }

  /** With the reversed and mixed schedule, the equivalent inverse cipher is the inverse
      cipher, on every block. */
  lemma EquivIsInverse(e: seq<Col>, d: seq<Col>, nr: nat, y: State)
    requires 0 < nr && 4 * nr + 4 <= |e| && 4 * nr + 4 <= |d| && Dual(e, d, nr)
    ensures EquivCipher(d, y, nr) == InvCipher(e, y, nr)
  {
    hide InvSubShift, AddKey, InvMixAll, KeyAt, InvRounds, EquivRounds;
    EquivRun(e, d, nr, y, nr - 1);
    assert KeyAt(d, nr) == DualAt(e, nr, nr);
  }

  // Words past the last round key do not matter.
  lemma {:induction false} SameRounds(v: seq<Col>, w: seq<Col>, x: State, n: nat)
    requires 4 * n + 4 <= |v| <= |w| && w[..|v|] == v
    ensures Rounds(v, x, n) == Rounds(w, x, n)
  {
    hide Round, AddKey;
    if n > 0 { SameRounds(v, w, x, n - 1); }
    assert KeyAt(v, n) == KeyAt(w, n);
  }

  lemma {:induction false} SameInvRounds(v: seq<Col>, w: seq<Col>, y: State, nr: nat, n: nat)
    requires n <= nr && 4 * nr + 4 <= |v| <= |w| && w[..|v|] == v
    ensures InvRounds(v, y, nr, n) == InvRounds(w, y, nr, n)
  {
    hide InvMixAll, InvSubShift, AddKey;
    if n > 0 { SameInvRounds(v, w, y, nr, n - 1); }
    assert KeyAt(v, nr - n) == KeyAt(w, nr - n);
  }

  lemma SameCipher(v: seq<Col>, w: seq<Col>, x: State, nr: nat)
    requires 0 < nr && 4 * nr + 4 <= |v| <= |w| && w[..|v|] == v
    ensures Cipher(v, x, nr) == Cipher(w, x, nr) && InvCipher(v, x, nr) == InvCipher(w, x, nr)
  {
    hide LastRound, AddKey, InvSubShift, Rounds, InvRounds;
    SameRounds(v, w, x, nr - 1);
    SameInvRounds(v, w, x, nr, nr - 1);
    assert KeyAt(v, nr) == KeyAt(w, nr) && KeyAt(v, 0) == KeyAt(w, 0);
  }

  // ---- the tables ----

  /** The bytes of a word moved n positions up, the top ones around to the bottom. */
  function Upr(w: Col, n: nat): Col
    requires n < 4
  {
    if n == 0 then w
    else if n == 1 then Col(w.b3, w.b0, w.b1, w.b2)
    else if n == 2 then Col(w.b2, w.b3, w.b0, w.b1)
    else Col(w.b1, w.b2, w.b3, w.b0)
  }

  function FtTab(r: nat, v: Byte): Col
    requires r < 4
  {
    var s := SubByte(v);
    Upr(Col(X2(s), s, s, Mul3(s)), r)
  }

  function FlTab(r: nat, v: Byte): Col
    requires r < 4
  {
    Upr(Col(SubByte(v), 0, 0, 0), r)
  }

  function ImTab(r: nat, v: Byte): Col
    requires r < 4
  {
    Upr(Col(MulE(v), Mul9(v), MulD(v), MulB(v)), r)
  }

  function ItTab(r: nat, v: Byte): Col
    requires r < 4
  {
    ImTab(r, InvSubByte(v))
  }

  function IlTab(r: nat, v: Byte): Col
    requires r < 4
  {
    Upr(Col(InvSubByte(v), 0, 0, 0), r)
  }

  function FourTables(t0: Col, t1: Col, t2: Col, t3: Col): Col { Plus(Plus(Plus(t0, t1), t2), t3) }

  function FtWord(b0: Byte, b1: Byte, b2: Byte, b3: Byte): Col {
    FourTables(FtTab(0, b0), FtTab(1, b1), FtTab(2, b2), FtTab(3, b3))
  }

  function FlWord(b0: Byte, b1: Byte, b2: Byte, b3: Byte): Col {
    FourTables(FlTab(0, b0), FlTab(1, b1), FlTab(2, b2), FlTab(3, b3))
  }

  function ItWord(b0: Byte, b1: Byte, b2: Byte, b3: Byte): Col {
    FourTables(ItTab(0, b0), ItTab(1, b1), ItTab(2, b2), ItTab(3, b3))
  }

  function IlWord(b0: Byte, b1: Byte, b2: Byte, b3: Byte): Col {
    FourTables(IlTab(0, b0), IlTab(1, b1), IlTab(2, b2), IlTab(3, b3))
  }

  /** The macro inv_mcol: the mixing of one word for the decryption schedule. */
  function InvMcol(w: Col): Col {
    FourTables(ImTab(0, w.b0), ImTab(1, w.b1), ImTab(2, w.b2), ImTab(3, w.b3))
  }

  lemma Summed(t0: Col, t1: Col, t2: Col, t3: Col)
    ensures FourTables(t0, t1, t2, t3)
         == Col(Sum4(t0.b0, t1.b0, t2.b0, t3.b0), Sum4(t0.b1, t1.b1, t2.b1, t3.b1),
                Sum4(t0.b2, t1.b2, t2.b2, t3.b2), Sum4(t0.b3, t1.b3, t2.b3, t3.b3))
  {
    hide Xor;
    Assoc(Xor(t0.b0, t1.b0), t2.b0, t3.b0);
    Assoc(Xor(t0.b1, t1.b1), t2.b1, t3.b1);
    Assoc(Xor(t0.b2, t1.b2), t2.b2, t3.b2);
    Assoc(Xor(t0.b3, t1.b3), t2.b3, t3.b3);
  }

  /** Four look-ups give a whole substituted and mixed column. */
  lemma FtIsMix(b0: Byte, b1: Byte, b2: Byte, b3: Byte)
    ensures FtWord(b0, b1, b2, b3) == Mix(Sub(b0, b1, b2, b3))
  {
    hide SubByte, X2, Mul3, Sum4, FourTables;
    Summed(FtTab(0, b0), FtTab(1, b1), FtTab(2, b2), FtTab(3, b3));
  }

  lemma InvMcolIsInvMix(w: Col)
    ensures InvMcol(w) == InvMix(w)
  {
    hide Mul9, MulB, MulD, MulE, Sum4, FourTables;
    Summed(ImTab(0, w.b0), ImTab(1, w.b1), ImTab(2, w.b2), ImTab(3, w.b3));
  }

  lemma ItIsInvMix(b0: Byte, b1: Byte, b2: Byte, b3: Byte)
    ensures ItWord(b0, b1, b2, b3) == InvMix(InvSub(b0, b1, b2, b3))
  {
    hide InvSubByte, InvMix, ImTab, FourTables;
    InvMcolIsInvMix(InvSub(b0, b1, b2, b3));
  }

  lemma FlIsSub(b0: Byte, b1: Byte, b2: Byte, b3: Byte)
    ensures FlWord(b0, b1, b2, b3) == Sub(b0, b1, b2, b3)
  {
    hide SubByte, Sum4, FourTables;
    Summed(FlTab(0, b0), FlTab(1, b1), FlTab(2, b2), FlTab(3, b3));
    Alone(SubByte(b0)); Alone(SubByte(b1)); Alone(SubByte(b2)); Alone(SubByte(b3));
  }

  lemma IlIsInvSub(b0: Byte, b1: Byte, b2: Byte, b3: Byte)
    ensures IlWord(b0, b1, b2, b3) == InvSub(b0, b1, b2, b3)
  {
    hide InvSubByte, Sum4, FourTables;
    Summed(IlTab(0, b0), IlTab(1, b1), IlTab(2, b2), IlTab(3, b3));
    Alone(InvSubByte(b0)); Alone(InvSubByte(b1)); Alone(InvSubByte(b2)); Alone(InvSubByte(b3));
  }
}

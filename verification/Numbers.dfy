/** Words as the numbers their bits stand for, and what the operations on words are in terms
    of those numbers and bits. */
module Numbers {
  import opened Basics

  predicate Bit(w: Word, k: Word) {
    k < 32 && (w >> k) & 1 == 1
  }

  function Pow2(k: Word): (p: nat)
    requires k <= 32
    ensures p > 0
    decreases k
  {
    if k == 0 then 1 else 2 * Pow2(k - 1)
  }

  /** The number that the lowest k bits stand for. */
  function Low(w: Word, k: Word): (n: nat)
    requires k <= 32
    ensures n < Pow2(k)
    decreases k
  {
    if k == 0 then 0 else Low(w, k - 1) + if Bit(w, k - 1) then Pow2(k - 1) else 0
  }

  lemma LowNone(w: Word)
    ensures Low(w, 0) == 0 && Pow2(0) == 1
  {
  }

  lemma LowTop(w: Word, k: Word)
    requires 0 < k <= 32
    ensures Low(w, k) == Low(w, k - 1) + if Bit(w, k - 1) then Pow2(k - 1) else 0
    ensures Pow2(k) == 2 * Pow2(k - 1)
  {
  }

  function Number(w: Word): nat { Low(w, 32) }

  /** The number in two's complement. */
  function Signed(w: Word): int {
    if Bit(w, 31) then Number(w) - XLEN_MOD else Number(w)
  }

  lemma Pow2Of32()
    ensures Pow2(5) == 32 && Pow2(32) == XLEN_MOD && Pow2(31) == XLEN_MOD / 2
  {
    assert Pow2(8) == 0x100;
    assert Pow2(16) == 0x1_0000;
    assert Pow2(24) == 0x100_0000;
  }

  // ---- a word is its bits ----

  lemma SetBit(d: Word) returns (k: Word)
    requires d != 0
    ensures Bit(d, k)
  {
    k := if d & 0xffff == 0 then 16 else 0;
    k := if (d >> k) & 0xff == 0 then k + 8 else k;
    k := if (d >> k) & 0xf == 0 then k + 4 else k;
    k := if (d >> k) & 3 == 0 then k + 2 else k;
    k := if (d >> k) & 1 == 0 then k + 1 else k;
  }

  lemma RawXorBit(a: Word, b: Word, k: Word)
    requires k < 32
    ensures Bit(a ^ b, k) == (Bit(a, k) != Bit(b, k))
  {
  }

  lemma SameBits(a: Word, b: Word)
    requires forall k: Word :: k < 32 ==> Bit(a, k) == Bit(b, k)
    ensures a == b
  {
    hide Bit;
    if a != b {
      var k := SetBit(a ^ b);
      RawXorBit(a, b, k);
    }
  }

  lemma {:induction false} SameLow(a: Word, b: Word, k: Word)
    requires k <= 32 && Low(a, k) == Low(b, k)
    ensures forall j: Word :: j < k ==> Bit(a, j) == Bit(b, j)
    decreases k
  {
    hide Bit;
    if k > 0 { SameLow(a, b, k - 1); }
  }

  /** Different words stand for different numbers. */
  lemma SameNumber(a: Word, b: Word)
    requires Number(a) == Number(b)
    ensures a == b
  {
    hide Bit;
    SameLow(a, b, 32);
    SameBits(a, b);
  }

  // ---- the operations bit by bit ----

  lemma AndBit(a: Word, b: Word, k: Word)
    requires k < 32
    ensures Bit(AndWord(a, b), k) == (Bit(a, k) && Bit(b, k))
  {
  }

  lemma OrBit(a: Word, b: Word, k: Word)
    requires k < 32
    ensures Bit(OrWord(a, b), k) == (Bit(a, k) || Bit(b, k))
  {
  }

  lemma XorBit(a: Word, b: Word, k: Word)
    requires k < 32
    ensures Bit(XorWord(a, b), k) == (Bit(a, k) != Bit(b, k))
  {
    hide Bit;
    RawXorBit(a, b, k);
  }

  // ---- shifts ----

  function Once(w: Word): Word { w << 1 }

  // Bit k of a result that is moved up or down.
  predicate LeftAt(a: Word, n: Word, r: Word, k: Word) { Bit(r, k) == (n <= k && Bit(a, k - n)) }
  predicate RightAt(a: Word, n: Word, r: Word, k: Word)
    requires n < 32
  {
    Bit(r, k) == (k < 32 - n && Bit(a, k + n))
  }

  function Halve(w: Word): Word { w >> 1 }
  function Not(w: Word): Word { !w }

  lemma OnceBit(w: Word, k: Word)
    requires k < 32
    ensures Bit(Once(w), k) == (k != 0 && Bit(w, k - 1))
  {
  }

  lemma HalveBit(w: Word, k: Word)
    requires k < 32
    ensures Bit(Halve(w), k) == (k != 31 && Bit(w, k + 1))
  {
  }

  lemma NotBit(w: Word, k: Word)
    requires k < 32
    ensures Bit(Not(w), k) == !Bit(w, k)
  {
  }

  lemma ShiftNone(a: Word)
    ensures ShiftLeft(a, 0) == a && ShiftRight(a, 0) == a
  {
  }

  lemma LeftOnce(a: Word, n: Word)
    requires 0 < n < 32
    ensures ShiftLeft(a, n) == Once(ShiftLeft(a, n - 1))
  {
  }

  lemma RightOnce(a: Word, n: Word)
    requires 0 < n < 32
    ensures ShiftRight(a, n) == Halve(ShiftRight(a, n - 1))
  {
  }

  lemma {:induction false} LeftBit(a: Word, n: Word, k: Word)
    requires n < 32 && k < 32
    ensures LeftAt(a, n, ShiftLeft(a, n), k)
    decreases n
  {
    hide Bit, ShiftLeft, Once;
    if n == 0 {
      ShiftNone(a);
    } else {
      LeftOnce(a, n);
      OnceBit(ShiftLeft(a, n - 1), k);
      if k > 0 { LeftBit(a, n - 1, k - 1); }
    }
  }

  lemma {:induction false} RightBit(a: Word, n: Word, k: Word)
    requires n < 32 && k < 32
    ensures RightAt(a, n, ShiftRight(a, n), k)
    decreases n
  {
    hide Bit, ShiftRight, Halve;
    if n == 0 {
      ShiftNone(a);
    } else {
      RightOnce(a, n);
      HalveBit(ShiftRight(a, n - 1), k);
      if k < 31 { RightBit(a, n - 1, k + 1); }
    }
  }

  // ---- addition ----

  // The carry into bit k, read off the sum.
  predicate Carry(a: Word, b: Word, k: Word) { Bit(XorWord(XorWord(a, b), AddWord(a, b)), k) }

  lemma CarryIn(a: Word, b: Word)
    ensures !Carry(a, b, 0)
  {
  }

  lemma CarryOn(a: Word, b: Word, k: Word)
    requires k < 31
    ensures Carry(a, b, k + 1) == if Bit(a, k) == Bit(b, k) then Bit(a, k) else Carry(a, b, k)
  {
  }

  lemma SumBit(a: Word, b: Word, k: Word)
    requires k < 32
    ensures Bit(AddWord(a, b), k) == ((Bit(a, k) != Bit(b, k)) != Carry(a, b, k))
  {
    hide Bit, AddWord, XorWord;
    XorBit(a, b, k);
    XorBit(XorWord(a, b), AddWord(a, b), k);
  }

  // The carry out of the lowest k bits.
  predicate CarryOut(a: Word, b: Word, k: Word)
    requires k <= 32
    decreases k
  {
    if k == 0 then false
    else if Bit(a, k - 1) == Bit(b, k - 1) then Bit(a, k - 1)
    else CarryOut(a, b, k - 1)
  }

  lemma {:induction false} CarryOutIs(a: Word, b: Word, k: Word)
    requires k < 32
    ensures CarryOut(a, b, k) == Carry(a, b, k)
    decreases k
  {
    hide Bit, Carry;
    if k == 0 {
      CarryIn(a, b);
    } else {
      CarryOn(a, b, k - 1);
      CarryOutIs(a, b, k - 1);
    }
  }

  lemma {:induction false} LowAdds(a: Word, b: Word, k: Word)
    requires k <= 32
    ensures Low(a, k) + Low(b, k) == Low(AddWord(a, b), k) + if CarryOut(a, b, k) then Pow2(k) else 0
    decreases k
  {
    hide Bit, AddWord, Carry;
    if k > 0 {
      LowAdds(a, b, k - 1);
      SumBit(a, b, k - 1);
      CarryOutIs(a, b, k - 1);
    }
  }

  /** The sum of two words stands for the sum of their numbers modulo 2 to the 32nd. */
  lemma AddIsSum(a: Word, b: Word)
    ensures Number(AddWord(a, b)) == (Number(a) + Number(b)) % XLEN_MOD
  {
    hide Low, Pow2, AddWord;
    LowAdds(a, b, 32);
    Pow2Of32();
  }

  lemma RawSub(a: Word, b: Word)
    ensures (a - b) + b == a
  {
  }

  lemma SubUndone(a: Word, b: Word)
    ensures AddWord(SubWord(a, b), b) == a
  {
    RawSub(a, b);
    assert SubWord(a, b) == a - b;
    assert AddWord(a - b, b) == (a - b) + b;
  }

  lemma SubIsDifference(a: Word, b: Word)
    ensures Number(SubWord(a, b)) == (Number(a) - Number(b)) % XLEN_MOD
  {
    hide Low, AddWord, SubWord;
    SubUndone(a, b);
    AddIsSum(SubWord(a, b), b);
    Pow2Of32();
  }

  lemma Wrapped(x: int, y: int)
    ensures (x % XLEN_MOD + y) % XLEN_MOD == (x + y) % XLEN_MOD
  {
  }

  lemma AddComm(a: Word, b: Word)
    ensures AddWord(a, b) == AddWord(b, a)
  {
    hide Number, AddWord;
    AddIsSum(a, b);
    AddIsSum(b, a);
    SameNumber(AddWord(a, b), AddWord(b, a));
  }

  lemma AddAssoc(a: Word, b: Word, c: Word)
    ensures AddWord(AddWord(a, b), c) == AddWord(a, AddWord(b, c))
  {
    hide Number, AddWord;
    AddIsSum(AddWord(a, b), c);
    AddIsSum(a, b);
    AddIsSum(a, AddWord(b, c));
    AddIsSum(b, c);
    Wrapped(Number(a) + Number(b), Number(c));
    Wrapped(Number(b) + Number(c), Number(a));
    SameNumber(AddWord(AddWord(a, b), c), AddWord(a, AddWord(b, c)));
  }

  // ---- comparison ----

  // The lowest k bits at the top of a word.
  function Up(w: Word, k: Word): Word
    requires k <= 32
  {
    w << (32 - k)
  }

  lemma UpEnds(w: Word)
    ensures Up(w, 32) == w && Up(w, 0) == 0 && !UnsignedLess(0, 0)
  {
  }

  lemma UpTop(w: Word, k: Word)
    requires 0 < k <= 32
    ensures Bit(Up(w, k), 31) == Bit(w, k - 1)
  {
  }

  lemma UpOnce(w: Word, k: Word)
    requires 0 < k <= 32
    ensures Up(w, k - 1) == Once(Up(w, k))
  {
  }

  lemma UpStep(w: Word, k: Word)
    requires 0 < k <= 32
    ensures Bit(Up(w, k), 31) == Bit(w, k - 1) && Up(w, k - 1) == Once(Up(w, k))
  {
    UpTop(w, k);
    UpOnce(w, k);
    hide Bit, Up, Once;
  }

  lemma RawTop(x: Word, y: Word)
    ensures x < y <==> if x & 0x8000_0000 == y & 0x8000_0000 then x << 1 < y << 1 else y & 0x8000_0000 != 0
  {
  }

  lemma TopBit(x: Word)
    ensures Bit(x, 31) <==> x & 0x8000_0000 != 0
    ensures x & 0x8000_0000 == 0 || x & 0x8000_0000 == 0x8000_0000
  {
  }

  lemma TopDecides(x: Word, y: Word)
    ensures UnsignedLess(x, y) <==> if Bit(x, 31) == Bit(y, 31) then UnsignedLess(Once(x), Once(y)) else Bit(y, 31)
  {
    hide Bit;
    TopBit(x);
    TopBit(y);
    RawTop(x, y);
    assert UnsignedLess(x, y) <==> x < y;
    assert UnsignedLess(x << 1, y << 1) <==> x << 1 < y << 1;
  }

  lemma {:induction false} LowLess(a: Word, b: Word, k: Word)
    requires k <= 32
    ensures UnsignedLess(Up(a, k), Up(b, k)) <==> Low(a, k) < Low(b, k)
    decreases k
  {
    hide Bit, Up, Once, UnsignedLess, Low;
    if k == 0 {
      UpEnds(a);
      UpEnds(b);
      LowNone(a);
      LowNone(b);
    } else {
      LowLess(a, b, k - 1);
      LowTop(a, k);
      LowTop(b, k);
      UpStep(a, k);
      UpStep(b, k);
      TopDecides(Up(a, k), Up(b, k));
    }
  }

  /** One word is below another if and only if its number is. */
  lemma LessIsBelow(a: Word, b: Word)
    ensures UnsignedLess(a, b) <==> Number(a) < Number(b)
  {
    hide Low, Up, UnsignedLess;
    LowLess(a, b, 32);
    UpEnds(a);
    UpEnds(b);
  }

  // ---- the word of a number ----

  lemma DoubledBit(w: Word, odd: bool, k: Word)
    requires k < 32
    ensures Bit(Doubled(w, odd), k) == if k == 0 then odd else Bit(w, k - 1)
  {
  }

  lemma DoubledLowest(w: Word, odd: bool)
    ensures Low(Doubled(w, odd), 1) == 2 * Low(w, 0) + if odd then 1 else 0
  {
    hide Bit, Doubled;
    DoubledBit(w, odd, 0);
  }

  lemma {:induction false} LowDoubled(w: Word, odd: bool, k: Word)
    requires 0 < k <= 32
    ensures Low(Doubled(w, odd), k) == 2 * Low(w, k - 1) + if odd then 1 else 0
    decreases k
  {
    hide Bit, Doubled, Low, Pow2;
    if k == 1 {
      DoubledLowest(w, odd);
    } else {
      LowTop(Doubled(w, odd), k);
      DoubledBit(w, odd, k - 1);
      LowTop(w, k - 1);
      LowDoubled(w, odd, k - 1);
      LowTop(w, k);
    }
  }

  lemma Halved(n: nat, p: nat)
    requires p > 0
    ensures n % (2 * p) == 2 * (n / 2 % p) + n % 2
  {
    var q, r := n / 2 / p, n / 2 % p;
    assert n == q * (2 * p) + (2 * r + n % 2);
    assert 0 <= 2 * r + n % 2 < 2 * p;
    DivIs(n, 2 * p, q, 2 * r + n % 2);
  }

  lemma Apart(e: int, d: int)
    requires e != 0 && d > 0
    ensures e * d >= d || e * d <= -d
  {
    if e > 0 {
      assert (e - 1) * d >= 0;
    } else {
      assert (-1 - e) * d >= 0;
    }
  }

  lemma DivIs(n: int, d: int, q: int, r: int)
    requires d > 0 && n == q * d + r && 0 <= r < d
    ensures n % d == r
  {
    var e := n / d - q;
    assert e * d == r - n % d;
    if e != 0 { Apart(e, d); }
  }

  lemma {:induction false} LowOfToWord(n: nat, k: Word)
    requires k <= 32
    ensures Low(ToWord(n), k) == n % Pow2(k)
    decreases n
  {
    hide Bit, Doubled, Low, Pow2;
    if k == 0 {
      LowNone(ToWord(n));
    } else if n == 0 {
      LowOfZero(k);
    } else {
      LowTop(ToWord(n), k);
      LowOfToWord(n / 2, k - 1);
      LowDoubled(ToWord(n / 2), n % 2 == 1, k);
      Halved(n, Pow2(k - 1));
    }
  }

  lemma {:induction false} LowOfZero(k: Word)
    requires k <= 32
    ensures Low(0, k) == 0
    decreases k
  {
    if k > 0 { LowOfZero(k - 1); }
  }

  lemma NumberOfToWord(n: nat)
    ensures Number(ToWord(n)) == n % XLEN_MOD
  {
    hide Low, ToWord;
    LowOfToWord(n, 32);
    Pow2Of32();
  }
}

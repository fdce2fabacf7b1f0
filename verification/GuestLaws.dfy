/** What the operations of the guest mean, in numbers and bits: a reference for each that
    does not use the operation itself. */
module GuestLaws {
  import opened Basics
  import opened Guest
  import opened Numbers

  // ---- the ALU ----

  // Bit k of a result that is moved down with the sign.
  predicate ArithAt(a: Word, n: Word, r: Word, k: Word)
    requires n < 32
  {
    Bit(r, k) == Bit(a, if k < 32 - n then k + n else 31)
  }

  /** The result r of an operation on a and b, of which a shift takes the amount n. */
  ghost predicate AluMeaning(op: AluOp, a: Word, b: Word, n: Word, r: Word)
    requires n < 32
  {
    match op
    case Add => Number(r) == (Number(a) + Number(b)) % XLEN_MOD
    case Sub => Number(r) == (Number(a) - Number(b)) % XLEN_MOD
    case And => forall k: Word :: k < 32 ==> Bit(r, k) == (Bit(a, k) && Bit(b, k))
    case Or => forall k: Word :: k < 32 ==> Bit(r, k) == (Bit(a, k) || Bit(b, k))
    case Xor => forall k: Word :: k < 32 ==> Bit(r, k) == (Bit(a, k) != Bit(b, k))
    case Sll => forall k: Word :: k < 32 ==> LeftAt(a, n, r, k)
    case Srl => forall k: Word :: k < 32 ==> RightAt(a, n, r, k)
    case Sra => forall k: Word :: k < 32 ==> ArithAt(a, n, r, k)
    case Slt => Number(r) == if Signed(a) < Signed(b) then 1 else 0
    case Sltu => Number(r) == if Number(a) < Number(b) then 1 else 0
  }

  lemma ArithIs(a: Word, n: Word)
    requires n < 32
    ensures ShiftRightArith(a, n) == if Bit(a, 31) then Not(ShiftRight(Not(a), n)) else ShiftRight(a, n)
  {
    hide Bit;
    TopBit(a);
    assert Not(a) == !a;
    assert ShiftRight(!a, n) == !a >> n && ShiftRight(a, n) == a >> n;
    assert Not(!a >> n) == !(!a >> n);
  }

  lemma ArithBit(a: Word, n: Word, k: Word)
    requires n < 32 && k < 32
    ensures ArithAt(a, n, ShiftRightArith(a, n), k)
  {
    hide Bit, Not, ShiftRight, ShiftRightArith;
    ArithIs(a, n);
    if Bit(a, 31) {
      NotBit(ShiftRight(Not(a), n), k);
      RightBit(Not(a), n, k);
      if k < 32 - n { NotBit(a, k + n); }
    } else {
      RightBit(a, n, k);
    }
  }

  lemma FiveBit(b: Word, k: Word)
    requires k < 32
    ensures Bit(LowFive(b), k) == (k < 5 && Bit(b, k))
  {
  }

  lemma {:induction false} LowOfFive(b: Word, k: Word)
    requires k <= 32
    ensures Low(LowFive(b), k) == Low(b, if k <= 5 then k else 5)
    decreases k
  {
    hide Bit, LowFive, Low, Pow2;
    if k == 0 {
      LowNone(b);
      LowNone(LowFive(b));
    } else {
      LowOfFive(b, k - 1);
      LowTop(LowFive(b), k);
      LowTop(b, k);
      FiveBit(b, k - 1);
    }
  }

  lemma SameRest(x: nat, y: nat)
    requires y % 32 == 0
    ensures (x + y) % 32 == x % 32 && 2 * y % 32 == 0
  {
  }

  lemma {:induction false} LowRest(w: Word, k: Word)
    requires 5 <= k <= 32
    ensures Low(w, k) % 32 == Low(w, 5) && Pow2(k) % 32 == 0
    decreases k
  {
    hide Bit, Low, Pow2;
    Pow2Of32();
    if k > 5 {
      LowRest(w, k - 1);
      LowTop(w, k);
      SameRest(Low(w, k - 1), Pow2(k - 1));
    }
  }

  /** A shift takes its amount modulo 32. */
  lemma Amount(b: Word)
    ensures Number(LowFive(b)) == Number(b) % 32
  {
    hide Low, LowFive;
    LowOfFive(b, 32);
    LowRest(b, 32);
  }

  lemma SignedIs(a: Word, b: Word)
    ensures SignedLess(a, b) <==> if Bit(a, 31) == Bit(b, 31) then UnsignedLess(a, b) else Bit(a, 31)
  {
  }

  /** The signed comparison compares the numbers in two's complement. */
  lemma SignedLessIsBelow(a: Word, b: Word)
    ensures SignedLess(a, b) <==> Signed(a) < Signed(b)
  {
    hide Bit, Low, SignedLess, UnsignedLess;
    SignedIs(a, b);
    LessIsBelow(a, b);
    Pow2Of32();
  }

  lemma NumberOfFlag(f: bool)
    ensures Number(if f then 1 else 0) == if f then 1 else 0
  {
    NumberOfToWord(if f then 1 else 0);
    ToWordOfFlag(f);
  }

  lemma ToWordOfFlag(f: bool)
    ensures ToWord(if f then 1 else 0) == if f then 1 else 0
  {
    assert ToWord(0) == 0;
  }

  lemma ArithMeans(op: AluOp, a: Word, b: Word)
    requires op.Add? || op.Sub? || op.Slt? || op.Sltu?
    ensures AluMeaning(op, a, b, LowFive(b), AluValue(op, a, b))
  {
    hide Bit, Number, Signed, LowFive, SignedLess, UnsignedLess, AddWord, SubWord;
    match op {
      case Add => AddIsSum(a, b);
      case Sub => SubIsDifference(a, b);
      case Slt =>
        SignedLessIsBelow(a, b);
        NumberOfFlag(SignedLess(a, b));
      case Sltu =>
        LessIsBelow(a, b);
        NumberOfFlag(UnsignedLess(a, b));
    }
  }

  lemma LogicMeans(op: AluOp, a: Word, b: Word)
    requires op.And? || op.Or? || op.Xor?
    ensures AluMeaning(op, a, b, LowFive(b), AluValue(op, a, b))
  {
    hide Bit, LowFive, AndWord, OrWord, XorWord;
    forall k: Word | k < 32
      ensures Bit(AndWord(a, b), k) == (Bit(a, k) && Bit(b, k))
      ensures Bit(OrWord(a, b), k) == (Bit(a, k) || Bit(b, k))
      ensures Bit(XorWord(a, b), k) == (Bit(a, k) != Bit(b, k))
    {
      AndBit(a, b, k);
      OrBit(a, b, k);
      XorBit(a, b, k);
    }
  }

  lemma ShiftMeans(op: AluOp, a: Word, b: Word)
    requires op.Sll? || op.Srl? || op.Sra?
    ensures AluMeaning(op, a, b, LowFive(b), AluValue(op, a, b))
  {
    hide LeftAt, RightAt, ArithAt, LowFive, ShiftLeft, ShiftRight, ShiftRightArith;
    var n := LowFive(b);
    match op {
      case Sll =>
        forall k: Word | k < 32 ensures LeftAt(a, n, ShiftLeft(a, n), k) { LeftBit(a, n, k); }
      case Srl =>
        forall k: Word | k < 32 ensures RightAt(a, n, ShiftRight(a, n), k) { RightBit(a, n, k); }
      case Sra =>
        forall k: Word | k < 32 ensures ArithAt(a, n, ShiftRightArith(a, n), k) { ArithBit(a, n, k); }
    }
  }

  /** Every ALU operation gives the result it is named for. */
  lemma AluMeans(op: AluOp, a: Word, b: Word)
    ensures Number(LowFive(b)) == Number(b) % 32
    ensures AluMeaning(op, a, b, LowFive(b), AluValue(op, a, b))
  {
    hide Number, LowFive, AluMeaning, AluValue;
    Amount(b);
    if op.And? || op.Or? || op.Xor? {
      LogicMeans(op, a, b);
    } else if op.Sll? || op.Srl? || op.Sra? {
      ShiftMeans(op, a, b);
    } else {
      ArithMeans(op, a, b);
    }
  }

  /** And no other result has that meaning. */
  lemma AluDetermined(op: AluOp, a: Word, b: Word, n: Word, r: Word, r': Word)
    requires n < 32 && AluMeaning(op, a, b, n, r) && AluMeaning(op, a, b, n, r')
    ensures r == r'
  {
    hide Bit, Number, Signed;
    if op.And? || op.Or? || op.Xor? || op.Sll? || op.Srl? || op.Sra? {
      forall k: Word | k < 32
        ensures Bit(r, k) == Bit(r', k)
      {
        assert op.Sll? ==> LeftAt(a, n, r, k) && LeftAt(a, n, r', k);
        assert op.Srl? ==> RightAt(a, n, r, k) && RightAt(a, n, r', k);
        assert op.Sra? ==> ArithAt(a, n, r, k) && ArithAt(a, n, r', k);
      }
      SameBits(r, r');
    } else {
      SameNumber(r, r');
    }
  }

  /** The condition of a branch compares numbers, with or without sign. */
  lemma HoldsMeans(c: Cond, a: Word, b: Word)
    ensures Holds(c, a, b) <==>
              match c
              case Eq => Number(a) == Number(b)
              case Ne => Number(a) != Number(b)
              case Lt => Signed(a) < Signed(b)
              case Ge => Signed(a) >= Signed(b)
              case Ltu => Number(a) < Number(b)
              case Geu => Number(a) >= Number(b)
  {
    hide Number, Signed, SignedLess;
    SignedLessIsBelow(a, b);
    LessIsBelow(a, b);
    if Number(a) == Number(b) { SameNumber(a, b); }
  }

  // ---- addresses and immediates ----

  /** The upper immediate is its twenty bits above twelve zeros. */
  lemma UpperBit(imm20: Word, k: Word)
    requires k < 32
    ensures LeftAt(imm20, 12, UpperImm(imm20), k)
  {
  }

  lemma AddrIs(a: int)
    ensures Number(AddrWord(a)) == a % XLEN_MOD
  {
    hide Number;
    NumberOfToWord(a % XLEN_MOD);
  }

  /** A pc-relative target is an address, the one that a sum of words gives. */
  lemma TargetIsSum(pc: int, off: int)
    ensures 0 <= Target(pc, off) < XLEN_MOD
    ensures AddrWord(Target(pc, off)) == AddWord(AddrWord(pc), AddrWord(off))
  {
    hide Number, AddrWord;
    AddrIs(Target(pc, off));
    AddrIs(pc);
    AddrIs(off);
    AddIsSum(AddrWord(pc), AddrWord(off));
    Wrapped(pc, off % XLEN_MOD);
    Wrapped(off, pc);
    SameNumber(AddrWord(Target(pc, off)), AddWord(AddrWord(pc), AddrWord(off)));
  }

  lemma ClearedBit(w: Word, k: Word)
    requires k < 32
    ensures Bit(ClearBit0(w), k) == (k != 0 && Bit(w, k))
  {
  }

  /** The only instruction that returns is the jump through ra with no offset; any other
      register jump leaves. */
  lemma ReturnsByRa(i: Instr, pc: int, m: Machine)
    ensures Step(i, pc, m).Return? <==> i == JumpReg(1, 0)
    ensures Step(i, pc, m).Computed? <==> i.JumpReg? && i != JumpReg(1, 0)
  {
  }

  // ---- registers ----

  /** A register written reads back, x0 reads as zero, and no other changes. */
  lemma WrittenX(m: Machine, r: Reg, w: Word, q: Reg)
    ensures ReadX(WriteX(m, r, w), q) == if q == 0 then 0 else if q == r then w else ReadX(m, q)
    ensures WriteX(m, r, w).mem == m.mem
  {
  }

  // ---- memory ----

  function Bytes(width: Width): Word {
    match width case Byte => 1 case Half => 2 case Full => 4
  }

  predicate BitOf(b: bv8, k: Word) { Bit(b as Word, k) }

  // Bit k of the byte at an address.
  predicate ByteBit(m: Machine, a: Word, k: Word) {
    BitOf(ReadByte(m, a), k)
  }

  // Four bytes in a word, the first lowest.
  function Four(b0: bv8, b1: bv8, b2: bv8, b3: bv8): Word {
    (b0 as Word) | (b1 as Word << 8) | (b2 as Word << 16) | (b3 as Word << 24)
  }

  lemma FourBit(b0: bv8, b1: bv8, b2: bv8, b3: bv8, j: Word, k: Word)
    requires j < 4 && k < 8
    ensures Bit(Four(b0, b1, b2, b3), 8 * j + k)
         == BitOf(if j == 0 then b0 else if j == 1 then b1 else if j == 2 then b2 else b3, k)
  {
  }

  // The byte j above an address, or zero when it is not in the width.
  function Within(m: Machine, width: Width, a: Word, j: Word): bv8 {
    if j < Bytes(width) then ReadByte(m, AddWord(a, j)) else 0
  }

  lemma FourShort(b0: bv8, b1: bv8)
    ensures Four(b0, 0, 0, 0) == b0 as Word && Four(b0, b1, 0, 0) == b0 as Word | (b1 as Word << 8)
  {
  }

  lemma ReadParts(m: Machine, a: Word)
    ensures ReadMem(m, Byte, a) == ReadByte(m, a) as Word
    ensures ReadMem(m, Half, a) == ReadByte(m, a) as Word | (ReadByte(m, a + 1) as Word << 8)
    ensures ReadMem(m, Full, a) == Four(ReadByte(m, a), ReadByte(m, a + 1), ReadByte(m, a + 2), ReadByte(m, a + 3))
  {
    hide ReadByte;
  }

  lemma Plus(a: Word)
    ensures AddWord(a, 0) == a && AddWord(a, 1) == a + 1 && AddWord(a, 2) == a + 2 && AddWord(a, 3) == a + 3
  {
    AddZero(a);
  }

  lemma ReadIsFour(m: Machine, width: Width, a: Word)
    ensures ReadMem(m, width, a) == Four(Within(m, width, a, 0), Within(m, width, a, 1), Within(m, width, a, 2), Within(m, width, a, 3))
  {
    hide ReadByte, Four, ReadMem, AddWord;
    Plus(a);
    FourShort(ReadByte(m, a), ReadByte(m, a + 1));
    ReadParts(m, a);
  }

  lemma Pick(m: Machine, width: Width, a: Word, j: Word)
    requires j < 4
    ensures Within(m, width, a, j) == if j == 0 then Within(m, width, a, 0) else if j == 1 then Within(m, width, a, 1)
                                      else if j == 2 then Within(m, width, a, 2) else Within(m, width, a, 3)
  {
    hide Within;
  }

  lemma NoBit(k: Word)
    ensures !BitOf(0, k)
  {
  }

  lemma ReadBitOf(m: Machine, width: Width, a: Word, j: Word, k: Word)
    requires j < 4 && k < 8
    ensures Bit(ReadMem(m, width, a), 8 * j + k) == BitOf(Within(m, width, a, j), k)
  {
    hide Within, ReadMem, Bit, BitOf, Four;
    ReadIsFour(m, width, a);
    FourBit(Within(m, width, a, 0), Within(m, width, a, 1), Within(m, width, a, 2), Within(m, width, a, 3), j, k);
    Pick(m, width, a, j);
  }

  /** What is read at an address: bit k of byte j is that of the byte at j above it, and the
      bits above the width are zero. */
  lemma ReadBit(m: Machine, width: Width, a: Word, j: Word, k: Word)
    requires j < 4 && k < 8
    ensures Bit(ReadMem(m, width, a), 8 * j + k) == (j < Bytes(width) && ByteBit(m, AddWord(a, j), k))
  {
    hide ReadByte, ReadMem, Bit, BitOf, Four, AddWord, Bytes;
    ReadBitOf(m, width, a, j, k);
    if j < Bytes(width) {
      assert Within(m, width, a, j) == ReadByte(m, AddWord(a, j));
    } else {
      NoBit(k);
    }
  }

  lemma WrittenBytes(w: Word, k: Word)
    requires k < 8
    ensures BitOf(Byte0(w), k) == Bit(w, k) && BitOf(Byte1(w), k) == Bit(w, 8 + k)
    ensures BitOf(Byte2(w), k) == Bit(w, 16 + k) && BitOf(Byte3(w), k) == Bit(w, 24 + k)
  {
  }

  lemma FourApart(a: Word)
    ensures AddWord(a, 0) == a && a != a + 1 && a != a + 2 && a != a + 3 && a + 1 != a + 2 && a + 1 != a + 3 && a + 2 != a + 3
  {
  }

  lemma WrittenAt(m: Machine, width: Width, a: Word, w: Word)
    ensures var m' := WriteMem(m, width, a, w);
            && ReadByte(m', a) == Byte0(w)
            && (width != Byte ==> ReadByte(m', a + 1) == Byte1(w))
            && (width == Full ==> ReadByte(m', a + 2) == Byte2(w) && ReadByte(m', a + 3) == Byte3(w))
  {
    FourApart(a);
    hide Byte0, Byte1, Byte2, Byte3;
  }

  /** What a store leaves at byte j above the address, and that it changes nothing else. */
  lemma WrittenBit(m: Machine, width: Width, a: Word, w: Word, j: Word, k: Word)
    requires j < Bytes(width) && k < 8
    ensures ByteBit(WriteMem(m, width, a, w), AddWord(a, j), k) == Bit(w, 8 * j + k)
  {
    WrittenBytes(w, k);
    WrittenAt(m, width, a, w);
    Plus(a);
    assert j == 0 || j == 1 || j == 2 || j == 3;
    hide Bit, BitOf, AddWord, Byte0, Byte1, Byte2, Byte3, WriteMem, ReadByte;
  }

  ghost predicate Outside(width: Width, a: Word, b: Word) {
    forall j: Word :: j < Bytes(width) ==> b != AddWord(a, j)
  }

  lemma OutsideIs(width: Width, a: Word, b: Word)
    requires Outside(width, a, b)
    ensures b != a && (width != Byte ==> b != a + 1) && (width == Full ==> b != a + 2 && b != a + 3)
  {
    Plus(a);
    hide AddWord;
    assert b != AddWord(a, 0);
    if width != Byte { assert b != AddWord(a, 1); }
    if width == Full { assert b != AddWord(a, 2) && b != AddWord(a, 3); }
  }

  lemma WrittenElsewhere(m: Machine, width: Width, a: Word, w: Word, b: Word)
    requires Outside(width, a, b)
    ensures ReadByte(WriteMem(m, width, a, w), b) == ReadByte(m, b)
  {
    OutsideIs(width, a, b);
    hide Outside, Byte0, Byte1, Byte2, Byte3;
  }

  lemma MaskBits(k: Word)
    requires k < 32
    ensures Bit(0xFF, k) == (k < 8) && Bit(0xFFFF_FF00, k) == (k >= 8)
    ensures Bit(0xFFFF, k) == (k < 16) && Bit(0xFFFF_0000, k) == (k >= 16)
  {
  }

  lemma SignBits(w: Word)
    ensures Bit(w, 7) <==> w & 0x80 != 0
    ensures Bit(w, 15) <==> w & 0x8000 != 0
  {
  }

  lemma ExtendPlus(w: Word)
    ensures w & 0x80 == 0 ==> SignExtend(Byte, w) == AndWord(w, 0xFF)
    ensures w & 0x8000 == 0 ==> SignExtend(Half, w) == AndWord(w, 0xFFFF)
    ensures SignExtend(Full, w) == w
  {
  }

  lemma ExtendMinus(w: Word)
    ensures w & 0x80 != 0 ==> SignExtend(Byte, w) == OrWord(w, 0xFFFF_FF00)
    ensures w & 0x8000 != 0 ==> SignExtend(Half, w) == OrWord(w, 0xFFFF_0000)
  {
  }

  lemma ExtendIs(w: Word)
    ensures SignExtend(Byte, w) == if Bit(w, 7) then OrWord(w, 0xFFFF_FF00) else AndWord(w, 0xFF)
    ensures SignExtend(Half, w) == if Bit(w, 15) then OrWord(w, 0xFFFF_0000) else AndWord(w, 0xFFFF)
    ensures SignExtend(Full, w) == w
  {
    hide Bit, OrWord, AndWord, SignExtend;
    SignBits(w);
    ExtendPlus(w);
    ExtendMinus(w);
  }

  lemma ExtendedByte(w: Word, k: Word)
    requires k < 32
    ensures Bit(SignExtend(Byte, w), k) == Bit(w, if k < 8 then k else 7)
  {
    hide Bit, AndWord, OrWord, SignExtend;
    ExtendIs(w);
    MaskBits(k);
    OrBit(w, 0xFFFF_FF00, k);
    AndBit(w, 0xFF, k);
  }

  lemma ExtendedHalf(w: Word, k: Word)
    requires k < 32
    ensures Bit(SignExtend(Half, w), k) == Bit(w, if k < 16 then k else 15)
  {
    hide Bit, AndWord, OrWord, SignExtend;
    ExtendIs(w);
    MaskBits(k);
    OrBit(w, 0xFFFF_0000, k);
    AndBit(w, 0xFFFF, k);
  }

  /** A sign is the highest bit of the width, in all bits above it. */
  lemma ExtendedBit(width: Width, w: Word, k: Word)
    requires k < 32
    ensures Bit(SignExtend(width, w), k) == Bit(w, if k < 8 * Bytes(width) then k else 8 * Bytes(width) - 1)
  {
    hide Bit, SignExtend;
    match width {
      case Byte => ExtendedByte(w, k);
      case Half => ExtendedHalf(w, k);
      case Full => ExtendIs(w);
    }
  }

  lemma Place(k: Word)
    requires k < 32
    ensures k >> 3 < 4 && k & 7 < 8 && 8 * (k >> 3) + (k & 7) == k
  {
  }

  /** A load after a store to the same address gives back the bits that were stored. */
  lemma ReadAfterWrite(m: Machine, width: Width, a: Word, w: Word, k: Word)
    requires k < 32
    ensures Bit(ReadMem(WriteMem(m, width, a, w), width, a), k) == (k < 8 * Bytes(width) && Bit(w, k))
  {
    hide Bit, ReadMem, WriteMem, AddWord, ByteBit;
    var j, i := k >> 3, k & 7;
    Place(k);
    ReadBit(WriteMem(m, width, a, w), width, a, j, i);
    if j < Bytes(width) { WrittenBit(m, width, a, w, j, i); }
  }

  // ---- whole instructions ----

  // On to the next instruction with one register changed, of which `rd` holds `w`.
  ghost predicate Sets(o: Outcome, pc: int, m: Machine, rd: Reg, w: Word) {
    && o.Next? && o.pc == pc + 4 && o.m.mem == m.mem && ReadX(o.m, 0) == 0
    && (rd != 0 ==> ReadX(o.m, rd) == w)
    && forall q: Reg :: q != rd ==> ReadX(o.m, q) == ReadX(m, q)
  }

  lemma SetsX(pc: int, m: Machine, rd: Reg, w: Word)
    ensures Sets(Next(pc + 4, WriteX(m, rd, w)), pc, m, rd, w)
  {
    WrittenX(m, rd, w, 0);
    WrittenX(m, rd, w, rd);
    forall q: Reg | q != rd
      ensures ReadX(WriteX(m, rd, w), q) == ReadX(m, q)
    {
      WrittenX(m, rd, w, q);
    }
  }

  /** An ALU instruction leaves the result it is named for in its register. */
  lemma AluStep(i: Instr, pc: int, m: Machine) returns (r: Word, n: Word)
    requires i.Alu?
    ensures Sets(Step(i, pc, m), pc, m, i.rd, r)
    ensures var b := if i.src.R? then ReadX(m, i.src.r) else i.src.imm;
            n < 32 && Number(n) == Number(b) % 32 && AluMeaning(i.op, ReadX(m, i.rs1), b, n, r)
  {
    hide ReadX, WriteX, AluMeaning, AluValue, LowFive, Number;
    var b := Operand(m, i.src);
    r, n := AluValue(i.op, ReadX(m, i.rs1), b), LowFive(b);
    AluMeans(i.op, ReadX(m, i.rs1), b);
    SetsX(pc, m, i.rd, r);
  }

  /** The upper immediate is put into the register, or the address of the instruction plus it. */
  lemma UpperStep(i: Instr, pc: int, m: Machine) returns (u: Word, r: Word)
    requires i.Lui? || i.Auipc?
    ensures Sets(Step(i, pc, m), pc, m, i.rd, r)
    ensures forall k: Word :: k < 32 ==> LeftAt(i.imm20, 12, u, k)
    ensures Number(r) == (Number(u) + if i.Auipc? then pc else 0) % XLEN_MOD
  {
    hide ReadX, WriteX, Number, UpperImm, AddWord, AddrWord, LeftAt;
    u := UpperImm(i.imm20);
    forall k: Word | k < 32
      ensures LeftAt(i.imm20, 12, u, k)
    {
      UpperBit(i.imm20, k);
    }
    r := if i.Auipc? then AddWord(AddrWord(pc), u) else u;
    SetsX(pc, m, i.rd, r);
    AddIsSum(AddrWord(pc), u);
    AddrIs(pc);
    Wrapped(pc, Number(u));
    Bounded(u);
  }

  lemma Bounded(w: Word)
    ensures Number(w) < XLEN_MOD
  {
    Pow2Of32();
  }

  // The word at the sum of a register and an offset.
  ghost predicate AtSum(m: Machine, rs1: Reg, imm: Word, a: Word) {
    Number(a) == (Number(ReadX(m, rs1)) + Number(imm)) % XLEN_MOD
  }

  /** A load puts the bytes at the sum into the register, lowest first, and zeros or the
      sign above them. */
  lemma LoadStep(i: Instr, pc: int, m: Machine) returns (a: Word, r: Word)
    requires i.Load?
    ensures AtSum(m, i.rs1, i.imm, a) && Sets(Step(i, pc, m), pc, m, i.rd, r)
    ensures forall j: Word, k: Word :: j < Bytes(i.width) && k < 8 ==> Bit(r, 8 * j + k) == ByteBit(m, AddWord(a, j), k)
    ensures forall k: Word :: 8 * Bytes(i.width) <= k < 32 ==> Bit(r, k) == (i.signed && Bit(r, 8 * Bytes(i.width) - 1))
  {
    hide ReadX, WriteX, Number, AddWord, ReadMem, SignExtend, Bit, ByteBit;
    a := AddWord(ReadX(m, i.rs1), i.imm);
    AddIsSum(ReadX(m, i.rs1), i.imm);
    var w := ReadMem(m, i.width, a);
    r := LoadValue(m, i.width, i.signed, a);
    SetsX(pc, m, i.rd, r);
    forall j: Word, k: Word | j < Bytes(i.width) && k < 8
      ensures Bit(r, 8 * j + k) == ByteBit(m, AddWord(a, j), k)
    {
      LoadedBit(m, i.width, i.signed, a, j, k);
    }
    forall k: Word | 8 * Bytes(i.width) <= k < 32
      ensures Bit(r, k) == (i.signed && Bit(r, 8 * Bytes(i.width) - 1))
    {
      ExtendedAbove(m, i.width, i.signed, a, k);
    }
  }

  lemma InWidth(width: Width, j: Word, k: Word)
    requires j < Bytes(width) && k < 8
    ensures j < 4 && 8 * j + k < 8 * Bytes(width) <= 32
  {
  }

  lemma LoadedBit(m: Machine, width: Width, signed: bool, a: Word, j: Word, k: Word)
    requires j < Bytes(width) && k < 8
    ensures Bit(LoadValue(m, width, signed, a), 8 * j + k) == ByteBit(m, AddWord(a, j), k)
  {
    hide AddWord, ReadMem, SignExtend, Bit, ByteBit, Bytes;
    InWidth(width, j, k);
    ReadBit(m, width, a, j, k);
    ExtendedBit(width, ReadMem(m, width, a), 8 * j + k);
  }

  lemma ExtendedAbove(m: Machine, width: Width, signed: bool, a: Word, k: Word)
    requires 8 * Bytes(width) <= k < 32
    ensures Bit(LoadValue(m, width, signed, a), k) == (signed && Bit(LoadValue(m, width, signed, a), 8 * Bytes(width) - 1))
  {
    hide ReadMem, SignExtend, Bit, ByteBit, AddWord;
    var w := ReadMem(m, width, a);
    if signed {
      ExtendedBit(width, w, k);
      ExtendedBit(width, w, 8 * Bytes(width) - 1);
    } else {
      AboveIsZero(m, width, a, k);
    }
  }

  lemma AboveIsZero(m: Machine, width: Width, a: Word, k: Word)
    requires 8 * Bytes(width) <= k < 32
    ensures !Bit(ReadMem(m, width, a), k)
  {
    hide ReadMem, Bit, ByteBit, AddWord;
    Place(k);
    ReadBit(m, width, a, k >> 3, k & 7);
  }

  /** The lowest bytes of a word are at an address, and nothing else has changed. */
  ghost predicate Stored(m: Machine, m': Machine, width: Width, a: Word, w: Word) {
    && m'.regs == m.regs
    && (forall j: Word, k: Word :: j < Bytes(width) && k < 8 ==> ByteBit(m', AddWord(a, j), k) == Bit(w, 8 * j + k))
    && (forall b: Word :: Outside(width, a, b) ==> ReadByte(m', b) == ReadByte(m, b))
  }

  lemma RegsKept(m: Machine, width: Width, a: Word, w: Word)
    ensures WriteMem(m, width, a, w).regs == m.regs
  {
  }

  lemma WriteStores(m: Machine, width: Width, a: Word, w: Word)
    ensures Stored(m, WriteMem(m, width, a, w), width, a, w)
  {
    hide AddWord, WriteMem, Bit, ByteBit, ReadByte, Outside, Bytes;
    var m' := WriteMem(m, width, a, w);
    RegsKept(m, width, a, w);
    forall j: Word, k: Word | j < Bytes(width) && k < 8
      ensures ByteBit(m', AddWord(a, j), k) == Bit(w, 8 * j + k)
    {
      WrittenBit(m, width, a, w, j, k);
    }
    forall b: Word | Outside(width, a, b)
      ensures ReadByte(m', b) == ReadByte(m, b)
    {
      WrittenElsewhere(m, width, a, w, b);
    }
  }

  /** A store leaves the lowest bytes of the register at the sum. */
  lemma StoreStep(i: Instr, pc: int, m: Machine) returns (a: Word)
    requires i.Store?
    ensures AtSum(m, i.rs1, i.imm, a)
    ensures var o := Step(i, pc, m);
            o.Next? && o.pc == pc + 4 && Stored(m, o.m, i.width, a, ReadX(m, i.rs2))
  {
    hide ReadX, Number, AddWord, WriteMem, Stored;
    a := AddWord(ReadX(m, i.rs1), i.imm);
    AddIsSum(ReadX(m, i.rs1), i.imm);
    WriteStores(m, i.width, a, ReadX(m, i.rs2));
  }

  /** A transfer of control leaves the machine alone and goes to the address that its offset
      gives, to the next instruction when its condition does not hold, or to a sum. */
  lemma ControlStep(i: Instr, pc: int, m: Machine)
    requires IsControl(i)
    ensures var o := Step(i, pc, m);
            o.m == m &&
            match i
            case Branch(c, r, s, off) =>
              o.Next? && (if Holds(c, ReadX(m, r), ReadX(m, s)) then 0 <= o.pc < XLEN_MOD && o.pc % XLEN_MOD == (pc + off) % XLEN_MOD
                          else o.pc == pc + 4)
            case Jump(off) => o.Next? && 0 <= o.pc < XLEN_MOD && o.pc % XLEN_MOD == (pc + off) % XLEN_MOD
            case JumpReg(r, imm) => if i == JumpReg(1, 0) then o.Return? else o.Computed? && AtSum(m, r, imm, o.sum)
  {
    hide ReadX, Holds, Number, AddWord;
    if i.JumpReg? { AddIsSum(ReadX(m, i.rs1), i.imm); }
  }
}

/** The host code for each guest instruction, and the proof that it does what the
    instruction does: plain instructions, branch conditions, and transfers of control. */
module Emission {
  import opened Basics
  import opened Guest
  import opened Host
  import opened BlockGraph
  import opened CodeBuilder

  // ---- what the host operations compute ----

  /** The host operations that stand for an ALU operation. */
  function HostAlu(op: AluOp, x: Word, y: Word): Word {
    match op
    case Add => BinValue(BAdd, x, y)
    case Sub => BinValue(BSub, x, y)
    case And => BinValue(BAnd, x, y)
    case Or => BinValue(BOr, x, y)
    case Xor => BinValue(BXor, x, y)
    case Sll => BinValue(BShl, x, BinValue(BAnd, y, 0x1F))
    case Srl => BinValue(BLShr, x, BinValue(BAnd, y, 0x1F))
    case Sra => BinValue(BAShr, x, BinValue(BAnd, y, 0x1F))
    case Slt => if CmpHolds(CSlt, x, y) then 1 else 0
    case Sltu => if CmpHolds(CUlt, x, y) then 1 else 0
  }

  lemma FiveBits(y: Word)
    ensures AndWord(y, 0x1F) == LowFive(y)
  {
  }

  /** They compute what the ISA asks for: a shift only looks at five bits. */
  lemma HostAluMeans(op: AluOp, x: Word, y: Word)
    ensures HostAlu(op, x, y) == AluValue(op, x, y)
  {
    hide ShiftLeft, ShiftRight, ShiftRightArith, SignedLess, UnsignedLess;
    hide AddWord, SubWord, AndWord, OrWord, XorWord, LowFive;
    FiveBits(y);
  }

  // The aliases: MV, NEG and NOT.
  lemma AliasMeans(x: Word, y: Word)
    ensures AluValue(Add, x, 0) == x
    ensures BinValue(BSub, 0, y) == AluValue(Sub, 0, y)
    ensures BinValue(BXor, x, y) == AluValue(Xor, x, y)
  {
  }

  lemma MaskOfRead(m: Machine, width: Width, a: Word)
    ensures Mask(width, ReadMem(m, width, a)) == ReadMem(m, width, a)
  {
  }

  lemma WriteOfMask(m: Machine, width: Width, a: Word, w: Word)
    ensures WriteMem(m, width, a, Mask(width, w)) == WriteMem(m, width, a, w)
  {
    ByteOfMask(w);
    hide Byte0, Byte1, Byte2, Byte3;
  }

  lemma ByteOfMask(w: Word)
    ensures Byte0(w & 0xFF) == Byte0(w)
    ensures Byte0(w & 0xFFFF) == Byte0(w) && Byte1(w & 0xFFFF) == Byte1(w)
  {
  }

  // ---- translation ----

  /** `m'` is the machine behind the plain instruction `i` at `a`. */
  ghost predicate Becomes(i: Instr, a: int, m: Machine, m': Machine) {
    Step(i, a, m) == Next(a + 4, m')
  }

  // Code that runs through with the right machine implements a plain instruction.
  lemma PlainImplements(bld: Builder, i: Instr)
    requires bld.Ready() && bld.emitted != [] && !IsControl(i)
    requires forall m, e :: Exec(bld.Out(), m, e).Fall? && Becomes(i, bld.addr, m, Exec(bld.Out(), m, e).m)
    ensures Implements(bld.addr, i, bld.Out())
  {
    hide Step;
    var out := bld.Out();
    forall m, e ensures Agrees(false, Step(i, bld.addr, m), Exec(out, m, e)) {
      assert Becomes(i, bld.addr, m, Exec(out, m, e).m);
    }
  }

  // An instruction that emitted nothing becomes a nop, so that it has a first one.
  method First(bld: Builder)
    requires bld.Ready()
    modifies bld`emitted, bld`count, bld.bb`code
    ensures bld.Ready() && bld.emitted != []
    ensures forall m, e :: Exec(old(bld.Out()), m, e).Fall? ==>
              Exec(bld.Out(), m, e).Fall? && Exec(bld.Out(), m, e).m == Exec(old(bld.Out()), m, e).m
  {
    ghost var s := bld.Out();
    if bld.count == 0 {
      var _ := bld.Emit(Nop);
      forall m, e ensures Exec(bld.Out(), m, e) == Exec(s, m, e) {
        ExecSnoc(s, Inst(bld.addr, 0, Nop), m, e);
      }
    }
  }

  /** `v` holds `w` behind the code `s`, which leaves the machine alone. */
  ghost predicate Gives(s: seq<Inst<int>>, v: Val, m: Machine, e: Env, w: Word) {
    Quiet(s, m, e) && ValOf(s, m, e, v) == w
  }

  // The operation itself, the operands being there.
  method AluOperation(bld: Builder, op: AluOp, a: Val, b: Val) returns (v: Val)
    requires bld.Ready() && bld.Known(a) && bld.Known(b)
    modifies bld`emitted, bld`count, bld.bb`code
    ensures bld.Ready() && bld.Known(v)
    ensures forall m, e :: Quiet(old(bld.Out()), m, e) ==>
              Gives(bld.Out(), v, m, e, HostAlu(op, ValOf(old(bld.Out()), m, e, a), ValOf(old(bld.Out()), m, e, b)))
  {
    hide BinValue, CmpHolds, Quiet, EnvOf, Eval, Exec, Views, Mask, SignExtend, ReadMem;
    match op {
      case Add => v := bld.Compute(Bin(BAdd, a, b));
      case Sub => v := bld.Compute(Bin(BSub, a, b));
      case And => v := bld.Compute(Bin(BAnd, a, b));
      case Or => v := bld.Compute(Bin(BOr, a, b));
      case Xor => v := bld.Compute(Bin(BXor, a, b));
      case Sll => v := Shift(bld, BShl, a, b);
      case Srl => v := Shift(bld, BLShr, a, b);
      case Sra => v := Shift(bld, BAShr, a, b);
      case Slt => v := Compare(bld, CSlt, a, b);
      case Sltu => v := Compare(bld, CUlt, a, b);
    }
  }

  lemma ConstValue(s: seq<Inst<int>>, m: Machine, e: Env, w: Word)
    requires Quiet(s, m, e)
    ensures ValOf(s, m, e, Const(w)) == w
  {
  }

  method Shift(bld: Builder, k: BinKind, a: Val, b: Val) returns (v: Val)
    requires bld.Ready() && bld.Known(a) && bld.Known(b)
    modifies bld`emitted, bld`count, bld.bb`code
    ensures bld.Ready() && bld.Known(v)
    ensures forall m, e :: Quiet(old(bld.Out()), m, e) ==>
              Gives(bld.Out(), v, m, e, BinValue(k, ValOf(old(bld.Out()), m, e, a), BinValue(BAnd, ValOf(old(bld.Out()), m, e, b), 0x1F)))
  {
    hide BinValue, Quiet, EnvOf, Exec, Views;
    ghost var s := bld.Out();
    var n := bld.Compute(Bin(BAnd, b, Const(0x1F)));
    ghost var s' := bld.Out();
    v := bld.Compute(Bin(k, a, n));
    forall m, e | Quiet(s, m, e)
      ensures Gives(bld.Out(), v, m, e, BinValue(k, ValOf(s, m, e, a), BinValue(BAnd, ValOf(s, m, e, b), 0x1F)))
    {
      ConstValue(s, m, e, 0x1F);
      assert ValOf(s', m, e, a) == ValOf(s, m, e, a);
    }
  }

  method Compare(bld: Builder, c: CmpKind, a: Val, b: Val) returns (v: Val)
    requires bld.Ready() && bld.Known(a) && bld.Known(b)
    modifies bld`emitted, bld`count, bld.bb`code
    ensures bld.Ready() && bld.Known(v)
    ensures forall m, e :: Quiet(old(bld.Out()), m, e) ==>
              Gives(bld.Out(), v, m, e, if CmpHolds(c, ValOf(old(bld.Out()), m, e, a), ValOf(old(bld.Out()), m, e, b)) then 1 else 0)
  {
    hide CmpHolds, Quiet, EnvOf, Exec, Views;
    v := bld.Compute(ICmp(c, a, b));
    v := bld.Compute(ZextBit(v));
  }

  // The aliases have code of their own.
  method AluOrAlias(bld: Builder, op: AluOp, rs1: Reg, src: Src, a: Val, b: Val) returns (v: Val)
    requires bld.Ready() && bld.Known(a) && bld.Known(b)
    requires src.I? ==> b == Const(src.imm)
    modifies bld`emitted, bld`count, bld.bb`code
    ensures bld.Ready() && bld.Known(v)
    ensures forall m, e :: Quiet(old(bld.Out()), m, e) && (rs1 == 0 ==> ValOf(old(bld.Out()), m, e, a) == 0) ==>
              Gives(bld.Out(), v, m, e, AluValue(op, ValOf(old(bld.Out()), m, e, a), ValOf(old(bld.Out()), m, e, b)))
  {
    hide BinValue, AluValue, Quiet, EnvOf, Exec, Views, HostAlu;
    ghost var s := bld.Out();
    if op.Add? && src.I? && src.imm == 0 {
      v := a;
    } else if op.Sub? && rs1 == 0 {
      v := bld.Compute(Bin(BSub, Const(0), b));
    } else if op.Xor? && src.I? && src.imm == 0xFFFF_FFFF {
      v := bld.Compute(Bin(BXor, a, Const(0xFFFF_FFFF)));
    } else {
      v := AluOperation(bld, op, a, b);
    }
    forall m, e | Quiet(s, m, e) && (rs1 == 0 ==> ValOf(s, m, e, a) == 0)
      ensures Gives(bld.Out(), v, m, e, AluValue(op, ValOf(s, m, e, a), ValOf(s, m, e, b)))
    {
      var x, y := ValOf(s, m, e, a), ValOf(s, m, e, b);
      AliasMeans(x, y);
      HostAluMeans(op, x, y);
      ConstValue(s, m, e, 0);
      ConstValue(s, m, e, 0xFFFF_FFFF);
    }
  }

  // A value is stored and the instruction is complete.
  method Finish(bld: Builder, v: Val, rd: Reg, ghost i: Instr)
    requires bld.Ready() && bld.Known(v) && !IsControl(i)
    requires forall m, e :: Quiet(bld.Out(), m, e) && Becomes(i, bld.addr, m, WriteX(m, rd, ValOf(bld.Out(), m, e, v)))
    modifies bld`emitted, bld`count, bld.bb`code
    ensures bld.Ready() && Implements(bld.addr, i, bld.Out())
  {
    hide Quiet, ValOf, Becomes, WriteX, Implements;
    ghost var s := bld.Out();
    bld.StoreX(v, rd);
    ghost var s' := bld.Out();
    First(bld);
    forall m, e ensures Exec(bld.Out(), m, e).Fall? && Becomes(i, bld.addr, m, Exec(bld.Out(), m, e).m) {
      assert Quiet(s, m, e) && Effect(s', m, e, WriteX(m, rd, ValOf(s, m, e, v)));
    }
    PlainImplements(bld, i);
  }

  // The operands of an ALU instruction.
  method AluOperands(bld: Builder, rs1: Reg, src: Src) returns (a: Val, b: Val)
    requires bld.Ready() && bld.emitted == []
    modifies bld`emitted, bld`count, bld.bb`code
    ensures bld.Ready() && bld.Known(a) && bld.Known(b) && (src.I? ==> b == Const(src.imm))
    ensures forall m, e :: Gives(bld.Out(), a, m, e, ReadX(m, rs1)) && ValOf(bld.Out(), m, e, b) == Operand(m, src)
  {
    hide ValOf, Views, ReadX;
    ghost var s := bld.Out();
    a := bld.LoadX(rs1);
    ghost var s1 := bld.Out();
    match src {
      case R(r) => b := bld.LoadX(r);
      case I(imm) => b := Const(imm);
    }
    ghost var s2 := bld.Out();
    forall m, e ensures Gives(s2, a, m, e, ReadX(m, rs1)) && ValOf(s2, m, e, b) == Operand(m, src) {
      assert Quiet(s, m, e) && Quiet(s1, m, e);
      assert ValOf(s2, m, e, a) == ValOf(s1, m, e, a);
      if src.I? { ConstValue(s2, m, e, src.imm); }
    }
  }

  method TranslateALUOp(bld: Builder, op: AluOp, rd: Reg, rs1: Reg, src: Src)
    requires bld.Ready() && bld.emitted == []
    modifies bld`emitted, bld`count, bld.bb`code
    ensures bld.Ready() && Implements(bld.addr, Alu(op, rd, rs1, src), bld.Out())
  {
    hide AluValue, ValOf, Views, WriteX, ReadX, Implements, Quiet;
    var a, b := AluOperands(bld, rs1, src);
    ghost var s2 := bld.Out();
    var v := AluOrAlias(bld, op, rs1, src, a, b);
    ghost var s3 := bld.Out();
    forall m, e ensures Quiet(s3, m, e) && Becomes(Alu(op, rd, rs1, src), bld.addr, m, WriteX(m, rd, ValOf(s3, m, e, v))) {
      assert Gives(s2, a, m, e, ReadX(m, rs1));
      ZeroReads(m);
      assert Gives(s3, v, m, e, AluValue(op, ReadX(m, rs1), Operand(m, src)));
    }
    Finish(bld, v, rd, Alu(op, rd, rs1, src));
  }

  lemma ZeroReads(m: Machine)
    ensures ReadX(m, 0) == 0
  {
  }

  method TranslateUI(bld: Builder, auipc: bool, rd: Reg, imm20: Word)
    requires bld.Ready() && bld.emitted == []
    modifies bld`emitted, bld`count, bld.bb`code
    ensures bld.Ready() && Implements(bld.addr, if auipc then Auipc(rd, imm20) else Lui(rd, imm20), bld.Out())
  {
    hide Implements, WriteX, AddrWord, AddWord, UpperImm;
    var c := UpperImm(imm20);
    if auipc { c := AddWord(AddrWord(bld.addr), c); }
    ghost var i := if auipc then Auipc(rd, imm20) else Lui(rd, imm20);
    forall m, e ensures Quiet(bld.Out(), m, e) && Becomes(i, bld.addr, m, WriteX(m, rd, ValOf(bld.Out(), m, e, Const(c)))) {
      ConstValue(bld.Out(), m, e, c);
    }
    Finish(bld, Const(c), rd, i);
  }

  // The address of a memory access: register plus offset.
  method AddressOf(bld: Builder, rs1: Reg, imm: Word) returns (p: Val)
    requires bld.Ready()
    modifies bld`emitted, bld`count, bld.bb`code
    ensures bld.Ready() && bld.Known(p) && old(bld.count) <= bld.count && Stable(old(bld.Out()), bld.Out())
    ensures forall m, e :: Quiet(old(bld.Out()), m, e) ==> ValOf(bld.Out(), m, e, p) == AddWord(ReadX(m, rs1), imm)
  {
    hide ReadX, Exec, AddWord, Quiet;
    ghost var s := bld.Out();
    var base := bld.LoadX(rs1);
    ghost var s1 := bld.Out();
    p := bld.Compute(Bin(BAdd, base, Const(imm)));
    StableTrans(s, s1, bld.Out());
  }

  // The value is widened to a word.
  method Widen(bld: Builder, width: Width, signed: bool, v: Val) returns (w: Val)
    requires bld.Ready() && bld.Known(v)
    modifies bld`emitted, bld`count, bld.bb`code
    ensures bld.Ready() && bld.Known(w) && Stable(old(bld.Out()), bld.Out())
    ensures forall m, e :: Quiet(old(bld.Out()), m, e) ==>
              var x := ValOf(old(bld.Out()), m, e, v);
              ValOf(bld.Out(), m, e, w) == if width == Full then x else if signed then SignExtend(width, x) else Mask(width, x)
  {
    hide Exec, SignExtend, Mask, Quiet;
    w := v;
    if width != Full {
      if signed { w := bld.Compute(Sext(width, v)); } else { w := bld.Compute(Zext(width, v)); }
    }
  }

  method TranslateLoad(bld: Builder, width: Width, signed: bool, rd: Reg, rs1: Reg, imm: Word)
    requires bld.Ready() && bld.emitted == []
    modifies bld`emitted, bld`count, bld.bb`code
    ensures bld.Ready() && Implements(bld.addr, Load(width, signed, rd, rs1, imm), bld.Out())
  {
    hide WriteX, ReadX, Implements, ReadMem, SignExtend, Mask, Exec, AddWord;
    var p := AddressOf(bld, rs1, imm);
    ghost var s1 := bld.Out();
    var v := bld.Compute(LoadMem(width, p));
    ghost var s2 := bld.Out();
    v := Widen(bld, width, signed, v);
    ghost var i, s3 := Load(width, signed, rd, rs1, imm), bld.Out();
    forall m, e ensures Quiet(s3, m, e) && Becomes(i, bld.addr, m, WriteX(m, rd, ValOf(s3, m, e, v))) {
      EmptyQuiet(m, e);
      assert Quiet(s1, m, e) && Quiet(s2, m, e);
      MaskOfRead(m, width, AddWord(ReadX(m, rs1), imm));
      SignOfFull(ReadMem(m, width, AddWord(ReadX(m, rs1), imm)));
    }
    Finish(bld, v, rd, i);
  }

  lemma SignOfFull(w: Word)
    ensures SignExtend(Full, w) == w
  {
  }

  method TranslateStore(bld: Builder, width: Width, rs2: Reg, rs1: Reg, imm: Word)
    requires bld.Ready() && bld.emitted == []
    modifies bld`emitted, bld`count, bld.bb`code
    ensures bld.Ready() && Implements(bld.addr, Store(width, rs2, rs1, imm), bld.Out())
  {
    hide WriteMem, ReadX, Implements, Mask, Exec, AddWord;
    var w := bld.LoadX(rs2);
    ghost var s1 := bld.Out();
    var p := AddressOf(bld, rs1, imm);
    ghost var s2 := bld.Out();
    var v := bld.Compute(Trunc(width, w));
    ghost var s3 := bld.Out();
    var _ := bld.Emit(StoreMem(width, v, p));
    ghost var i, s4 := Store(width, rs2, rs1, imm), bld.Out();
    forall m, e ensures Exec(s4, m, e).Fall? && Becomes(i, bld.addr, m, Exec(s4, m, e).m) {
      EmptyQuiet(m, e);
      assert Quiet(s1, m, e) && Quiet(s2, m, e) && Quiet(s3, m, e);
      assert ValOf(s3, m, e, v) == Mask(width, ReadX(m, rs2)) && ValOf(s3, m, e, p) == AddWord(ReadX(m, rs1), imm);
      StoreCase(s3, width, rs2, rs1, imm, v, p, bld.addr, m, e);
    }
    PlainImplements(bld, i);
  }

  lemma StoreCase(s: seq<Inst<int>>, width: Width, rs2: Reg, rs1: Reg, imm: Word, v: Val, p: Val, a: int, m: Machine, e: Env)
    requires Quiet(s, m, e)
    requires ValOf(s, m, e, v) == Mask(width, ReadX(m, rs2)) && ValOf(s, m, e, p) == AddWord(ReadX(m, rs1), imm)
    ensures var t := s + [Inst(a, |s|, StoreMem(width, v, p))];
            Exec(t, m, e).Fall? && Becomes(Store(width, rs2, rs1, imm), a, m, Exec(t, m, e).m)
  {
    hide WriteMem, ReadX, Mask, AddWord, Exec;
    StoreEffect(s, Inst(a, |s|, StoreMem(width, v, p)), m, e);
    WriteOfMask(m, width, AddWord(ReadX(m, rs1), imm), ReadX(m, rs2));
  }

  lemma EmptyQuiet(m: Machine, e: Env)
    ensures Quiet([], m, e)
  {
  }

  lemma StoreEffect(s: seq<Inst<int>>, i: Inst<int>, m: Machine, e: Env)
    requires Quiet(s, m, e) && i.op.StoreMem?
    ensures Effect(s + [i], m, e, WriteMem(m, i.op.width, ValOf(s, m, e, i.op.p), ValOf(s, m, e, i.op.v)))
  {
    hide WriteMem;
    ExecSnoc(s, i, m, e);
  }

  // ---- instructions that transfer control ----

  /** The condition of a branch: one when it holds, zero when not. */
  method TranslateCond(bld: Builder, c: Cond, rs1: Reg, rs2: Reg) returns (v: Val)
    requires bld.Ready() && bld.emitted == []
    modifies bld`emitted, bld`count, bld.bb`code
    ensures bld.Ready() && bld.Known(v)
    ensures forall m, e :: Gives(bld.Out(), v, m, e, Flag(c, ReadX(m, rs1), ReadX(m, rs2)))
  {
    hide ReadX, Exec, Holds, CmpHolds;
    var a := bld.LoadX(rs1);
    ghost var s1 := bld.Out();
    var b := bld.LoadX(rs2);
    ghost var s2 := bld.Out();
    v := bld.Compute(ICmp(CmpOf(c), a, b));
    forall m, e ensures Gives(bld.Out(), v, m, e, Flag(c, ReadX(m, rs1), ReadX(m, rs2))) {
      EmptyQuiet(m, e);
      assert Quiet(s1, m, e) && Quiet(s2, m, e);
      assert ValOf(s2, m, e, a) == ValOf(s1, m, e, a);
      CmpMeans(c, ReadX(m, rs1), ReadX(m, rs2));
    }
  }

  function Flag(c: Cond, x: Word, y: Word): Word {
    if Holds(c, x, y) then 1 else 0
  }

  function CmpOf(c: Cond): CmpKind {
    match c case Eq => CEq case Ne => CNe case Lt => CSlt case Ge => CSge case Ltu => CUlt case Geu => CUge
  }

  lemma CmpMeans(c: Cond, x: Word, y: Word)
    ensures CmpHolds(CmpOf(c), x, y) == Holds(c, x, y)
  {
    hide SignedLess;
  }

  /** The target of a register jump. */
  method TranslateJumpTarget(bld: Builder, rs1: Reg, imm: Word) returns (v: Val)
    requires bld.Ready() && bld.emitted == []
    modifies bld`emitted, bld`count, bld.bb`code
    ensures bld.Ready() && bld.Known(v)
    ensures forall m, e :: Gives(bld.Out(), v, m, e, AddWord(ReadX(m, rs1), imm))
  {
    hide ReadX, Exec, AddWord;
    if imm == 0 {
      v := bld.LoadX(rs1);
    } else {
      v := AddressOf(bld, rs1, imm);
    }
    forall m, e ensures Gives(bld.Out(), v, m, e, AddWord(ReadX(m, rs1), imm)) {
      EmptyQuiet(m, e);
      AddZero(ReadX(m, rs1));
    }
  }

  /** Code for the instruction at `a` without a terminator, named in order. */
  ghost predicate Plain(a: int, s: seq<Inst<int>>) {
    forall j :: 0 <= j < |s| ==> s[j].addr == a && s[j].idx == j && !IsTerm(s[j].op)
  }

  lemma ReadyPlain(bld: Builder)
    requires bld.Ready()
    ensures Plain(bld.addr, bld.Out())
  {
  }

  lemma CondBrImplements(a: int, i: Instr, s: seq<Inst<int>>, v: Val)
    requires i.Branch? && Plain(a, s)
    requires forall m, e :: Gives(s, v, m, e, Flag(i.cond, ReadX(m, i.brs1), ReadX(m, i.brs2)))
    ensures Implements(a, i, s + [Inst(a, |s|, CondBr(v, Target(a, i.off), a + 4))])
  {
    hide ReadX, Holds;
    var br := Inst(a, |s|, CondBr(v, Target(a, i.off), a + 4));
    forall m, e ensures Agrees(true, Step(i, a, m), Exec(s + [br], m, e)) {
      assert Gives(s, v, m, e, Flag(i.cond, ReadX(m, i.brs1), ReadX(m, i.brs2)));
      ExecSnoc(s, br, m, e);
    }
  }

  lemma BrImplements(a: int, i: Instr)
    requires i.Jump?
    ensures Implements(a, i, [Inst(a, 0, Br(Target(a, i.off)))])
  {
    hide Exec, Target;
    var br: Inst<int> := Inst(a, 0, Br(Target(a, i.off)));
    forall m, e
      ensures Agrees(true, Step(i, a, m), Exec([br], m, e))
    {
      ExecOne(br, m, e);
    }
  }

  lemma RetImplements(a: int, i: Instr)
    requires IsReturn(i)
    ensures Implements(a, i, [Inst(a, 0, RetVoid)])
  {
    hide Exec, AddWord, ReadX;
    var br: Inst<int> := Inst(a, 0, RetVoid);
    forall m, e
      ensures Agrees(true, Step(i, a, m), Exec([br], m, e))
    {
      ExecOne(br, m, e);
    }
  }

  lemma IndirectImplements(a: int, i: Instr, s: seq<Inst<int>>, v: Val)
    requires i.JumpReg? && !IsReturn(i) && Plain(a, s)
    requires forall m, e :: Gives(s, v, m, e, AddWord(ReadX(m, i.rs1), i.imm))
    ensures Implements(a, i, s + [Inst(a, |s|, IndirectBr(v))])
  {
    hide ReadX, AddWord;
    var br := Inst(a, |s|, IndirectBr(v));
    forall m, e ensures Agrees(true, Step(i, a, m), Exec(s + [br], m, e)) {
      assert Gives(s, v, m, e, AddWord(ReadX(m, i.rs1), i.imm));
      ExecSnoc(s, br, m, e);
    }
  }
}

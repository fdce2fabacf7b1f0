/** The guest machine: the RV32 instructions the block translator handles, with
    the meaning given by chapter 2 of the RISC-V Unprivileged ISA. */
module Guest {
  import opened Basics

  type Reg = r: nat | r < 32

  const RA: Reg := 1

  datatype Width = Byte | Half | Full
  datatype AluOp = Add | Sub | And | Or | Xor | Sll | Srl | Sra | Slt | Sltu
  datatype Cond = Eq | Ne | Lt | Ge | Ltu | Geu
  datatype Src = R(r: Reg) | I(imm: Word)

  datatype Instr =
    | Alu(op: AluOp, rd: Reg, rs1: Reg, src: Src)
    | Lui(rd: Reg, imm20: Word)
    | Auipc(rd: Reg, imm20: Word)
    | Load(width: Width, signed: bool, rd: Reg, rs1: Reg, imm: Word)
    | Store(width: Width, rs2: Reg, rs1: Reg, imm: Word)
    | Branch(cond: Cond, brs1: Reg, brs2: Reg, off: int)
    | Jump(off: int)
    | JumpReg(rs1: Reg, imm: Word)

  // An address in memory.
  datatype Addr = Addr(w: Word)

  datatype Machine = Machine(regs: map<Reg, Word>, mem: map<Addr, bv8>)

  // What one instruction does: go on at an address, return to the caller of the
  // function, or leave through a computed jump, whose target is the sum given with its
  // lowest bit cleared.
  datatype Outcome =
    | Next(pc: int, m: Machine)
    | Return(m: Machine)
    | Computed(sum: Word, m: Machine)

  function ReadX(m: Machine, r: Reg): Word {
    if r == 0 then 0 else if r in m.regs then m.regs[r] else 0
  }

  function WriteX(m: Machine, r: Reg, w: Word): Machine {
    if r == 0 then m else m.(regs := m.regs[r := w])
  }

  function ReadByte(m: Machine, a: Word): bv8 {
    if Addr(a) in m.mem then m.mem[Addr(a)] else 0
  }

  predicate SignedLess(a: Word, b: Word) {
    (a ^ 0x8000_0000) < (b ^ 0x8000_0000)
  }

  lemma AddZero(x: Word)
    ensures AddWord(x, 0) == x
  {
  }

  function UpperImm(imm20: Word): Word {
    imm20 << 12
  }

  function ShiftRightArith(a: Word, n: Word): Word
    requires n < 32
  {
    if a & 0x8000_0000 == 0 then a >> n else !(!a >> n)
  }

  // A shift looks at the five low bits of its amount.
  function LowFive(b: Word): (n: Word)
    ensures n < 32
  {
    b & 0x1F
  }

  function Operand(m: Machine, s: Src): Word {
    match s case R(r) => ReadX(m, r) case I(imm) => imm
  }

  function AluValue(op: AluOp, a: Word, b: Word): Word {
    match op
    case Add => AddWord(a, b)
    case Sub => SubWord(a, b)
    case And => AndWord(a, b)
    case Or => OrWord(a, b)
    case Xor => XorWord(a, b)
    case Sll => ShiftLeft(a, LowFive(b))
    case Srl => ShiftRight(a, LowFive(b))
    case Sra => ShiftRightArith(a, LowFive(b))
    case Slt => if SignedLess(a, b) then 1 else 0
    case Sltu => if UnsignedLess(a, b) then 1 else 0
  }

  predicate Holds(c: Cond, a: Word, b: Word) {
    match c
    case Eq => a == b
    case Ne => a != b
    case Lt => SignedLess(a, b)
    case Ge => !SignedLess(a, b)
    case Ltu => UnsignedLess(a, b)
    case Geu => a >= b
  }

  // The `width` low bits at `a`, in a word whose other bits are zero.
  function ReadMem(m: Machine, width: Width, a: Word): Word {
    var b0 := ReadByte(m, a) as Word;
    match width
    case Byte => b0
    case Half => b0 | (ReadByte(m, a + 1) as Word << 8)
    case Full => b0 | (ReadByte(m, a + 1) as Word << 8) | (ReadByte(m, a + 2) as Word << 16)
                 | (ReadByte(m, a + 3) as Word << 24)
  }

  function SignExtend(width: Width, w: Word): Word {
    match width
    case Byte => if w & 0x80 == 0 then w & 0xFF else w | 0xFFFF_FF00
    case Half => if w & 0x8000 == 0 then w & 0xFFFF else w | 0xFFFF_0000
    case Full => w
  }

  function LoadValue(m: Machine, width: Width, signed: bool, a: Word): Word {
    var w := ReadMem(m, width, a);
    if signed then SignExtend(width, w) else w
  }

  function Byte0(w: Word): bv8 { (w & 0xFF) as bv8 }
  function Byte1(w: Word): bv8 { ((w >> 8) & 0xFF) as bv8 }
  function Byte2(w: Word): bv8 { ((w >> 16) & 0xFF) as bv8 }
  function Byte3(w: Word): bv8 { ((w >> 24) & 0xFF) as bv8 }

  function WriteMem(m: Machine, width: Width, a: Word, w: Word): Machine {
    var mem := m.mem[Addr(a) := Byte0(w)];
    match width
    case Byte => m.(mem := mem)
    case Half => m.(mem := mem[Addr(a + 1) := Byte1(w)])
    case Full => m.(mem := mem[Addr(a + 1) := Byte1(w)][Addr(a + 2) := Byte2(w)][Addr(a + 3) := Byte3(w)])
  }

  // An address as the 32-bit value a register holds.
  function AddrWord(a: int): Word {
    ToWord(a % XLEN_MOD)
  }

  /** A pc-relative target wraps at 32 bits. */
  function Target(pc: int, off: int): int {
    (pc + off) % XLEN_MOD
  }

  function ClearBit0(w: Word): Word {
    w & 0xFFFF_FFFE
  }

  predicate IsControl(i: Instr) {
    i.Branch? || i.Jump? || i.JumpReg?
  }

  predicate IsReturn(i: Instr) {
    i.JumpReg? && i.rs1 == RA && i.imm == 0
  }

  /** One instruction at `pc`.  A jump through `ra` with no offset is the return
      of the function; any other register jump leaves for a sum. */
  function Step(i: Instr, pc: int, m: Machine): Outcome {
    var next := pc + INSTRUCTION_SIZE;
    match i
    case Alu(op, rd, rs1, src) => Next(next, WriteX(m, rd, AluValue(op, ReadX(m, rs1), Operand(m, src))))
    case Lui(rd, imm20) => Next(next, WriteX(m, rd, UpperImm(imm20)))
    case Auipc(rd, imm20) => Next(next, WriteX(m, rd, AddWord(AddrWord(pc), UpperImm(imm20))))
    case Load(width, signed, rd, rs1, imm) =>
      Next(next, WriteX(m, rd, LoadValue(m, width, signed, AddWord(ReadX(m, rs1), imm))))
    case Store(width, rs2, rs1, imm) =>
      Next(next, WriteMem(m, width, AddWord(ReadX(m, rs1), imm), ReadX(m, rs2)))
    case Branch(c, rs1, rs2, off) =>
      Next(if Holds(c, ReadX(m, rs1), ReadX(m, rs2)) then Target(pc, off) else next, m)
    case Jump(off) => Next(Target(pc, off), m)
    case JumpReg(rs1, imm) =>
      if IsReturn(i) then Return(m) else Computed(AddWord(ReadX(m, rs1), imm), m)
  }

  // How a run of a function ends: a computed jump by the sum it jumps to.
  datatype End = Returned(m: Machine) | Left(target: Word, m: Machine)

  /** At most `n` instructions from `pc`; None when the run has not ended by then. */
  function Run(code: map<int, Instr>, pc: int, m: Machine, n: nat): Option<End>
    decreases n
  {
    if n == 0 || pc !in code then None
    else match Step(code[pc], pc, m)
      case Next(pc', m') => Run(code, pc', m', n - 1)
      case Return(m') => Some(Returned(m'))
      case Computed(w, m') => Some(Left(w, m'))
  }
}

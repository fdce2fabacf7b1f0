/** A small block language in the place of LLVM IR: a block is a list of
    instructions of which only the last may be a terminator.  A value is named by
    the instruction that computes it, and an instruction by the guest address it
    was emitted for and its position there. */
module Host {
  import opened Basics
  import opened Guest

  datatype Val = Const(w: Word) | Tmp(addr: int, idx: int)

  datatype BinKind = BAdd | BSub | BAnd | BOr | BXor | BShl | BLShr | BAShr
  datatype CmpKind = CEq | CNe | CUlt | CSlt | CUge | CSge

  datatype Op<B> =
    | LoadReg(r: Reg)
    | StoreReg(r: Reg, v: Val)
    | Bin(k: BinKind, a: Val, b: Val)
    | ICmp(c: CmpKind, a: Val, b: Val)
    | Zext(width: Width, v: Val)
    | ZextBit(v: Val)
    | Sext(width: Width, v: Val)
    | Trunc(width: Width, v: Val)
    | LoadMem(width: Width, p: Val)
    | StoreMem(width: Width, v: Val, p: Val)
    | Nop
    | Br(to: B)
    | CondBr(v: Val, yes: B, no: B)
    | RetVoid
    | IndirectBr(v: Val)

  datatype Inst<B> = Inst(addr: int, idx: int, op: Op<B>)

  type Env = map<(int, int), Word>

  datatype Flow =
    | Fall(m: Machine, e: Env)
    | Goto(to: int, m: Machine, e: Env)
    | Ret(m: Machine)
    | Indirect(w: Word, m: Machine)

  predicate IsTerm<B>(op: Op<B>) {
    op.Br? || op.CondBr? || op.RetVoid? || op.IndirectBr?
  }

  function Eval(v: Val, e: Env): Word {
    match v
    case Const(w) => w
    case Tmp(a, i) => if (a, i) in e then e[(a, i)] else 0
  }

  // A shift by the word size or more has no defined result; 0 stands for it.
  function BinValue(k: BinKind, a: Word, b: Word): Word {
    match k
    case BAdd => AddWord(a, b)
    case BSub => SubWord(a, b)
    case BAnd => AndWord(a, b)
    case BOr => OrWord(a, b)
    case BXor => XorWord(a, b)
    case BShl => if b < 32 then ShiftLeft(a, b) else 0
    case BLShr => if b < 32 then ShiftRight(a, b) else 0
    case BAShr => if b < 32 then ShiftRightArith(a, b) else 0
  }

  predicate CmpHolds(c: CmpKind, a: Word, b: Word) {
    match c
    case CEq => a == b
    case CNe => a != b
    case CUlt => UnsignedLess(a, b)
    case CSlt => SignedLess(a, b)
    case CUge => a >= b
    case CSge => !SignedLess(a, b)
  }

  function Mask(width: Width, w: Word): Word {
    match width case Byte => w & 0xFF case Half => w & 0xFFFF case Full => w
  }

  predicate IsValueOp<B>(op: Op<B>) {
    op.LoadReg? || op.Bin? || op.ICmp? || op.Zext? || op.ZextBit? || op.Sext? || op.Trunc? || op.LoadMem?
  }

  /** The value an instruction computes. */
  function ValueOf(op: Op<int>, m: Machine, e: Env): Word
    requires IsValueOp(op)
  {
    match op
    case LoadReg(r) => ReadX(m, r)
    case Bin(k, a, b) => BinValue(k, Eval(a, e), Eval(b, e))
    case ICmp(c, a, b) => if CmpHolds(c, Eval(a, e), Eval(b, e)) then 1 else 0
    case Zext(width, v) => Mask(width, Eval(v, e))
    case ZextBit(v) => Eval(v, e)
    case Sext(width, v) => SignExtend(width, Eval(v, e))
    case Trunc(width, v) => Mask(width, Eval(v, e))
    case LoadMem(width, p) => ReadMem(m, width, Eval(p, e))
  }

  function StepInst(i: Inst<int>, m: Machine, e: Env): Flow {
    if IsValueOp(i.op) then Fall(m, e[(i.addr, i.idx) := ValueOf(i.op, m, e)])
    else match i.op
      case StoreReg(r, v) => Fall(WriteX(m, r, Eval(v, e)), e)
      case StoreMem(width, v, p) => Fall(WriteMem(m, width, Eval(p, e), Eval(v, e)), e)
      case Br(to) => Goto(to, m, e)
      case CondBr(v, yes, no) => Goto(if Eval(v, e) != 0 then yes else no, m, e)
      case RetVoid => Ret(m)
      case IndirectBr(v) => Indirect(Eval(v, e), m)
      case _ => Fall(m, e)
  }

  /** The effect of a list of instructions, run from the first. */
  function Exec(s: seq<Inst<int>>, m: Machine, e: Env): Flow {
    if s == [] then Fall(m, e)
    else
      var f := Exec(s[..|s| - 1], m, e);
      if f.Fall? then StepInst(s[|s| - 1], f.m, f.e) else f
  }

  lemma ExecSnoc(s: seq<Inst<int>>, i: Inst<int>, m: Machine, e: Env)
    ensures var f := Exec(s, m, e);
            Exec(s + [i], m, e) == if f.Fall? then StepInst(i, f.m, f.e) else f
  {
    assert (s + [i])[..|s|] == s;
  }

  lemma ExecOne(i: Inst<int>, m: Machine, e: Env)
    ensures Exec([i], m, e) == StepInst(i, m, e)
  {
    hide StepInst;
    ExecSnoc([], i, m, e);
    assert [] + [i] == [i];
  }

  lemma {:induction false} ExecAppend(s: seq<Inst<int>>, t: seq<Inst<int>>, m: Machine, e: Env)
    ensures var f := Exec(s, m, e);
            Exec(s + t, m, e) == if f.Fall? then Exec(t, f.m, f.e) else f
    decreases |t|
  {
    if t == [] {
      assert s + t == s;
    } else {
      var n := |t| - 1;
      assert s + t == (s + t[..n]) + [t[n]];
      ExecSnoc(s + t[..n], t[n], m, e);
      ExecAppend(s, t[..n], m, e);
    }
  }

  /** What a host flow must be for the guest outcome `o` of the same instruction. */
  ghost predicate Agrees(control: bool, o: Outcome, f: Flow) {
    match o
    case Next(pc, m) =>
      if control then f.Goto? && f.to == pc && f.m == m else f.Fall? && f.m == m
    case Return(m) => f == Ret(m)
    case Computed(w, m) => f == Indirect(w, m)
  }

  /** `chunk` is host code for the guest instruction `i` at address `a`: it is not
      empty, its parts are named after `a` in order, it ends in a terminator exactly
      when `i` transfers control, and in every machine it does what `i` does. */
  ghost predicate Implements(a: int, i: Instr, chunk: seq<Inst<int>>) {
    && chunk != []
    && (forall j :: 0 <= j < |chunk| ==> chunk[j].addr == a && chunk[j].idx == j)
    && (forall j :: 0 <= j < |chunk| ==> (IsTerm(chunk[j].op) <==> IsControl(i) && j == |chunk| - 1))
    && (forall m, e :: Agrees(IsControl(i), Step(i, a, m), Exec(chunk, m, e)))
  }

  /** A graph of blocks, run block by block from block `k`. */
  function RunBlocks(g: map<int, seq<Inst<int>>>, k: int, m: Machine, e: Env, n: nat): Option<End>
    decreases n
  {
    if n == 0 || k !in g then None
    else match Exec(g[k], m, e)
      case Fall(_, _) => None
      case Goto(k', m', e') => RunBlocks(g, k', m', e', n - 1)
      case Ret(m') => Some(Returned(m'))
      case Indirect(w, m') => Some(Left(w, m'))
  }
}

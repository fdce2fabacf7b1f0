/** Basic blocks, which are filled and cut in place, and the builder that appends host
    instructions to one of them. */
module CodeBuilder {
  import opened Basics
  import opened Guest
  import opened Host
  import opened BlockGraph

  // ---- code with block references, and the same code with block addresses ----

  function ViewOp(op: Op<BasicBlock>): Op<int> {
    match op
    case LoadReg(r) => LoadReg(r)
    case StoreReg(r, v) => StoreReg(r, v)
    case Bin(k, a, b) => Bin(k, a, b)
    case ICmp(c, a, b) => ICmp(c, a, b)
    case Zext(w, v) => Zext(w, v)
    case ZextBit(v) => ZextBit(v)
    case Sext(w, v) => Sext(w, v)
    case Trunc(w, v) => Trunc(w, v)
    case LoadMem(w, p) => LoadMem(w, p)
    case StoreMem(w, v, p) => StoreMem(w, v, p)
    case Nop => Nop
    case Br(to) => Br(to.addr)
    case CondBr(v, yes, no) => CondBr(v, yes.addr, no.addr)
    case RetVoid => RetVoid
    case IndirectBr(v) => IndirectBr(v)
  }

  function View(i: Inst<BasicBlock>): Inst<int> {
    Inst(i.addr, i.idx, ViewOp(i.op))
  }

  function Views(s: seq<Inst<BasicBlock>>): (t: seq<Inst<int>>)
    ensures |t| == |s| && forall i :: 0 <= i < |s| ==> t[i] == View(s[i])
  {
    seq(|s|, i requires 0 <= i < |s| => View(s[i]))
  }

  lemma ViewsAppend(s: seq<Inst<BasicBlock>>, t: seq<Inst<BasicBlock>>)
    ensures Views(s + t) == Views(s) + Views(t)
  {
  }

  // The blocks an instruction refers to.
  function Refs(op: Op<BasicBlock>): set<BasicBlock> {
    match op
    case Br(to) => {to}
    case CondBr(_, yes, no) => {yes, no}
    case _ => {}
  }

  /** The entries of an instruction map stand in the order of their addresses. */
  ghost predicate Ascending(s: seq<First>) {
    forall i, j :: 0 <= i < j < |s| ==> s[i].addr < s[j].addr
  }

  // `e` stands between the entries below its address and those above.
  ghost predicate Between(s: seq<First>, e: First, n: nat, m: nat) {
    && Ascending(s) && n <= m <= |s|
    && (forall i :: 0 <= i < n ==> s[i].addr < e.addr)
    && (forall i :: n <= i < m ==> s[i].addr == e.addr)
    && (forall i :: m <= i < |s| ==> e.addr < s[i].addr)
  }

  lemma Entered(s: seq<First>, e: First, n: nat, m: nat)
    requires Ascending(s) && n <= |s| && (forall i :: 0 <= i < n ==> s[i].addr < e.addr) && (n < |s| ==> e.addr <= s[n].addr)
    requires m == if n < |s| && s[n].addr == e.addr then n + 1 else n
    ensures var t := s[..n] + [e] + s[m..];
            Ascending(t) && e in t && forall x: First :: x.addr != e.addr ==> (x in t <==> x in s)
    ensures (forall i :: 0 <= i < |s| ==> s[i].addr < e.addr) ==> s[..n] + [e] + s[m..] == s + [e]
  {
    assert Between(s, e, n, m);
    hide Ascending;
    EnteredInOrder(s, e, n, m);
    hide Between;
    forall x: First | x.addr != e.addr
      ensures x in s[..n] + [e] + s[m..] <==> x in s
    {
      EnteredAlone(s, e, n, m, x);
    }
  }

  lemma EnteredInOrder(s: seq<First>, e: First, n: nat, m: nat)
    requires Between(s, e, n, m)
    ensures Ascending(s[..n] + [e] + s[m..])
  {
    var t := s[..n] + [e] + s[m..];
    forall i, j | 0 <= i < j < |t|
      ensures t[i].addr < t[j].addr
    {
      assert j > n ==> t[j] == s[j - n - 1 + m];
    }
  }

  lemma EnteredAlone(s: seq<First>, e: First, n: nat, m: nat, x: First)
    requires Between(s, e, n, m) && x.addr != e.addr
    ensures x in s[..n] + [e] + s[m..] <==> x in s
  {
    hide Ascending;
    if x in s {
      var i :| 0 <= i < |s| && s[i] == x;
      assert if i < n then s[..n][i] == x else s[m..][i - m] == x;
    }
  }

  class BasicBlock {
    const addr: int
    var code: seq<Inst<BasicBlock>>
    var firsts: seq<First>

    constructor (addr: int)
      ensures this.addr == addr && code == [] && firsts == []
    {
      this.addr := addr;
      code, firsts := [], [];
    }

    predicate Terminated()
      reads this`code
    {
      code != [] && IsTerm(code[|code| - 1].op)
    }

    /** Record where the code of the guest instruction at `a` starts: the one entry for `a`,
        in its place in the order of the addresses. */
    method AddInstr(a: int, first: Inst<BasicBlock>)
      requires Ascending(firsts)
      modifies this`firsts
      ensures Ascending(firsts) && First(a, first.addr, first.idx) in firsts
      ensures forall x: First :: x.addr != a ==> (x in firsts <==> x in old(firsts))
      ensures (forall i :: 0 <= i < |old(firsts)| ==> old(firsts)[i].addr < a) ==>
                firsts == old(firsts) + [First(a, first.addr, first.idx)]
    {
      var n := 0;
      while n < |firsts| && firsts[n].addr < a
        invariant 0 <= n <= |firsts| && forall i :: 0 <= i < n ==> firsts[i].addr < a
      {
        n := n + 1;
      }
      var m := if n < |firsts| && firsts[n].addr == a then n + 1 else n;
      var e := First(a, first.addr, first.idx);
      Entered(firsts, e, n, m);
      hide Ascending;
      firsts := firsts[..n] + [e] + firsts[m..];
    }

    /** Cut the block before the code of the guest instruction at `a`.  This block
        keeps its identity and the code above, and ends in a branch to the new block
        with the rest.  A block without a terminator gets one for the cut only. */
    method Split(a: int, ghost p: nat, ghost q: nat) returns (low: BasicBlock)
      requires q < |firsts| && firsts[q].addr == a && (forall i :: 0 <= i < q ==> firsts[i].addr < a)
      requires forall i :: q < i < |firsts| ==> a < firsts[i].addr
      requires 0 < p < |code| && code[p].addr == firsts[q].idAddr && code[p].idx == firsts[q].idIdx
      requires forall i :: 0 <= i < p ==> code[i].addr != firsts[q].idAddr || code[i].idx != firsts[q].idIdx
      modifies this
      ensures fresh(low) && low.addr == a
      ensures exists i :: code == old(code)[..p] + [i] && i.op == Br(low)
                          && i.addr == old(code)[p - 1].addr && i.idx == old(code)[p - 1].idx + 1
      ensures low.code == old(code)[p..]
      ensures firsts == old(firsts)[..q] && low.firsts == old(firsts)[q..]
    {
      // find the entry of the address
      var e := 0;
      while firsts[e].addr < a
        invariant 0 <= e <= q
        decreases q - e
      {
        e := e + 1;
      }
      // find the instruction it points to
      var n := 0;
      while !(code[n].addr == firsts[e].idAddr && code[n].idx == firsts[e].idIdx)
        invariant 0 <= n <= p
        decreases p - n
      {
        n := n + 1;
      }
      assert n == p && e == q;
      var missing := !Terminated();
      if missing { code := code + [Inst(0, 0, RetVoid)]; }
      low := new BasicBlock(a);
      low.code := code[n..];
      code := code[..n] + [Inst(code[n - 1].addr, code[n - 1].idx + 1, Br(low))];
      if missing { low.code := low.code[..|low.code| - 1]; }
      low.firsts := firsts[e..];
      firsts := firsts[..e];
    }
  }

  // ---- effects of the code emitted so far ----

  /** The code `s` runs through and leaves the machine `m` as it is. */
  ghost predicate Quiet(s: seq<Inst<int>>, m: Machine, e: Env) {
    Exec(s, m, e).Fall? && Exec(s, m, e).m == m
  }

  /** The value of `v` behind the code `s`. */
  ghost function ValOf(s: seq<Inst<int>>, m: Machine, e: Env, v: Val): Word {
    Eval(v, EnvOf(s, m, e))
  }

  ghost function EnvOf(s: seq<Inst<int>>, m: Machine, e: Env): Env {
    var f := Exec(s, m, e);
    if f.Fall? then f.e else map[]
  }

  class Builder {
    var bb: BasicBlock
    var addr: int
    var count: nat
    ghost var base: seq<Inst<BasicBlock>>
    ghost var emitted: seq<Inst<BasicBlock>>

    constructor (bb: BasicBlock)
      ensures this.bb == bb && emitted == [] && base == bb.code && Ready()
    {
      this.bb := bb;
      addr, count, emitted, base := 0, 0, [], bb.code;
    }

    /** `emitted` is what the block got for the current guest instruction. */
    ghost predicate Held()
      reads this, bb`code
    {
      && count == |emitted| && bb.code == base + emitted
      && forall i :: 0 <= i < |emitted| ==> emitted[i].addr == addr && emitted[i].idx == i
    }

    /** So far there is no terminator in it. */
    ghost predicate Ready()
      reads this, bb`code
    {
      Held() && forall i :: 0 <= i < |emitted| ==> !IsTerm(emitted[i].op) && Refs(emitted[i].op) == {}
    }

    /** The same, whatever the block holds. */
    ghost predicate Partial()
      reads this
    {
      count == |emitted| && forall i :: 0 <= i < |emitted| ==>
        emitted[i].addr == addr && emitted[i].idx == i && !IsTerm(emitted[i].op) && Refs(emitted[i].op) == {}
    }

    ghost function Out(): seq<Inst<int>>
      reads this`emitted
    {
      Views(emitted)
    }

    /** `v` is a constant or was computed by the code emitted so far. */
    ghost predicate Known(v: Val)
      reads this
    {
      v.Const? || (v.addr == addr && 0 <= v.idx < count)
    }

    /** Start on a new guest instruction. */
    method Reset(a: int)
      modifies this`addr, this`emitted, this`count, this`base
      ensures addr == a && emitted == [] && base == bb.code && Ready()
    {
      addr, count, emitted, base := a, 0, [], bb.code;
    }

    /** Go on in another block, which ends in what was emitted for the current
        guest instruction. */
    method SetInsertBlock(bb: BasicBlock)
      requires Partial() && |emitted| <= |bb.code| && bb.code[|bb.code| - |emitted|..] == emitted
      modifies this`bb, this`base
      ensures this.bb == bb && Ready()
    {
      this.bb := bb;
      base := bb.code[..|bb.code| - |emitted|];
      assert bb.code == base + emitted;
    }

    /** The terminator of the current guest instruction. */
    method EmitTerm(op: Op<BasicBlock>)
      requires Ready() && IsTerm(op)
      modifies this`emitted, this`count, bb`code
      ensures Held() && emitted == old(emitted) + [Inst(addr, old(count), op)]
      ensures bb.code == old(bb.code) + [Inst(addr, old(count), op)]
      ensures Out() == old(Out()) + [Inst(addr, old(count), ViewOp(op))]
    {
      var i := Inst(addr, count, op);
      bb.code := bb.code + [i];
      ViewsAppend(emitted, [i]);
      emitted := emitted + [i];
      count := count + 1;
    }

    method Emit(op: Op<BasicBlock>) returns (v: Val)
      requires Ready() && !IsTerm(op)
      modifies this`emitted, this`count, bb`code
      ensures Ready() && v == Tmp(addr, old(count)) && count == old(count) + 1
      ensures Out() == old(Out()) + [Inst(addr, old(count), ViewOp(op))]
    {
      v := Tmp(addr, count);
      var i := Inst(addr, count, op);
      bb.code := bb.code + [i];
      ViewsAppend(emitted, [i]);
      emitted := emitted + [i];
      count := count + 1;
    }

    /** The value of a register; x0 is the constant zero and needs no code. */
    method LoadX(r: Reg) returns (v: Val)
      requires Ready()
      modifies this`emitted, this`count, bb`code
      ensures Ready() && Known(v) && old(count) <= count && Stable(old(Out()), Out())
      ensures forall m, e :: Quiet(old(Out()), m, e) ==> ValOf(Out(), m, e, v) == ReadX(m, r)
    {
      if r == 0 {
        v := Const(0);
      } else {
        ghost var s := Out();
        v := Emit(LoadReg(r));
        AppendValue(s, Inst(addr, count - 1, LoadReg(r)));
      }
    }

    /** An instruction that computes a value. */
    method Compute(op: Op<BasicBlock>) returns (v: Val)
      requires Ready() && IsValueOp(op) && !op.LoadReg?
      modifies this`emitted, this`count, bb`code
      ensures Ready() && Known(v) && old(count) <= count && Stable(old(Out()), Out())
      ensures forall m, e :: Quiet(old(Out()), m, e) ==> ValOf(Out(), m, e, v) == ValueOf(ViewOp(op), m, EnvOf(old(Out()), m, e))
    {
      ghost var s := Out();
      v := Emit(op);
      AppendValue(s, Inst(addr, count - 1, ViewOp(op)));
    }

    /** Write a register; a write to x0 is dropped. */
    method StoreX(v: Val, r: Reg)
      requires Ready() && Known(v)
      modifies this`emitted, this`count, bb`code
      ensures Ready()
      ensures forall m, e :: Quiet(old(Out()), m, e) ==>
                Effect(Out(), m, e, WriteX(m, r, ValOf(old(Out()), m, e, v)))
    {
      ghost var s := Out();
      if r != 0 {
        var _ := Emit(StoreReg(r, v));
        forall m, e | Quiet(s, m, e) ensures Effect(Out(), m, e, WriteX(m, r, ValOf(s, m, e, v))) {
          ExecSnoc(s, Inst(addr, count - 1, StoreReg(r, v)), m, e);
        }
      }
    }
  }

  /** The code `s` runs through and turns the machine `m` into `m'`. */
  ghost predicate Effect(s: seq<Inst<int>>, m: Machine, e: Env, m': Machine) {
    Exec(s, m, e).Fall? && Exec(s, m, e).m == m'
  }

  /** `s` grew into `t`, which keeps quiet and keeps every value computed in `s`. */
  ghost predicate Stable(s: seq<Inst<int>>, t: seq<Inst<int>>) {
    && |s| <= |t|
    && (forall m, e :: Quiet(s, m, e) ==> Quiet(t, m, e))
    && (forall m, e, v: Val :: Quiet(s, m, e) && (v.Tmp? ==> v.idx < |s|) ==> ValOf(t, m, e, v) == ValOf(s, m, e, v))
  }

  lemma AppendAt(s: seq<Inst<int>>, i: Inst<int>, m: Machine, e: Env, v: Val)
    requires Quiet(s, m, e) && i.idx == |s| && IsValueOp(i.op)
    ensures Quiet(s + [i], m, e)
    ensures ValOf(s + [i], m, e, Tmp(i.addr, i.idx)) == ValueOf(i.op, m, EnvOf(s, m, e))
    ensures (v.Tmp? ==> v.idx < |s|) ==> ValOf(s + [i], m, e, v) == ValOf(s, m, e, v)
  {
    hide ValueOf, IsValueOp;
    ExecSnoc(s, i, m, e);
  }

  lemma AppendValue(s: seq<Inst<int>>, i: Inst<int>)
    requires i.idx == |s| && IsValueOp(i.op)
    ensures Stable(s, s + [i])
    ensures forall m, e :: Quiet(s, m, e) ==> ValOf(s + [i], m, e, Tmp(i.addr, i.idx)) == ValueOf(i.op, m, EnvOf(s, m, e))
  {
    hide Quiet, ValOf, ValueOf, EnvOf, IsValueOp;
    forall m, e | Quiet(s, m, e)
      ensures Quiet(s + [i], m, e)
      ensures ValOf(s + [i], m, e, Tmp(i.addr, i.idx)) == ValueOf(i.op, m, EnvOf(s, m, e))
    {
      AppendAt(s, i, m, e, Const(0));
    }
    forall m, e, v: Val | Quiet(s, m, e) && (v.Tmp? ==> v.idx < |s|)
      ensures ValOf(s + [i], m, e, v) == ValOf(s, m, e, v)
    {
      AppendAt(s, i, m, e, v);
    }
  }

  lemma StableTrans(s: seq<Inst<int>>, t: seq<Inst<int>>, u: seq<Inst<int>>)
    requires Stable(s, t) && Stable(t, u)
    ensures Stable(s, u)
  {
  }
}

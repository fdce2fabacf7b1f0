/** Three programs that show what the theorems on local register files need. */
module RegisterLimits {
  import opened Basics
  import opened Guest
  import opened Registers

  const A0: Loc := 10
  const FA0: Loc := 42

  // ---- float registers that are not synchronised ----

  function One(v: seq<Word>, m: nat): (Word, nat) { (1, m) }

  // fa0 := 1; return
  function FloatProg(): Prog<nat> {
    map[0 := [Op(FA0, [], One), Ret]]
  }

  /** Without float synchronisation a function's write to fa0 never reaches the
      global file, so LOCALS mode differs from GLOBALS mode. */
  lemma FloatsNeeded(q: HostProg<nat>, keep: map<int, set<Loc>>, junk: Junk<nat>, s: St<nat>)
    requires Linked(LOCALS, false, keep, FloatProg(), q) && s.r[FA0] == 0
    ensures RunG(FloatProg(), 0, 0, s, 2).Some? && CallL(q, junk, 0, s, 2).Some?
    ensures CallL(q, junk, 0, s, 2) != RunG(FloatProg(), 0, 0, s, 2)
  {
    var body := FloatProg()[0];
    assert Translated(LOCALS, false, keep[0], body, q[0]);
    assert InstrOk(LOCALS, false, keep[0], body[0], q[0].body[0]) && InstrOk(LOCALS, false, keep[0], body[1], q[0].body[1]);
    var l := CopyAll(q[0].start, s.r, junk(0, s, 2));
    var l' := Write(l, FA0, 1);
    CopyAllAt(q[0].body[1].stores, l', s.r);
    assert RunL(q, junk, 0, 1, l', s, 1) == Some(St(CopyAll(q[0].body[1].stores, l', s.r), s.mem));
    assert RunG(FloatProg(), 0, 1, St(Write(s.r, FA0, 1), s.mem), 1) == Some(St(Write(s.r, FA0, 1), s.mem));
  }

  // ---- a local register that is not what it was ----

  predicate IsZero(v: seq<Word>) { |v| == 1 && v[0] == 0 }
  function Zero(v: seq<Word>, m: nat): (Word, nat) { (0, m) }

  // h: if t0 == 0 return; t0 := 0; call h; return
  function LoopProg(): Prog<nat> {
    map[0 := [GInstr.Branch([T0], IsZero, 3), Op(T0, [], Zero), Call(0, 1, 0), Ret]]
  }

  function LoopEnd(s: St<nat>): St<nat> {
    if s.r[T0] == 0 then s else St(Write(Write(s.r, T0, 0), 1, 0), s.mem)
  }

  lemma LoopRun(s: St<nat>)
    ensures RunG(LoopProg(), 0, 0, s, 5) == Some(LoopEnd(s))
  {
    var p := LoopProg();
    assert Reads(s.r, [T0]) == [s.r[T0]];
    if s.r[T0] != 0 {
      var t := St(Write(s.r, T0, 0), s.mem);
      var u := St(Write(t.r, 1, 0), s.mem);
      assert RunG(p, 0, 3, u, 1) == Some(u);
      assert Reads(u.r, [T0]) == [0];
      assert RunG(p, 0, 0, u, 2) == Some(u);
      assert RunG(p, 0, 2, t, 3) == Some(u);
      assert RunG(p, 0, 1, s, 4) == Some(u);
    } else {
      assert RunG(p, 0, 3, s, 4) == Some(s);
    }
  }

  lemma LoopReturns(s: St<nat>, x: St<nat>)
    ensures Returns(LoopProg(), 0, 0, s, x) <==> x == LoopEnd(s)
  {
    LoopRun(s);
    if n: nat :| RunG(LoopProg(), 0, 0, s, n) == Some(x) {
      MoreFuel(LoopProg(), 0, 0, s, n, n + 5);
      MoreFuel(LoopProg(), 0, 0, s, 5, n + 5);
    }
  }

  lemma LoopRest(s: St<nat>, x: St<nat>)
    ensures Returns(LoopProg(), 0, 3, s, x) <==> x == s
  {
    assert RunG(LoopProg(), 0, 3, s, 1) == Some(s);
    if n: nat :| RunG(LoopProg(), 0, 3, s, n) == Some(x) {
      MoreFuel(LoopProg(), 0, 3, s, n, n + 1);
      MoreFuel(LoopProg(), 0, 3, s, 1, n + 1);
    }
  }

  lemma LoopConvention()
    ensures Convention(LoopProg())
  {
    var p := LoopProg();
    hide LoopProg, Returns;
    forall f, s, t, x | f in p ensures ArgsOnly(p, f, s, t, x) {
      LoopOnly();
      LoopReturns(s, x);
      LoopReturns(t, LoopEnd(t));
    }
    forall f, s, x | f in p ensures Saves(p, f, s, x) {
      LoopOnly();
      LoopReturns(s, x);
    }
    forall f, pc: nat, s, t, x | CallAt(p, f, pc) ensures ReadsBack(p, f, pc, s, t, x) {
      LoopOnly();
      LoopRest(s, x);
      LoopRest(t, t);
    }
  }

  lemma LoopOnly()
    ensures forall f :: f in LoopProg() ==> f == 0
    ensures forall f, pc: nat :: CallAt(LoopProg(), f, pc) ==> pc == 2
  {
  }

  /** It keeps the convention and returns from every state on one register file; in
      ABI mode, with local files that start out as ones, it never returns.  So under
      the plain convention the results of a call are right when it returns, but that
      it returns needs the convention step by step. */
  lemma {:induction false} LoopDiverges(q: HostProg<nat>, keep: map<int, set<Loc>>, junk: Junk<nat>, s: St<nat>, n: nat)
    requires AbiLinked(keep, LoopProg(), q)
    requires forall f, t, k :: junk(f, t, k)[T0] == 1
    ensures Convention(LoopProg()) && Returns(LoopProg(), 0, 0, s, LoopEnd(s))
    ensures CallL(q, junk, 0, s, n).None?
    decreases n
  {
    LoopConvention();
    LoopReturns(s, LoopEnd(s));
    hide Convention, Returns, LoopEnd;
    var body := LoopProg()[0];
    assert Translated(ABI, true, keep[0], body, q[0]);
    assert forall pc :: 0 <= pc < 4 ==> InstrOk(ABI, true, keep[0], body[pc], q[0].body[pc]);
    var l := CopyAll(q[0].start, s.r, junk(0, s, n));
    CopyAllAt(q[0].start, s.r, junk(0, s, n));
    assert Reads(l, [T0]) == [l[T0]];
    assert l[T0] == 1;
    if n >= 3 {
      var h := q[0].body[2];
      var l1 := Write(Write(l, T0, 0), 1, 0);
      LoopDiverges(q, keep, junk, St(CopyAll(h.stores, l1, s.r), s.mem), n - 3);
      assert RunL(q, junk, 0, 2, Write(l, T0, 0), s, n - 2).None?;
      assert RunL(q, junk, 0, 1, l, s, n - 1).None?;
    }
  }

  // ---- a function with calls that does not touch sp ----

  function Flip(w: Word): Word { w ^ 16 }
  function Down(v: seq<Word>, m: nat): (Word, nat) { (if |v| == 1 then Flip(v[0]) else 0, m) }
  function Copy(v: seq<Word>, m: nat): (Word, nat) { (if |v| == 1 then v[0] else 0, m) }

  // f: call h; call k; return     h: move sp; call z; move sp back; return
  // k: a0 := sp; return           z: return
  function StackProg(): Prog<nat> {
    map[0 := [Call(1, 1, 0), Call(2, 1, 0), Ret],
        1 := [Op(SP, [SP], Down), Call(3, 1, 0), Op(SP, [SP], Down), Ret],
        2 := [Op(A0, [SP], Copy), Ret],
        3 := [Ret]]
  }

  ghost predicate StackLinked(keep: map<int, set<Loc>>, q: HostProg<nat>) {
    && Linked(ABI, true, keep, StackProg(), q)
    && keep[0] == {1} && keep[1] == {1, SP} && keep[2] == {A0, SP} && keep[3] == {}
  }

  lemma FlipTwice(w: Word)
    ensures Flip(Flip(w)) == w && Flip(w) != w
  {
  }

  predicate StackPoint(f: int, pc: nat) {
    (f == 0 && pc <= 2) || (f == 1 && (pc == 0 || pc == 2)) || (2 <= f <= 3 && pc == 0)
  }

  // Where a run of each function, from its start or from behind a call, ends and
  // how many levels it needs.
  function StackRest(f: int, pc: nat, s: St<nat>): (St<nat>, nat)
    requires StackPoint(f, pc)
  {
    var back := Write(s.r, 1, 0);
    if (f == 0 && pc == 2) || f == 3 then (s, 1)
    else if f == 0 then (St(back[A0 := s.r[SP]], s.mem), if pc == 0 then 5 else 3)
    else if f == 1 then (if pc == 0 then (St(back, s.mem), 4) else (St(s.r[SP := Flip(s.r[SP])], s.mem), 2))
    else (St(s.r[A0 := s.r[SP]], s.mem), 2)
  }

  ghost predicate StackAt(f: int, pc: nat, s: St<nat>, n: nat)
    requires StackPoint(f, pc)
  {
    var (x, need) := StackRest(f, pc, s);
    RunG(StackProg(), f, pc, s, n) == if n < need then None else Some(x)
  }

  lemma StackLeaf(s: St<nat>, n: nat)
    ensures StackAt(0, 2, s, n) && StackAt(3, 0, s, n) && StackAt(2, 0, s, n) && StackAt(1, 2, s, n)
  {
    assert Reads(s.r, [SP]) == [s.r[SP]];
    if n > 0 {
      assert RunG(StackProg(), 2, 1, St(s.r[A0 := s.r[SP]], s.mem), n - 1) == if n == 1 then None else Some(St(s.r[A0 := s.r[SP]], s.mem));
      assert RunG(StackProg(), 1, 3, St(s.r[SP := Flip(s.r[SP])], s.mem), n - 1) == if n == 1 then None else Some(St(s.r[SP := Flip(s.r[SP])], s.mem));
    }
  }

  lemma StackCalls(s: St<nat>, n: nat)
    ensures StackAt(1, 0, s, n) && StackAt(0, 1, s, n) && StackAt(0, 0, s, n)
  {
    hide Flip;
    StackH(s, n);
    StackF(s, n);
    if n > 0 {
      var t := St(Write(s.r, 1, 0), s.mem);
      StackH(t, n - 1);
      StackF(t, n - 1);
      assert Write(t.r, 1, 0) == t.r;
    }
  }

  lemma StackH(s: St<nat>, n: nat)
    ensures StackAt(1, 0, s, n)
  {
    var p := StackProg();
    assert Reads(s.r, [SP]) == [s.r[SP]];
    var t := St(s.r[SP := Flip(s.r[SP])], s.mem);
    var u := St(Write(t.r, 1, 0), s.mem);
    FlipTwice(s.r[SP]);
    assert u.r[SP := Flip(u.r[SP])] == Write(s.r, 1, 0);
    if n >= 2 {
      StackLeaf(u, n - 2);
      assert RunG(p, 1, 1, t, n - 1) == if n < 4 then None else Some(St(Write(s.r, 1, 0), s.mem));
    }
  }

  lemma StackF(s: St<nat>, n: nat)
    ensures StackAt(0, 1, s, n)
  {
    var t := St(Write(s.r, 1, 0), s.mem);
    if n >= 1 {
      StackLeaf(t, n - 1);
      StackLeaf(St(t.r[A0 := t.r[SP]], s.mem), n - 1);
    }
  }

  lemma StackConvention()
    ensures StepConvention(StackProg())
  {
    var p := StackProg();
    hide StackProg, RunG, Flip;
    forall f, s, t, n | f in p ensures LArgsOnly(p, f, s, t, n) {
      StackNames();
      StackLeaf(s, n); StackLeaf(t, n); StackCalls(s, n); StackCalls(t, n);
    }
    forall f, s, x | f in p ensures Saves(p, f, s, x) {
      StackNames();
      if n: nat :| RunG(p, f, 0, s, n) == Some(x) { StackLeaf(s, n); StackCalls(s, n); }
    }
    forall f, pc: nat, s, t, n | CallAt(p, f, pc) ensures LReadsBack(p, f, pc, s, t, n) {
      StackNames();
      StackLeaf(s, n); StackLeaf(t, n); StackCalls(s, n); StackCalls(t, n);
    }
  }

  lemma StackNames()
    ensures forall f :: f in StackProg() ==> 0 <= f <= 3
    ensures forall f, pc: nat :: CallAt(StackProg(), f, pc) ==> (f == 0 && pc <= 1) || (f == 1 && pc == 1)
  {
  }

  // The host code: z changes nothing, k returns the global sp in a0, h leaves the
  // moved sp in the global file.
  lemma HostZ(q: HostProg<nat>, keep: map<int, set<Loc>>, junk: Junk<nat>, s: St<nat>, n: nat)
    requires StackLinked(keep, q) && n >= 1
    ensures CallL(q, junk, 3, s, n) == Some(s)
  {
    var body := StackProg()[3];
    assert Translated(ABI, true, keep[3], body, q[3]) && InstrOk(ABI, true, keep[3], body[0], q[3].body[0]);
    assert q[3].start == [] by { EmptyList(q[3].start); }
    assert q[3].body[0].stores == [] by { EmptyList(q[3].body[0].stores); }
  }

  lemma FirstIn(s: seq<Loc>)
    requires s != []
    ensures exists k :: k in s
  {
    assert s[0] in s;
  }

  lemma EmptyList(s: seq<Loc>)
    requires forall k: Loc :: k !in s
    ensures s == []
  {
    if s != [] { FirstIn(s); }
  }

  lemma HostK(q: HostProg<nat>, keep: map<int, set<Loc>>, junk: Junk<nat>, s: St<nat>, n: nat)
    requires StackLinked(keep, q) && n >= 2
    ensures CallL(q, junk, 2, s, n).Some? && CallL(q, junk, 2, s, n).value.r[A0] == s.r[SP]
  {
    var body := StackProg()[2];
    assert Translated(ABI, true, keep[2], body, q[2]);
    assert InstrOk(ABI, true, keep[2], body[0], q[2].body[0]) && InstrOk(ABI, true, keep[2], body[1], q[2].body[1]);
    var l := CopyAll(q[2].start, s.r, junk(2, s, n));
    CopyAllAt(q[2].start, s.r, junk(2, s, n));
    assert SP in q[2].start;
    assert Reads(l, [SP]) == [s.r[SP]];
    var l' := Write(l, A0, s.r[SP]);
    CopyAllAt(q[2].body[1].stores, l', s.r);
    assert A0 in q[2].body[1].stores;
    assert RunL(q, junk, 2, 1, l', s, n - 1) == Some(St(CopyAll(q[2].body[1].stores, l', s.r), s.mem));
  }

  // The host code of h and of f.
  lemma CodeOfH(q: HostProg<nat>, keep: map<int, set<Loc>>)
    requires StackLinked(keep, q)
    ensures 1 in q && 3 in q && |q[1].body| == 4 && SP in q[1].start
    ensures q[1].body[0] == HOp(SP, [SP], Down) && q[1].body[2] == HOp(SP, [SP], Down) && q[1].body[3] == HRet([])
    ensures var h := q[1].body[1]; h.HCall? && h.callee == 3 && h.link == 1 && h.back == 0 && SP in h.stores && h.loads == []
  {
    var body := StackProg()[1];
    assert Translated(ABI, true, keep[1], body, q[1]);
    assert forall pc :: 0 <= pc < 4 ==> InstrOk(ABI, true, keep[1], body[pc], q[1].body[pc]);
    EmptyList(q[1].body[1].loads);
    EmptyList(q[1].body[3].stores);
  }

  lemma CodeOfF(q: HostProg<nat>, keep: map<int, set<Loc>>)
    requires StackLinked(keep, q)
    ensures 0 in q && 1 in q && 2 in q && |q[0].body| == 3 && q[0].body[2] == HRet([])
    ensures forall pc :: 0 <= pc < 2 ==>
              var h := q[0].body[pc];
              h.HCall? && h.callee == pc + 1 && h.link == 1 && h.back == 0 && SP !in h.stores && A0 !in h.stores
  {
    var body := StackProg()[0];
    assert Translated(ABI, true, keep[0], body, q[0]);
    assert forall pc :: 0 <= pc < 3 ==> InstrOk(ABI, true, keep[0], body[pc], q[0].body[pc]);
    EmptyList(q[0].body[2].stores);
  }

  lemma HostH(q: HostProg<nat>, keep: map<int, set<Loc>>, junk: Junk<nat>, s: St<nat>)
    requires StackLinked(keep, q)
    ensures CallL(q, junk, 1, s, 4).Some? && CallL(q, junk, 1, s, 4).value.r[SP] == Flip(s.r[SP])
  {
    hide Flip, Linked;
    CodeOfH(q, keep);
    var j, h := junk(1, s, 4), q[1].body[1];
    var l := CopyAll(q[1].start, s.r, j);
    CopyAllAt(q[1].start, s.r, j);
    assert Reads(l, [SP]) == [s.r[SP]];
    var l1 := Write(l, SP, Flip(s.r[SP]));
    var l2 := Write(l1, 1, 0);
    var t := St(CopyAll(h.stores, l2, s.r), s.mem);
    CopyAllAt(h.stores, l2, s.r);
    HostZ(q, keep, junk, t, 2);
    var l3 := Write(l2, SP, Flip(l2[SP]));
    assert Reads(l2, [SP]) == [l2[SP]];
    assert RunL(q, junk, 1, 3, l3, t, 1) == Some(t);
    assert RunL(q, junk, 1, 2, l2, t, 2) == Some(t);
    assert RunL(q, junk, 1, 1, l1, s, 3) == Some(t);
  }

  lemma HostF(q: HostProg<nat>, keep: map<int, set<Loc>>, junk: Junk<nat>, s: St<nat>)
    requires StackLinked(keep, q)
    ensures CallL(q, junk, 0, s, 5).Some? && CallL(q, junk, 0, s, 5).value.r[A0] == Flip(s.r[SP])
  {
    hide Flip, StackLinked;
    CodeOfF(q, keep);
    var h, k := q[0].body[0], q[0].body[1];
    var l := CopyAll(q[0].start, s.r, junk(0, s, 5));
    var l1 := Write(l, 1, 0);
    var t := St(CopyAll(h.stores, l1, s.r), s.mem);
    CopyAllAt(h.stores, l1, s.r);
    HostH(q, keep, junk, t);
    var u := CallL(q, junk, 1, t, 4).value;
    var m1 := CopyAll(h.loads, u.r, l1);
    var l2 := Write(m1, 1, 0);
    var v := St(CopyAll(k.stores, l2, u.r), u.mem);
    CopyAllAt(k.stores, l2, u.r);
    HostK(q, keep, junk, v, 3);
    var w := CallL(q, junk, 2, v, 3).value;
    hide CallL, CopyAll;
    assert RunL(q, junk, 0, 2, CopyAll(k.loads, w.r, l2), w, 3) == Some(w) by { ReturnBare(q, junk, 0, 2, CopyAll(k.loads, w.r, l2), w, 3); }
    assert RunL(q, junk, 0, 1, m1, u, 4) == Some(w);
    assert RunL(q, junk, 0, 0, l, s, 5) == Some(w);
    EnterF(q, junk, s);
  }

  lemma ReturnBare(q: HostProg<nat>, junk: Junk<nat>, f: int, pc: nat, l: File, s: St<nat>, n: nat)
    requires f in q && pc < |q[f].body| && q[f].body[pc] == HRet([]) && n > 0
    ensures RunL(q, junk, f, pc, l, s, n) == Some(s)
  {
  }

  lemma EnterF(q: HostProg<nat>, junk: Junk<nat>, s: St<nat>)
    requires 0 in q
    ensures CallL(q, junk, 0, s, 5) == RunL(q, junk, 0, 0, CopyAll(q[0].start, s.r, junk(0, s, 5)), s, 5)
  {
  }

  /** The program keeps the convention step by step.  Once the sync code of untouched
      registers is removed, f hands the sp that h left behind to k, and ABI mode
      returns another a0 than GLOBALS mode, whatever sp was. */
  lemma SpNeeded(q: HostProg<nat>, keep: map<int, set<Loc>>, junk: Junk<nat>, s: St<nat>)
    requires StackLinked(keep, q)
    ensures StepConvention(StackProg())
    ensures RunG(StackProg(), 0, 0, s, 5).Some? && CallL(q, junk, 0, s, 5).Some?
    ensures !SameRets(CallL(q, junk, 0, s, 5).value, RunG(StackProg(), 0, 0, s, 5).value)
  {
    StackConvention();
    hide StepConvention, Flip, RunG, CallL;
    StackCalls(s, 5);
    FlipTwice(s.r[SP]);
    HostF(q, keep, junk, s);
    assert IsRet(A0);
  }
}

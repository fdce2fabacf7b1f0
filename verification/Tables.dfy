/** Runs that go on through jump tables: a computed jump whose target is the address of a
    label continues at that label, in the guest and in the translated function. */
module Tables {
  import opened Basics
  import opened Guest
  import opened Host
  import opened BlockGraph

  // The labels whose addresses the program's tables hold, by the address that stands for each.
  type Labels = map<Addr, int>

  predicate Odd(w: Word) { ClearBit0(w) != w }

  /** Every label is a block, and its address has the lowest bit clear. */
  ghost predicate LabelsOk(labels: Labels, keys: set<int>) {
    forall w :: Addr(w) in labels ==> labels[Addr(w)] in keys && !Odd(w)
  }

  /** A guest run with at most `j` jumps to labels and at most `n` instructions between two
      of them; None when it has not ended by then. A computed jump goes to its sum with the
      lowest bit cleared. */
  function Through(code: map<int, Instr>, labels: Labels, pc: int, m: Machine, n: nat, j: nat): Option<End>
    decreases j
  {
    match Run(code, pc, m, n)
    case Some(Left(w, m')) =>
      var t := ClearBit0(w);
      if Addr(t) !in labels then Some(Left(t, m'))
      else if j == 0 then None
      else Through(code, labels, labels[Addr(t)], m', n, j - 1)
    case r => r
  }

  /** The same for the host, whose block addresses the words stand for, and which jumps to
      the sum as it is; whatever values the temporaries have after a jump. */
  function HostThrough(g: map<int, seq<Inst<int>>>, labels: Labels, k: int, m: Machine, es: nat -> Env, n: nat, j: nat): Option<End>
    decreases j
  {
    match RunBlocks(g, k, m, es(j), n)
    case Some(Left(w, m')) =>
      if Addr(w) !in labels then Some(Left(w, m'))
      else if j == 0 then None
      else HostThrough(g, labels, labels[Addr(w)], m', es, n, j - 1)
    case r => r
  }

  /** A computed jump on the guest's way adds up to an odd sum. */
  ghost predicate OddSum(code: map<int, Instr>, labels: Labels, pc: int, m: Machine, n: nat, j: nat)
    decreases j
  {
    match Run(code, pc, m, n)
    case Some(Left(w, m')) => Odd(w) || (Addr(w) in labels && j > 0 && OddSum(code, labels, labels[Addr(w)], m', n, j - 1))
    case _ => false
  }

  predicate OddEnd(r: End) { r.Left? && Odd(r.target) }

  // ---- more steps do not change a run that has ended ----

  lemma {:induction false} RunMore(code: map<int, Instr>, pc: int, m: Machine, n: nat, n': nat)
    requires n <= n' && Run(code, pc, m, n).Some?
    ensures Run(code, pc, m, n') == Run(code, pc, m, n)
    decreases n
  {
    hide Step;
    match Step(code[pc], pc, m)
    case Next(pc', m') => RunMore(code, pc', m', n - 1, n' - 1);
    case _ =>
  }

  lemma {:induction false} ThroughMore(code: map<int, Instr>, labels: Labels, pc: int, m: Machine, n: nat, n': nat, j: nat)
    requires n <= n' && Through(code, labels, pc, m, n, j).Some?
    ensures Through(code, labels, pc, m, n', j) == Through(code, labels, pc, m, n, j)
    decreases j
  {
    hide Run, ClearBit0;
    RunMore(code, pc, m, n, n');
    match Run(code, pc, m, n)
    case Some(Left(w, m')) =>
      var t := ClearBit0(w);
      if Addr(t) in labels { ThroughMore(code, labels, labels[Addr(t)], m', n, n', j - 1); }
    case _ =>
  }

  lemma {:induction false} OddMore(code: map<int, Instr>, labels: Labels, pc: int, m: Machine, n: nat, n': nat, j: nat)
    requires n <= n' && OddSum(code, labels, pc, m, n, j)
    ensures OddSum(code, labels, pc, m, n', j)
    decreases j
  {
    hide Run, Odd;
    RunMore(code, pc, m, n, n');
    match Run(code, pc, m, n)
    case Some(Left(w, m')) =>
      if !Odd(w) { OddMore(code, labels, labels[Addr(w)], m', n, n', j - 1); }
    case _ =>
  }

  lemma ClearedIsEven(w: Word)
    ensures !Odd(ClearBit0(w)) && (!Odd(w) ==> ClearBit0(w) == w)
  {
  }

  // The guest never leaves for an odd address.
  lemma {:induction false} ThroughEven(code: map<int, Instr>, labels: Labels, pc: int, m: Machine, n: nat, j: nat)
    requires Through(code, labels, pc, m, n, j).Some?
    ensures !OddEnd(Through(code, labels, pc, m, n, j).value)
    decreases j
  {
    hide Run, ClearBit0, Odd;
    match Run(code, pc, m, n)
    case Some(Left(w, m')) =>
      var t := ClearBit0(w);
      ClearedIsEven(w);
      if Addr(t) in labels { ThroughEven(code, labels, labels[Addr(t)], m', n, j - 1); }
    case _ =>
  }

  // ---- the two runs ----

  /** Without an odd sum on the way, the host's run through the tables is the guest's. */
  lemma {:induction false} HostThroughTables(fn: Fn, g: Graph, ch: Chunks, labels: Labels, k: int, m: Machine, es: nat -> Env, n: nat, j: nat)
    requires Finished(fn, g, ch) && k in g && LabelsOk(labels, g.Keys)
    requires Through(fn.code, labels, k, m, n, j).Some? && !OddSum(fn.code, labels, k, m, n, j)
    ensures HostThrough(Code(g), labels, k, m, es, n, j) == Through(fn.code, labels, k, m, n, j)
    decreases j
  {
    hide Run, RunBlocks, Finished, ClearBit0, Odd;
    HostFollowsGuest(fn, g, ch, k, m, es(j), n);
    match Run(fn.code, k, m, n)
    case Some(Left(w, m')) =>
      ClearedIsEven(w);
      if Addr(w) in labels { HostThroughTables(fn, g, ch, labels, labels[Addr(w)], m', es, n, j - 1); }
    case _ =>
  }

  /** With one, the host ends at an odd address. */
  lemma {:induction false} HostStrays(fn: Fn, g: Graph, ch: Chunks, labels: Labels, k: int, m: Machine, es: nat -> Env, n: nat, j: nat)
    requires Finished(fn, g, ch) && k in g && LabelsOk(labels, g.Keys) && OddSum(fn.code, labels, k, m, n, j)
    ensures var h := HostThrough(Code(g), labels, k, m, es, n, j); h.Some? && OddEnd(h.value)
    decreases j
  {
    hide Run, RunBlocks, Finished, Odd;
    HostFollowsGuest(fn, g, ch, k, m, es(j), n);
    match Run(fn.code, k, m, n)
    case Some(Left(w, m')) =>
      if !Odd(w) { HostStrays(fn, g, ch, labels, labels[Addr(w)], m', es, n, j - 1); }
    case _ =>
  }

  /** When the host's run through the tables ends, the guest's ends in the same way, or had
      an odd sum on its way. */
  lemma {:induction false} GuestThroughTables(fn: Fn, g: Graph, ch: Chunks, labels: Labels, k: int, m: Machine, es: nat -> Env, n: nat, j: nat) returns (steps: nat)
    requires Finished(fn, g, ch) && k in g && LabelsOk(labels, g.Keys) && HostThrough(Code(g), labels, k, m, es, n, j).Some?
    ensures OddSum(fn.code, labels, k, m, steps, j) || Through(fn.code, labels, k, m, steps, j) == HostThrough(Code(g), labels, k, m, es, n, j)
    decreases j
  {
    hide Run, RunBlocks, Finished, ClearBit0, Odd;
    steps := GuestFollowsHost(fn, g, ch, k, m, es(j), n);
    match RunBlocks(Code(g), k, m, es(j), n)
    case Some(Left(w, m')) =>
      ClearedIsEven(w);
      if Addr(w) in labels {
        var rest := GuestThroughTables(fn, g, ch, labels, labels[Addr(w)], m', es, n, j - 1);
        steps := Longer(fn.code, labels, k, m, w, m', steps, rest, j);
      }
    case _ =>
  }

  // So many instructions between two jumps that both parts of the run are over.
  lemma Longer(code: map<int, Instr>, labels: Labels, pc: int, m: Machine, w: Word, m': Machine, steps: nat, rest: nat, j: nat) returns (more: nat)
    requires Run(code, pc, m, steps) == Some(Left(w, m')) && Addr(w) in labels && j > 0
    ensures Run(code, pc, m, more) == Some(Left(w, m'))
    ensures OddSum(code, labels, labels[Addr(w)], m', rest, j - 1) ==> OddSum(code, labels, labels[Addr(w)], m', more, j - 1)
    ensures var t := Through(code, labels, labels[Addr(w)], m', rest, j - 1);
            t.Some? ==> Through(code, labels, labels[Addr(w)], m', more, j - 1) == t
  {
    hide Run, Through, OddSum;
    more := if rest < steps then steps else rest;
    RunMore(code, pc, m, steps, more);
    if OddSum(code, labels, labels[Addr(w)], m', rest, j - 1) { OddMore(code, labels, labels[Addr(w)], m', rest, more, j - 1); }
    if Through(code, labels, labels[Addr(w)], m', rest, j - 1).Some? { ThroughMore(code, labels, labels[Addr(w)], m', rest, more, j - 1); }
  }

  ghost predicate GuestEnds(code: map<int, Instr>, labels: Labels, pc: int, m: Machine, r: End) {
    exists n, j :: Through(code, labels, pc, m, n, j) == Some(r)
  }

  ghost predicate HostEnds(g: map<int, seq<Inst<int>>>, labels: Labels, k: int, m: Machine, es: nat -> Env, r: End) {
    exists n, j :: HostThrough(g, labels, k, m, es, n, j) == Some(r)
  }

  /** The guest comes to a computed jump with an odd sum. */
  ghost predicate OddJump(code: map<int, Instr>, labels: Labels, pc: int, m: Machine) {
    exists n, j :: OddSum(code, labels, pc, m, n, j)
  }

  lemma OneResult(fn: Fn, g: Graph, ch: Chunks, labels: Labels, k: int, m: Machine, es: nat -> Env, r: End)
    requires Finished(fn, g, ch) && k in g && LabelsOk(labels, g.Keys) && !OddJump(fn.code, labels, k, m)
    ensures GuestEnds(fn.code, labels, k, m, r) <==> HostEnds(Code(g), labels, k, m, es, r)
  {
    hide Finished, Through, HostThrough, OddSum, LabelsOk;
    if n: nat, j: nat :| Through(fn.code, labels, k, m, n, j) == Some(r) {
      HostThroughTables(fn, g, ch, labels, k, m, es, n, j);
    }
    if n: nat, j: nat :| HostThrough(Code(g), labels, k, m, es, n, j) == Some(r) {
      var steps := GuestThroughTables(fn, g, ch, labels, k, m, es, n, j);
    }
  }

  lemma OddResult(fn: Fn, g: Graph, ch: Chunks, labels: Labels, k: int, m: Machine, es: nat -> Env) returns (h: End)
    requires Finished(fn, g, ch) && k in g && LabelsOk(labels, g.Keys) && OddJump(fn.code, labels, k, m)
    ensures HostEnds(Code(g), labels, k, m, es, h) && OddEnd(h) && !GuestEnds(fn.code, labels, k, m, h)
  {
    hide Finished, Through, HostThrough, OddSum, LabelsOk, OddEnd;
    var n: nat, j: nat :| OddSum(fn.code, labels, k, m, n, j);
    HostStrays(fn, g, ch, labels, k, m, es, n, j);
    h := HostThrough(Code(g), labels, k, m, es, n, j).value;
    if n': nat, j': nat :| Through(fn.code, labels, k, m, n', j') == Some(h) {
      ThroughEven(fn.code, labels, k, m, n', j');
    }
  }

  /** Through any number of table jumps the two runs end in the same ways if and only if the
      guest never comes to a computed jump with an odd sum. When it does, the host ends at an
      odd address. */
  lemma TableSimulation(fn: Fn, g: Graph, ch: Chunks, labels: Labels, k: int, m: Machine, es: nat -> Env)
    requires Finished(fn, g, ch) && k in g && LabelsOk(labels, g.Keys)
    ensures (forall r :: GuestEnds(fn.code, labels, k, m, r) <==> HostEnds(Code(g), labels, k, m, es, r))
            <==> !OddJump(fn.code, labels, k, m)
    ensures OddJump(fn.code, labels, k, m) ==> exists h :: HostEnds(Code(g), labels, k, m, es, h) && OddEnd(h)
  {
    hide Finished, GuestEnds, HostEnds, OddJump, LabelsOk;
    if OddJump(fn.code, labels, k, m) {
      var h := OddResult(fn, g, ch, labels, k, m, es);
    } else {
      forall r {
        OneResult(fn, g, ch, labels, k, m, es, r);
      }
    }
  }

  // ---- a program on which they differ ----

  // One jump to what register 5 holds, which is 1.
  const FIVE := Fn(map[0 := JumpReg(5, 0)], 0, 4)
  const ONE := Machine(map[5 := 1], map[])
  const FIVE_CODE: seq<Inst<int>> := [Inst(0, 0, LoadReg(5)), Inst(0, 1, IndirectBr(Tmp(0, 0)))]
  const FIVE_CHUNKS: Chunks := map[0 := FIVE_CODE]
  const FIVE_GRAPH: Graph := map[0 := VBlock(FIVE_CODE, [First(0, 0, 0)])]

  lemma FiveAgrees(m: Machine, e: Env)
    ensures Agrees(true, Step(JumpReg(5, 0), 0, m), Exec(FIVE_CODE, m, e))
  {
    hide ReadX, AddWord;
    var i0, i1 := FIVE_CODE[0], FIVE_CODE[1];
    ExecSnoc([], i0, m, e);
    ExecSnoc([i0], i1, m, e);
    assert [] + [i0] == [i0] && [i0] + [i1] == FIVE_CODE;
    AddZero(ReadX(m, 5));
  }

  lemma FiveImplements()
    ensures Implements(0, JumpReg(5, 0), FIVE_CODE)
  {
    hide Agrees, Step, Exec;
    forall m, e
      ensures Agrees(true, Step(JumpReg(5, 0), 0, m), Exec(FIVE_CODE, m, e))
    {
      FiveAgrees(m, e);
    }
  }

  lemma FiveFinished()
    ensures Finished(FIVE, FIVE_GRAPH, FIVE_CHUNKS)
  {
    FiveImplements();
    hide Implements;
    NextUnique({0}, 0, 4, 4);
    assert FIVE_GRAPH.Keys == {0};
    assert forall a :: InFn(FIVE, a) ==> a == 0;
    assert Cat(FIVE_CHUNKS, 0, 0) == [] && FirstsOf(0, 0) == [];
    assert Complete(FIVE, FIVE_GRAPH, FIVE_CHUNKS, 0);
  }

  lemma FiveRun(n: nat)
    ensures Run(FIVE.code, 0, ONE, n) == if n == 0 then None else Some(Left(1, ONE))
    ensures Odd(1) && ClearBit0(1) == 0
  {
    assert AddWord(1, 0) == 1;
  }

  // Whatever the host's run ends with, it is the odd address.
  lemma FiveHost(es: nat -> Env, n: nat, j: nat)
    ensures HostThrough(Code(FIVE_GRAPH), map[], 0, ONE, es, n, j) in {None, Some(Left(1, ONE))}
    ensures n > 0 ==> HostThrough(Code(FIVE_GRAPH), map[], 0, ONE, es, n, j).Some?
  {
    hide Run, RunBlocks, Finished;
    FiveFinished();
    FiveRun(n);
    if n > 0 { HostFollowsGuest(FIVE, FIVE_GRAPH, FIVE_CHUNKS, 0, ONE, es(j), n); }
    if RunBlocks(Code(FIVE_GRAPH), 0, ONE, es(j), n).Some? {
      var steps := GuestFollowsHost(FIVE, FIVE_GRAPH, FIVE_CHUNKS, 0, ONE, es(j), n);
      FiveRun(steps);
    }
  }

  /** The guest leaves for address 0, the finished host function for address 1. */
  lemma OddDiffers(es: nat -> Env)
    ensures Finished(FIVE, FIVE_GRAPH, FIVE_CHUNKS) && OddJump(FIVE.code, map[], 0, ONE)
    ensures GuestEnds(FIVE.code, map[], 0, ONE, Left(0, ONE)) && !HostEnds(Code(FIVE_GRAPH), map[], 0, ONE, es, Left(0, ONE))
    ensures HostEnds(Code(FIVE_GRAPH), map[], 0, ONE, es, Left(1, ONE))
  {
    hide Run, HostThrough, Finished;
    FiveFinished();
    FiveRun(1);
    assert OddSum(FIVE.code, map[], 0, ONE, 1, 0);
    assert Through(FIVE.code, map[], 0, ONE, 1, 0) == Some(Left(0, ONE));
    FiveHost(es, 1, 0);
    forall n: nat, j: nat
      ensures HostThrough(Code(FIVE_GRAPH), map[], 0, ONE, es, n, j) != Some(Left(0, ONE))
    {
      FiveHost(es, n, j);
    }
  }
}

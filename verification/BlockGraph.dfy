/** What the block graph of a translated function must look like, while it is
    being built and when it is finished, and what a finished graph computes. */
module BlockGraph {
  import opened Basics
  import opened Guest
  import opened Host

  // A guest function: its instructions and its address range.
  datatype Fn = Fn(code: map<int, Instr>, st: int, end: int)

  // The record a block keeps of where the code of a guest instruction starts.
  datatype First = First(addr: int, idAddr: int, idIdx: int)
  datatype VBlock = VBlock(code: seq<Inst<int>>, firsts: seq<First>)

  type Graph = map<int, VBlock>
  type Chunks = map<int, seq<Inst<int>>>

  predicate Aligned(a: int) {
    a % 4 == 0
  }

  lemma Gap(a: int, b: int)
    requires a < b && Aligned(a) && Aligned(b)
    ensures a + 4 <= b && Aligned(b - 4)
  {
  }

  predicate InFn(fn: Fn, a: int) {
    fn.st <= a < fn.end && Aligned(a)
  }

  predicate HasTarget(i: Instr) {
    i.Branch? || i.Jump?
  }

  ghost predicate GoodInstr(fn: Fn, a: int) {
    && a in fn.code
    && (HasTarget(fn.code[a]) ==> InFn(fn, Target(a, fn.code[a].off)) && Target(a, fn.code[a].off) != a)
    && (fn.code[a].JumpReg? ==> fn.code[a].rs1 != 0)
  }

  /** What the translator demands of a function it is given: one instruction at
      every word, targets inside the function, no jump to itself, no register jump
      through x0. */
  ghost predicate Translatable(fn: Fn) {
    && 0 <= fn.st < fn.end <= XLEN_MOD && Aligned(fn.st) && Aligned(fn.end)
    && (forall a {:trigger GoodInstr(fn, a)} :: InFn(fn, a) ==> GoodInstr(fn, a))
  }

  predicate ControlAt(fn: Fn, a: int) {
    a in fn.code && IsControl(fn.code[a])
  }

  /** The last instruction does not run on past the end of the function. */
  predicate Closed(fn: Fn) {
    4 <= fn.end && fn.end - 4 in fn.code && (fn.code[fn.end - 4].Jump? || fn.code[fn.end - 4].JumpReg?)
  }

  // ---- block boundaries ----

  /** `n` is the first block start after `a`, or `end` when there is none before it. */
  ghost predicate IsNext(keys: set<int>, a: int, end: int, n: int) {
    && a < n <= end
    && (n in keys || n == end)
    && (forall k :: k in keys ==> !(a < k < n))
  }

  ghost function NextStart(keys: set<int>, a: int, end: int): (n: int)
    requires a < end
    ensures IsNext(keys, a, end, n)
    decreases end - a
  {
    if a + 1 == end || a + 1 in keys then a + 1 else NextStart(keys, a + 1, end)
  }

  lemma NextUnique(keys: set<int>, a: int, end: int, n: int)
    requires a < end && IsNext(keys, a, end, n)
    ensures NextStart(keys, a, end) == n
  {
  }

  // A new block beyond another one does not change where earlier blocks end.
  lemma NextBelow(keys: set<int>, k: int, c: int, t: int, end: int)
    requires k < c <= t && c in keys && c <= end
    ensures k < end && NextStart(keys + {t}, k, end) == NextStart(keys, k, end) <= c
  {
    NextUnique(keys + {t}, k, end, NextStart(keys, k, end));
  }

  lemma NextAbove(keys: set<int>, k: int, t: int, end: int)
    requires t <= k < end
    ensures NextStart(keys + {t}, k, end) == NextStart(keys, k, end)
  {
    NextUnique(keys + {t}, k, end, NextStart(keys, k, end));
  }

  lemma NextSplit(keys: set<int>, k: int, t: int, end: int)
    requires k < end && k < t < NextStart(keys, k, end)
    ensures NextStart(keys + {t}, k, end) == t
    ensures t < end && NextStart(keys + {t}, t, end) == NextStart(keys, k, end)
  {
    NextUnique(keys + {t}, k, end, t);
    NextUnique(keys + {t}, t, end, NextStart(keys, k, end));
  }

  // ---- contents of a block ----

  function ChunkAt(ch: Chunks, a: int): seq<Inst<int>> {
    if a in ch then ch[a] else []
  }

  /** The code of the guest instructions from `a` up to `b`. */
  function Cat(ch: Chunks, a: int, b: int): seq<Inst<int>>
    decreases b - a
  {
    if b < a + 4 then [] else Cat(ch, a, b - 4) + ChunkAt(ch, b - 4)
  }

  /** The instruction map of a block that holds the addresses from `a` up to `b`. */
  function FirstsOf(a: int, b: int): seq<First>
    decreases b - a
  {
    if b < a + 4 then [] else FirstsOf(a, b - 4) + [First(b - 4, b - 4, 0)]
  }

  // How many instructions there are from `a` up to `b`.
  function Count(a: int, b: int): nat
    decreases b - a
  {
    if b < a + 4 then 0 else Count(a, b - 4) + 1
  }

  // The branch that leads from the end of one block into the next, at `n`.
  function FallBr(ch: Chunks, n: int): Inst<int> {
    Inst(n - 4, |ChunkAt(ch, n - 4)|, Br(n))
  }

  /** A complete block that covers the addresses from `k` up to `n`. */
  function FullBlock(fn: Fn, ch: Chunks, k: int, n: int): VBlock {
    VBlock(Cat(ch, k, n) + if ControlAt(fn, n - 4) then [] else [FallBr(ch, n)], FirstsOf(k, n))
  }

  lemma AppendAssoc<T>(x: seq<T>, y: seq<T>, z: seq<T>)
    ensures (x + y) + z == x + (y + z)
  {
  }

  lemma {:induction false} CatSplit(ch: Chunks, a: int, t: int, b: int)
    requires a <= t <= b && Aligned(a) && Aligned(t) && Aligned(b)
    ensures Cat(ch, a, b) == Cat(ch, a, t) + Cat(ch, t, b)
    ensures FirstsOf(a, b) == FirstsOf(a, t) + FirstsOf(t, b)
    ensures Count(a, b) == Count(a, t) + Count(t, b)
    decreases b - t
  {
    hide Aligned;
    if t < b {
      Gap(t, b);
      var c := b - 4;
      CatSplit(ch, a, t, c);
      AppendAssoc(Cat(ch, a, t), Cat(ch, t, c), ChunkAt(ch, c));
      AppendAssoc(FirstsOf(a, t), FirstsOf(t, c), [First(c, c, 0)]);
    }
  }

  /** The chunk of the instruction at `x` is there and right. */
  ghost predicate DoneAt(fn: Fn, ch: Chunks, x: int) {
    x in fn.code && x in ch && Implements(x, fn.code[x], ch[x])
  }

  ghost predicate Done(fn: Fn, ch: Chunks, f: int) {
    forall x {:trigger DoneAt(fn, ch, x)} :: InFn(fn, x) && x < f ==> DoneAt(fn, ch, x)
  }

  // Adding a chunk at or after `b` leaves the code up to `b` alone.
  lemma CatFrame(ch: Chunks, a: int, b: int, x: int, c: seq<Inst<int>>)
    requires b <= x
    ensures Cat(ch[x := c], a, b) == Cat(ch, a, b)
    decreases b - a
  {
    if a + 4 <= b {
      CatFrame(ch, a, b - 4, x, c);
    }
  }

  // The pieces of a chunk carry the address it was emitted for.
  lemma ChunkShape(fn: Fn, ch: Chunks, x: int)
    requires DoneAt(fn, ch, x)
    ensures |ChunkAt(ch, x)| > 0
    ensures forall i :: 0 <= i < |ChunkAt(ch, x)| ==> ChunkAt(ch, x)[i].addr == x && ChunkAt(ch, x)[i].idx == i
  {
  }

  lemma {:induction false} CatAddrs(fn: Fn, ch: Chunks, a: int, b: int)
    requires Done(fn, ch, b) && fn.st <= a <= b <= fn.end && Aligned(a) && Aligned(b)
    ensures forall i :: 0 <= i < |Cat(ch, a, b)| ==> a <= Cat(ch, a, b)[i].addr < b
    ensures |Cat(ch, a, b)| >= Count(a, b)
    decreases b - a
  {
    hide Aligned, DoneAt;
    if a < b {
      Gap(a, b);
      CatAddrs(fn, ch, a, b - 4);
      assert InFn(fn, b - 4);
      ChunkShape(fn, ch, b - 4);
    }
  }

  lemma CatHead(fn: Fn, ch: Chunks, t: int, b: int)
    requires Done(fn, ch, b) && fn.st <= t < b <= fn.end && Aligned(t) && Aligned(b)
    ensures var s := Cat(ch, t, b); |s| > 0 && s[0].addr == t && s[0].idx == 0
  {
    hide DoneAt, Aligned;
    Gap(t, b);
    AlignedStep(t);
    assert InFn(fn, t) && DoneAt(fn, ch, t);
    CatSplit(ch, t, t + 4, b);
    ChunkShape(fn, ch, t);
    assert Cat(ch, t, t) == [];
  }

  /** The first instruction emitted for `t` sits right behind the code before `t`. */
  lemma FirstInst(fn: Fn, ch: Chunks, a: int, t: int, b: int)
    requires Done(fn, ch, b) && fn.st <= a <= t < b <= fn.end
    requires Aligned(a) && Aligned(t) && Aligned(b)
    ensures var s, p := Cat(ch, a, b), |Cat(ch, a, t)|;
            && p < |s| && s[p].addr == t && s[p].idx == 0
            && s[..p] == Cat(ch, a, t) && s[p..] == Cat(ch, t, b)
            && (forall i :: 0 <= i < p ==> s[i].addr != t)
  {
    hide DoneAt, Aligned, Cat, Done;
    CatSplit(ch, a, t, b);
    DoneLess(fn, ch, b, t);
    CatAddrs(fn, ch, a, t);
    CatHead(fn, ch, t, b);
  }

  // ---- the graph under construction ----

  /** The transfer of control at `a` has the blocks it needs, the code up to `f`
      being there. */
  ghost predicate Wired(fn: Fn, keys: set<int>, a: int, f: int) {
    a in fn.code ==>
      && (HasTarget(fn.code[a]) ==> Target(a, fn.code[a].off) in keys)
      && (fn.code[a].Branch? ==> a + 4 in keys)
      && (a + 4 < f && IsControl(fn.code[a]) ==> a + 4 in keys)
  }

  ghost predicate AllWired(fn: Fn, keys: set<int>, f: int) {
    forall a {:trigger Wired(fn, keys, a, f)} :: InFn(fn, a) && a < f ==> Wired(fn, keys, a, f)
  }

  ghost predicate KeyOk(fn: Fn, k: int) {
    fn.st <= k <= fn.end && Aligned(k)
  }

  /** Block `k` is complete: it ends where the next block starts. */
  ghost predicate Complete(fn: Fn, g: Graph, ch: Chunks, k: int)
    requires k in g
  {
    && k < fn.end
    && (var n := NextStart(g.Keys, k, fn.end);
        k + 4 <= n && g[k] == FullBlock(fn, ch, k, n))
  }

  ghost predicate BlocksOk(fn: Fn, g: Graph, ch: Chunks, cur: int, f: int) {
    && (forall k :: k in g && k < cur ==> Complete(fn, g, ch, k))
    && (forall k :: k in g && k != cur && f <= k ==> g[k] == VBlock([], []))
  }

  /** Where the translator stands: the instructions below `f` are done, and the
      block being filled starts at `cur`, with no other block between. */
  ghost predicate Placed(fn: Fn, keys: set<int>, cur: int, f: int) {
    && fn.st <= cur <= f <= fn.end && cur < fn.end && Aligned(cur) && Aligned(f)
    && fn.st in keys && cur in keys
    && (forall k :: k in keys ==> KeyOk(fn, k) && !(cur < k < f))
  }

  /** The invariant of translation; `part` of the instruction at `f` is already in
      the block being filled. */
  ghost predicate Building(fn: Fn, g: Graph, ch: Chunks, cur: int, f: int, part: seq<Inst<int>>) {
    && Translatable(fn)
    && Placed(fn, g.Keys, cur, f)
    && Done(fn, ch, f)
    && AllWired(fn, g.Keys, f)
    && BlocksOk(fn, g, ch, cur, f)
    && g[cur] == VBlock(Cat(ch, cur, f) + part, FirstsOf(cur, f))
  }

  // A transfer of control stays wired when blocks are added.
  lemma WiredGrows(fn: Fn, keys: set<int>, keys': set<int>, f: int)
    requires AllWired(fn, keys, f) && keys <= keys'
    ensures AllWired(fn, keys', f)
  {
    forall a | InFn(fn, a) && a < f ensures Wired(fn, keys', a, f) {
      assert Wired(fn, keys, a, f);
    }
  }

  lemma AddBlock(fn: Fn, g: Graph, ch: Chunks, cur: int, f: int, part: seq<Inst<int>>, t: int)
    requires Building(fn, g, ch, cur, f, part)
    requires t !in g && f <= t <= fn.end && Aligned(t)
    ensures Building(fn, g[t := VBlock([], [])], ch, cur, f, part)
  {
    hide Aligned, Translatable, AllWired, Done, Cat, FirstsOf, FullBlock, NextStart;
    var g' := g[t := VBlock([], [])];
    assert g'.Keys == g.Keys + {t};
    WiredGrows(fn, g.Keys, g'.Keys, f);
    forall k | k in g' && k < cur ensures Complete(fn, g', ch, k) {
      assert Complete(fn, g, ch, k);
      NextBelow(g.Keys, k, cur, t, fn.end);
    }
  }

  /** The two halves of a block that is cut before instruction `p`, entry `q`. */
  function TopHalf(b: VBlock, p: int, q: int, br: Inst<int>): VBlock
    requires 0 <= p <= |b.code| && 0 <= q <= |b.firsts|
  {
    VBlock(b.code[..p] + [br], b.firsts[..q])
  }

  function BottomHalf(b: VBlock, p: int, q: int): VBlock
    requires 0 <= p <= |b.code| && 0 <= q <= |b.firsts|
  {
    VBlock(b.code[p..], b.firsts[q..])
  }

  lemma NoControlInside(fn: Fn, keys: set<int>, cur: int, f: int, t: int)
    requires Placed(fn, keys, cur, f) && AllWired(fn, keys, f) && fn.st <= cur
    requires fn.st < t < f && Aligned(t) && t !in keys && Aligned(fn.st)
    ensures !ControlAt(fn, t - 4)
  {
    Gap(fn.st, t);
    assert InFn(fn, t - 4);
    assert Wired(fn, keys, t - 4, f);
  }

  // Cutting the code of the addresses from `k` up to `n` at `t`.
  lemma HalvesOfCode(fn: Fn, ch: Chunks, k: int, t: int, n: int, rest: seq<Inst<int>>)
    requires k < t < n && Aligned(k) && Aligned(t) && Aligned(n) && !ControlAt(fn, t - 4)
    ensures k + 4 <= t
    ensures var b, p, q := VBlock(Cat(ch, k, n) + rest, FirstsOf(k, n)), |Cat(ch, k, t)|, |FirstsOf(k, t)|;
            && p <= |b.code| && q <= |b.firsts|
            && TopHalf(b, p, q, FallBr(ch, t)) == FullBlock(fn, ch, k, t)
            && BottomHalf(b, p, q) == VBlock(Cat(ch, t, n) + rest, FirstsOf(t, n))
  {
    hide Aligned;
    Gap(k, t);
    CatSplit(ch, k, t, n);
    var b, p, q := VBlock(Cat(ch, k, n) + rest, FirstsOf(k, n)), |Cat(ch, k, t)|, |FirstsOf(k, t)|;
    AppendAssoc(Cat(ch, k, t), Cat(ch, t, n), rest);
    assert b.code[..p] == Cat(ch, k, t);
  }

  /** Splitting the block being filled: filling goes on in the bottom half. */
  lemma SplitCurrent(fn: Fn, g: Graph, ch: Chunks, cur: int, f: int, part: seq<Inst<int>>, t: int)
    requires Building(fn, g, ch, cur, f, part)
    requires cur < t < f && Aligned(t)
    ensures var p, q := |Cat(ch, cur, t)|, |FirstsOf(cur, t)|;
            && p <= |g[cur].code| && q <= |g[cur].firsts|
            && Building(fn, g[cur := TopHalf(g[cur], p, q, FallBr(ch, t))][t := BottomHalf(g[cur], p, q)], ch, t, f, part)
  {
    hide Aligned, AllWired, Done, DoneAt, Cat, FirstsOf, FullBlock, TopHalf, BottomHalf, GoodInstr;
    var p, q := |Cat(ch, cur, t)|, |FirstsOf(cur, t)|;
    NoControlInside(fn, g.Keys, cur, f, t);
    HalvesOfCode(fn, ch, cur, t, f, part);
    var g' := g[cur := TopHalf(g[cur], p, q, FallBr(ch, t))][t := BottomHalf(g[cur], p, q)];
    assert g'.Keys == g.Keys + {t};
    WiredGrows(fn, g.Keys, g'.Keys, f);
    assert Placed(fn, g'.Keys, t, f);
    forall k | k in g' && k < t ensures Complete(fn, g', ch, k) {
      if k == cur {
        NextUnique(g'.Keys, cur, fn.end, t);
      } else {
        assert Complete(fn, g, ch, k);
        NextBelow(g.Keys, k, cur, t, fn.end);
      }
    }
  }

  // After a split of block `k` every block before the current one is still complete.
  lemma SplitComplete(fn: Fn, g: Graph, ch: Chunks, k: int, t: int, j: int)
    requires k in g && k < fn.end && k < t < NextStart(g.Keys, k, fn.end) && k + 4 <= t && t + 4 <= NextStart(g.Keys, k, fn.end)
    requires j in g ==> Complete(fn, g, ch, j)
    requires j in g || j == t
    ensures var g' := g[k := FullBlock(fn, ch, k, t)][t := FullBlock(fn, ch, t, NextStart(g.Keys, k, fn.end))];
            Complete(fn, g', ch, j)
  {
    hide FullBlock;
    var g' := g[k := FullBlock(fn, ch, k, t)][t := FullBlock(fn, ch, t, NextStart(g.Keys, k, fn.end))];
    assert g'.Keys == g.Keys + {t};
    NextSplit(g.Keys, k, t, fn.end);
    if j < k {
      NextBelow(g.Keys, j, k, t, fn.end);
    } else if k < j && j != t {
      NextAbove(g.Keys, j, t, fn.end);
    }
  }

  lemma SplitBlocksOk(fn: Fn, g: Graph, ch: Chunks, cur: int, f: int, k: int, t: int)
    requires BlocksOk(fn, g, ch, cur, f) && cur <= f
    requires k in g && k < cur && k < fn.end && k < t < NextStart(g.Keys, k, fn.end) <= cur
    requires k + 4 <= t && t + 4 <= NextStart(g.Keys, k, fn.end) && t !in g
    ensures BlocksOk(fn, g[k := FullBlock(fn, ch, k, t)][t := FullBlock(fn, ch, t, NextStart(g.Keys, k, fn.end))], ch, cur, f)
  {
    hide FullBlock, NextStart;
    var g' := g[k := FullBlock(fn, ch, k, t)][t := FullBlock(fn, ch, t, NextStart(g.Keys, k, fn.end))];
    forall j | j in g' && j < cur ensures Complete(fn, g', ch, j) {
      if j in g { assert Complete(fn, g, ch, j); }
      SplitComplete(fn, g, ch, k, t, j);
    }
  }

  // The halves of an earlier block, cut at `t`, are complete blocks themselves.
  lemma EarlierHalves(fn: Fn, g: Graph, ch: Chunks, cur: int, f: int, k: int, t: int)
    requires Translatable(fn) && Placed(fn, g.Keys, cur, f) && AllWired(fn, g.Keys, f)
    requires k in g && k < cur && Complete(fn, g, ch, k)
    requires k < t < NextStart(g.Keys, k, fn.end) && Aligned(t)
    ensures k + 4 <= t && t + 4 <= NextStart(g.Keys, k, fn.end) <= cur && t !in g
    ensures var p, q, n := |Cat(ch, k, t)|, |FirstsOf(k, t)|, NextStart(g.Keys, k, fn.end);
            && p <= |g[k].code| && q <= |g[k].firsts|
            && TopHalf(g[k], p, q, FallBr(ch, t)) == FullBlock(fn, ch, k, t)
            && BottomHalf(g[k], p, q) == FullBlock(fn, ch, t, n)
  {
    hide Aligned, AllWired, Cat, FirstsOf, TopHalf, BottomHalf, GoodInstr, NextStart;
    var n := NextStart(g.Keys, k, fn.end);
    assert KeyOk(fn, k);
    assert n <= cur && n in g.Keys && KeyOk(fn, n);
    NoControlInside(fn, g.Keys, cur, f, t);
    HalvesOfCode(fn, ch, k, t, n, if ControlAt(fn, n - 4) then [] else [FallBr(ch, n)]);
    Gap(t, n);
  }

  /** Splitting an earlier block, one that is complete. */
  lemma SplitEarlier(fn: Fn, g: Graph, ch: Chunks, cur: int, f: int, part: seq<Inst<int>>, k: int, t: int)
    requires Building(fn, g, ch, cur, f, part)
    requires k in g && k < cur && k < t < NextStart(g.Keys, k, fn.end) && Aligned(t)
    ensures var p, q := |Cat(ch, k, t)|, |FirstsOf(k, t)|;
            && p <= |g[k].code| && q <= |g[k].firsts|
            && Building(fn, g[k := TopHalf(g[k], p, q, FallBr(ch, t))][t := BottomHalf(g[k], p, q)], ch, cur, f, part)
  {
    hide Aligned, AllWired, Done, DoneAt, Cat, FirstsOf, TopHalf, BottomHalf, GoodInstr, NextStart, FullBlock, ControlAt, FallBr;
    assert Complete(fn, g, ch, k);
    EarlierHalves(fn, g, ch, cur, f, k, t);
    var n := NextStart(g.Keys, k, fn.end);
    SplitBlocksOk(fn, g, ch, cur, f, k, t);
    hide BlocksOk, Complete, Translatable;
    EarlierBuilding(fn, g, ch, cur, f, part, k, t, FullBlock(fn, ch, k, t), FullBlock(fn, ch, t, n));
  }

  // Two blocks below the current one in the place of one.
  lemma EarlierBuilding(fn: Fn, g: Graph, ch: Chunks, cur: int, f: int, part: seq<Inst<int>>, k: int, t: int, top: VBlock, low: VBlock)
    requires Building(fn, g, ch, cur, f, part) && k in g && k < t < cur && Aligned(t)
    requires BlocksOk(fn, g[k := top][t := low], ch, cur, f)
    ensures Building(fn, g[k := top][t := low], ch, cur, f, part)
  {
    hide Aligned, AllWired, Done, BlocksOk, Translatable, Cat, FirstsOf;
    var g' := g[k := top][t := low];
    assert g'.Keys == g.Keys + {t};
    WiredGrows(fn, g.Keys, g'.Keys, f);
  }

  /** Going on in the block that starts at `f`: the block before it is closed with
      a branch unless it already ends in a terminator. */
  lemma SwitchBlock(fn: Fn, g: Graph, ch: Chunks, cur: int, f: int)
    requires Building(fn, g, ch, cur, f, [])
    requires cur < f < fn.end && f in g
    ensures cur + 4 <= f
    ensures Building(fn, g[cur := FullBlock(fn, ch, cur, f)], ch, f, f, [])
  {
    hide Aligned, AllWired, Done, DoneAt, GoodInstr;
    Gap(cur, f);
    var g' := g[cur := FullBlock(fn, ch, cur, f)];
    assert g'.Keys == g.Keys;
    NextUnique(g'.Keys, cur, fn.end, f);
    forall k | k in g' && k < f ensures Complete(fn, g', ch, k) {
      if k != cur { assert Complete(fn, g, ch, k); }
    }
    assert Cat(ch, f, f) + [] == [];
  }

  lemma DoneCommit(fn: Fn, ch: Chunks, f: int, part: seq<Inst<int>>)
    requires Done(fn, ch, f) && Aligned(f)
    requires f in fn.code && Implements(f, fn.code[f], part)
    ensures Done(fn, ch[f := part], f + 4)
  {
    hide Implements;
    forall x | InFn(fn, x) && x < f + 4 ensures DoneAt(fn, ch[f := part], x) {
      if x < f {
        assert DoneAt(fn, ch, x);
      } else if f < x {
        Gap(f, x);
      }
    }
  }

  lemma WiredCommit(fn: Fn, keys: set<int>, f: int)
    requires AllWired(fn, keys, f) && Aligned(f) && Aligned(fn.st) && fn.st <= f
    requires Wired(fn, keys, f, f + 4)
    requires f > fn.st && ControlAt(fn, f - 4) ==> f in keys
    ensures AllWired(fn, keys, f + 4)
  {
    forall a | InFn(fn, a) && a < f + 4 ensures Wired(fn, keys, a, f + 4) {
      if a < f {
        assert Wired(fn, keys, a, f);
        Gap(a, f);
      } else if f < a {
        Gap(f, a);
      }
    }
  }

  lemma PlacedCommit(fn: Fn, keys: set<int>, cur: int, f: int)
    requires Placed(fn, keys, cur, f) && f < fn.end && Aligned(fn.end) && (cur == f || f !in keys)
    ensures Placed(fn, keys, cur, f + 4)
  {
    Gap(f, fn.end);
    AlignedStep(f);
    hide Aligned;
    forall k | k in keys ensures KeyOk(fn, k) && !(cur < k < f + 4) {
      assert KeyOk(fn, k);
      if f < k { Gap(f, k); }
    }
  }

  // A new chunk at the front leaves the complete blocks alone.
  lemma BlocksCommit(fn: Fn, g: Graph, ch: Chunks, cur: int, f: int, part: seq<Inst<int>>, b: VBlock)
    requires Placed(fn, g.Keys, cur, f) && BlocksOk(fn, g, ch, cur, f)
    ensures BlocksOk(fn, g[cur := b], ch[f := part], cur, f + 4)
  {
    hide NextStart, Cat, FirstsOf;
    var g', ch' := g[cur := b], ch[f := part];
    assert g'.Keys == g.Keys;
    forall k | k in g' && k < cur ensures Complete(fn, g', ch', k) {
      assert Complete(fn, g, ch, k);
      CatFrame(ch, k, NextStart(g.Keys, k, fn.end), f, part);
    }
  }

  /** The instruction at `f` is complete. */
  lemma CommitInstruction(fn: Fn, g: Graph, ch: Chunks, cur: int, f: int, part: seq<Inst<int>>)
    requires Building(fn, g, ch, cur, f, part)
    requires f < fn.end && (cur == f || f !in g)
    requires f in fn.code && Implements(f, fn.code[f], part)
    requires Wired(fn, g.Keys, f, f + 4)
    requires f > fn.st && ControlAt(fn, f - 4) ==> f in g
    ensures Building(fn, g[cur := g[cur].(firsts := g[cur].firsts + [First(f, f, 0)])], ch[f := part], cur, f + 4, [])
  {
    hide Implements, DoneAt, GoodInstr, Aligned;
    var b := g[cur].(firsts := g[cur].firsts + [First(f, f, 0)]);
    var g', ch' := g[cur := b], ch[f := part];
    assert g'.Keys == g.Keys;
    DoneCommit(fn, ch, f, part);
    WiredCommit(fn, g.Keys, f);
    PlacedCommit(fn, g.Keys, cur, f);
    BlocksCommit(fn, g, ch, cur, f, part, b);
    CatFrame(ch, cur, f, f, part);
    hide Done, AllWired, Wired, Placed, BlocksOk, Translatable;
    assert Cat(ch', cur, f + 4) + [] == Cat(ch', cur, f) + part;
  }

  // The block being filled got more of the instruction at `f`.
  lemma Repart(fn: Fn, g: Graph, ch: Chunks, cur: int, f: int, part: seq<Inst<int>>, part': seq<Inst<int>>)
    requires Building(fn, g, ch, cur, f, part)
    ensures Building(fn, g[cur := VBlock(Cat(ch, cur, f) + part', FirstsOf(cur, f))], ch, cur, f, part')
  {
    hide Aligned, AllWired, Done, Cat, FirstsOf, Translatable, Complete, KeyOk;
    var g' := g[cur := VBlock(Cat(ch, cur, f) + part', FirstsOf(cur, f))];
    assert g'.Keys == g.Keys;
    forall k | k in g' && k < cur ensures Complete(fn, g', ch, k) {
      assert Complete(fn, g, ch, k);
      CompleteSame(fn, g, g', ch, k);
    }
  }

  lemma CompleteSame(fn: Fn, g: Graph, g': Graph, ch: Chunks, k: int)
    requires k in g && Complete(fn, g, ch, k) && g.Keys == g'.Keys && g'[k] == g[k]
    ensures Complete(fn, g', ch, k)
  {
  }

  // The block being filled ends in a terminator when the last instruction does.
  lemma FilledEnd(fn: Fn, g: Graph, ch: Chunks, cur: int, f: int)
    requires Building(fn, g, ch, cur, f, [])
    ensures cur == f ==> g[cur].code == []
    ensures cur < f ==> var s := g[cur].code; |s| > 0 && (IsTerm(s[|s| - 1].op) <==> ControlAt(fn, f - 4))
  {
    hide Aligned, DoneAt, AllWired, BlocksOk, GoodInstr;
    if cur < f {
      Gap(cur, f);
      assert InFn(fn, f - 4) && DoneAt(fn, ch, f - 4);
      ChunkShape(fn, ch, f - 4);
      ChunkEnd(fn, ch, f - 4);
      assert Cat(ch, cur, f) + [] == Cat(ch, cur, f);
    }
  }

  lemma ChunkEnd(fn: Fn, ch: Chunks, x: int)
    requires DoneAt(fn, ch, x)
    ensures |ChunkAt(ch, x)| > 0
    ensures IsTerm(ChunkAt(ch, x)[|ChunkAt(ch, x)| - 1].op) <==> ControlAt(fn, x)
  {
  }

  // A backward target lies inside the block that holds it, counted in host
  // instructions of four bytes.
  lemma InBounds(fn: Fn, g: Graph, ch: Chunks, cur: int, f: int, part: seq<Inst<int>>, k: int, t: int)
    requires Building(fn, g, ch, cur, f, part)
    requires k in g && k <= t < f && Aligned(t) && forall j :: j in g ==> j <= k || t < j
    ensures t < k + |g[k].code| * 4
  {
    hide Aligned, AllWired, DoneAt, GoodInstr;
    assert KeyOk(fn, k);
    var n := f;
    if k != cur {
      assert k < cur && Complete(fn, g, ch, k);
      n := NextStart(g.Keys, k, fn.end);
      assert n <= cur && n in g && KeyOk(fn, n);
    }
    DoneLess(fn, ch, f, n);
    CatAddrs(fn, ch, k, n);
    CountBytes(k, n);
  }

  lemma CountBytes(a: int, b: int)
    requires a <= b && Aligned(a) && Aligned(b)
    ensures a + 4 * Count(a, b) == b
    decreases b - a
  {
    hide Aligned;
    if a < b {
      Gap(a, b);
      CountBytes(a, b - 4);
    }
  }

  // ---- where a block is cut ----

  lemma {:induction false} FirstsAddrs(a: int, b: int)
    requires a <= b && Aligned(a) && Aligned(b)
    ensures forall i :: 0 <= i < |FirstsOf(a, b)| ==>
              a <= FirstsOf(a, b)[i].addr < b && FirstsOf(a, b)[i].idAddr == FirstsOf(a, b)[i].addr && FirstsOf(a, b)[i].idIdx == 0
    decreases b - a
  {
    hide Aligned;
    if a < b {
      Gap(a, b);
      FirstsAddrs(a, b - 4);
    }
  }

  /** The instruction map names `t` at entry `q` only. */
  lemma FirstsCut(a: int, t: int, b: int)
    requires a <= t < b && Aligned(a) && Aligned(t) && Aligned(b)
    ensures var s, q := FirstsOf(a, b), |FirstsOf(a, t)|;
            && q < |s| && s[q] == First(t, t, 0)
            && (forall i :: 0 <= i < q ==> s[i].addr < t)
            && (forall i :: q < i < |s| ==> t < s[i].addr)
  {
    hide Aligned;
    Gap(t, b);
    AlignedStep(t);
    CatSplit(map[], a, t, b);
    CatSplit(map[], t, t + 4, b);
    FirstsAddrs(a, t);
    FirstsAddrs(t + 4, b);
    assert FirstsOf(t, t + 4) == FirstsOf(t, t) + [First(t, t, 0)];
    assert FirstsOf(t, t) == [];
  }

  // The instruction just before the cut is the last of the chunk before `t`.
  lemma BeforeCut(fn: Fn, ch: Chunks, a: int, t: int)
    requires Done(fn, ch, t) && fn.st <= a < t <= fn.end && Aligned(a) && Aligned(t)
    ensures var s := Cat(ch, a, t);
            |s| > 0 && s[|s| - 1].addr == t - 4 && s[|s| - 1].idx + 1 == |ChunkAt(ch, t - 4)|
  {
    hide Aligned, DoneAt;
    Gap(a, t);
    assert InFn(fn, t - 4) && DoneAt(fn, ch, t - 4);
    ChunkShape(fn, ch, t - 4);
  }

  /** The place where block `b`, which covers the addresses from `k` up to `n`, is
      cut at `t`: it is the first instruction emitted for `t`. */
  ghost predicate CutAt(b: VBlock, ch: Chunks, k: int, t: int, p: int, q: int) {
    && 0 < p < |b.code| && b.code[p].addr == t && b.code[p].idx == 0
    && (forall i :: 0 <= i < p ==> b.code[i].addr != t)
    && b.code[p - 1].addr == t - 4 && b.code[p - 1].idx + 1 == |ChunkAt(ch, t - 4)|
    && 0 <= q < |b.firsts| && b.firsts[q] == First(t, t, 0)
    && (forall i :: 0 <= i < q ==> b.firsts[i].addr < t)
    && (forall i :: q < i < |b.firsts| ==> t < b.firsts[i].addr)
  }

  lemma CutPoint(fn: Fn, ch: Chunks, k: int, t: int, n: int, rest: seq<Inst<int>>)
    requires Done(fn, ch, n) && fn.st <= k < t < n <= fn.end && Aligned(k) && Aligned(t) && Aligned(n)
    ensures CutAt(VBlock(Cat(ch, k, n) + rest, FirstsOf(k, n)), ch, k, t, |Cat(ch, k, t)|, |FirstsOf(k, t)|)
    ensures |Cat(ch, k, t)| <= |Cat(ch, k, n)|
  {
    hide Aligned, DoneAt;
    FirstInst(fn, ch, k, t, n);
    FirstsCut(k, t, n);
    BeforeCut(fn, ch, k, t);
    var s, p := Cat(ch, k, n), |Cat(ch, k, t)|;
    assert s[p - 1] == Cat(ch, k, t)[p - 1];
  }

  // The cut point of an earlier block.
  lemma EarlierCut(fn: Fn, g: Graph, ch: Chunks, cur: int, f: int, k: int, t: int)
    requires Translatable(fn) && Placed(fn, g.Keys, cur, f) && Done(fn, ch, f)
    requires k in g && k < cur && Complete(fn, g, ch, k)
    requires fn.st < t < f && Aligned(t) && k < t && forall j :: j in g ==> j <= k || t < j
    ensures t < NextStart(g.Keys, k, fn.end)
    ensures CutAt(g[k], ch, k, t, |Cat(ch, k, t)|, |FirstsOf(k, t)|)
  {
    hide Aligned, Done, DoneAt, Cat, FirstsOf, GoodInstr, NextStart, CutAt, FallBr;
    assert KeyOk(fn, k);
    var n := NextStart(g.Keys, k, fn.end);
    assert n <= cur && n in g && t < n && KeyOk(fn, n);
    DoneLess(fn, ch, f, n);
    var rest := if ControlAt(fn, n - 4) then [] else [FallBr(ch, n)];
    CutPoint(fn, ch, k, t, n, rest);
    assert g[k] == VBlock(Cat(ch, k, n) + rest, FirstsOf(k, n));
  }

  /** The block that holds `t` can be cut there, and the graph stays in order. */
  lemma SplitPoint(fn: Fn, g: Graph, ch: Chunks, cur: int, f: int, part: seq<Inst<int>>, k: int, t: int)
    requires Building(fn, g, ch, cur, f, part)
    requires fn.st < t < f && Aligned(t) && k in g && k < t && forall j :: j in g ==> j <= k || t < j
    ensures var p, q := |Cat(ch, k, t)|, |FirstsOf(k, t)|;
            && CutAt(g[k], ch, k, t, p, q)
            && (k == cur ==> p <= |Cat(ch, cur, f)|)
            && Building(fn, g[k := TopHalf(g[k], p, q, FallBr(ch, t))][t := BottomHalf(g[k], p, q)], ch, if k == cur then t else cur, f, part)
  {
    hide Aligned, AllWired, Done, DoneAt, Cat, FirstsOf, TopHalf, BottomHalf, GoodInstr, NextStart, CutAt, FallBr, Complete, FullBlock;
    assert KeyOk(fn, k);
    if k == cur {
      CutPoint(fn, ch, k, t, f, part);
      SplitCurrent(fn, g, ch, cur, f, part, t);
    } else {
      assert k < cur && Complete(fn, g, ch, k);
      EarlierCut(fn, g, ch, cur, f, k, t);
      hide Building;
      SplitEarlier(fn, g, ch, cur, f, part, k, t);
    }
  }

  lemma DoneLess(fn: Fn, ch: Chunks, f: int, n: int)
    requires Done(fn, ch, f) && n <= f
    ensures Done(fn, ch, n)
  {
    hide DoneAt;
  }

  // ---- the finished graph ----

  /** Every block holds exactly the code of the guest addresses from its key to the
      next key, and every place control can go to is a block. */
  ghost predicate Finished(fn: Fn, g: Graph, ch: Chunks) {
    && Translatable(fn) && Closed(fn)
    && fn.st in g && (forall k :: k in g ==> InFn(fn, k))
    && Done(fn, ch, fn.end)
    && AllWired(fn, g.Keys, fn.end)
    && (forall k :: k in g ==> Complete(fn, g, ch, k))
  }

  /** When the front reaches the end the graph is finished, but for an empty block
      that may start there. */
  lemma FinishBuilding(fn: Fn, g: Graph, ch: Chunks, cur: int)
    requires Building(fn, g, ch, cur, fn.end, []) && Closed(fn)
    ensures Finished(fn, g - {fn.end}, ch)
  {
    hide Aligned, Done, Cat, FirstsOf;
    var g' := g - {fn.end};
    assert g'.Keys == g.Keys - {fn.end};
    forall k | k in g' ensures InFn(fn, k) {
      assert KeyOk(fn, k);
    }
    forall a | InFn(fn, a) && a < fn.end ensures Wired(fn, g'.Keys, a, fn.end) {
      assert Wired(fn, g.Keys, a, fn.end) && GoodInstr(fn, a);
    }
    forall k | k in g' ensures Complete(fn, g', ch, k) {
      NextUnique(g'.Keys, k, fn.end, NextStart(g.Keys, k, fn.end));
      if k == cur {
        NextUnique(g.Keys, k, fn.end, fn.end);
        Gap(cur, fn.end);
      } else {
        assert Complete(fn, g, ch, k);
      }
    }
  }

  ghost function Code(g: Graph): map<int, seq<Inst<int>>> {
    map k | k in g :: g[k].code
  }

  // ---- simulation ----

  // One plain instruction, on both sides.
  lemma PlainStep(fn: Fn, ch: Chunks, c: int, m: Machine, e: Env)
    requires DoneAt(fn, ch, c) && !ControlAt(fn, c)
    ensures c in fn.code
    ensures Step(fn.code[c], c, m).Next? && Step(fn.code[c], c, m).pc == c + 4
    ensures Exec(ChunkAt(ch, c), m, e).Fall? && Exec(ChunkAt(ch, c), m, e).m == Step(fn.code[c], c, m).m
  {
    assert Agrees(false, Step(fn.code[c], c, m), Exec(ch[c], m, e));
  }

  /** Where the guest is after the straight-line part of a block. */
  lemma {:induction false} StraightLine(fn: Fn, ch: Chunks, a: int, b: int, m: Machine, e: Env, n: nat)
    requires Done(fn, ch, b) && Aligned(a) && Aligned(b) && fn.st <= a <= b <= fn.end
    requires forall x :: a <= x < b && Aligned(x) ==> !ControlAt(fn, x)
    ensures var f := Exec(Cat(ch, a, b), m, e);
            f.Fall? && Run(fn.code, a, m, n + Count(a, b)) == Run(fn.code, b, f.m, n)
    decreases b - a
  {
    hide Aligned, Implements, Step, StepInst, DoneAt, ControlAt;
    if a < b {
      var c := b - 4;
      Gap(a, b);
      assert InFn(fn, c);
      StraightLine(fn, ch, a, c, m, e, n + 1);
      var f := Exec(Cat(ch, a, c), m, e);
      ExecAppend(Cat(ch, a, c), ChunkAt(ch, c), m, e);
      PlainStep(fn, ch, c, f.m, f.e);
    }
  }

  /** What one block does is what the guest does in `len` instructions from `k`. */
  ghost predicate BlockSim(fn: Fn, f: Flow, k: int, m: Machine, len: nat, n: nat) {
    match f
    case Fall(_, _) => false
    case Goto(k', m', _) => Run(fn.code, k, m, n + len) == Run(fn.code, k', m', n)
    case Ret(m') => Run(fn.code, k, m, n + len) == Some(Returned(m'))
    case Indirect(w, m') => Run(fn.code, k, m, n + len) == Some(Left(w, m'))
  }

  lemma NoControlInBlock(fn: Fn, g: Graph, ch: Chunks, k: int, x: int)
    requires Finished(fn, g, ch) && k in g && k <= x && Aligned(x) && x + 4 < NextStart(g.Keys, k, fn.end)
    ensures InFn(fn, x) && DoneAt(fn, ch, x) && !ControlAt(fn, x)
  {
    hide Implements, Aligned, Translatable, Complete;
    assert InFn(fn, k);
    assert InFn(fn, x);
    assert DoneAt(fn, ch, x) && Wired(fn, g.Keys, x, fn.end);
  }

  ghost function Len(fn: Fn, g: Graph, k: int): nat
    requires k < fn.end
  {
    Count(k, NextStart(g.Keys, k, fn.end))
  }

  // The last instruction of a block, when it transfers control.
  lemma ControlStep(fn: Fn, ch: Chunks, c: int, m: Machine, e: Env, n: nat)
    requires DoneAt(fn, ch, c) && ControlAt(fn, c)
    ensures BlockSim(fn, Exec(ChunkAt(ch, c), m, e), c, m, 1, n)
    ensures var f := Exec(ChunkAt(ch, c), m, e);
            f.Goto? ==> Step(fn.code[c], c, m).Next? && f.to == Step(fn.code[c], c, m).pc
  {
    assert Agrees(true, Step(fn.code[c], c, m), Exec(ch[c], m, e));
  }

  // A block that ends in a terminator of its own.
  lemma RunControlBlock(fn: Fn, ch: Chunks, k: int, last: int, m: Machine, e: Env, n: nat)
    requires Done(fn, ch, last + 4) && Aligned(k) && Aligned(last) && fn.st <= k <= last < last + 4 <= fn.end
    requires forall x :: k <= x < last && Aligned(x) ==> !ControlAt(fn, x)
    requires ControlAt(fn, last)
    ensures var f := Exec(Cat(ch, k, last) + ChunkAt(ch, last), m, e);
            && BlockSim(fn, f, k, m, Count(k, last + 4), n)
            && (f.Goto? ==> exists m' :: Step(fn.code[last], last, m').Next? && f.to == Step(fn.code[last], last, m').pc)
  {
    hide Implements, DoneAt, Aligned, Step, Run;
    assert InFn(fn, last) && DoneAt(fn, ch, last);
    assert forall x :: InFn(fn, x) && x < last ==> DoneAt(fn, ch, x);
    StraightLine(fn, ch, k, last, m, e, n + 1);
    var f := Exec(Cat(ch, k, last), m, e);
    ExecAppend(Cat(ch, k, last), ChunkAt(ch, last), m, e);
    ControlStep(fn, ch, last, f.m, f.e, n);
  }

  // A block that runs on into the next one.
  lemma RunPlainBlock(fn: Fn, ch: Chunks, k: int, nx: int, m: Machine, e: Env, n: nat)
    requires Done(fn, ch, nx) && Aligned(k) && Aligned(nx) && fn.st <= k <= nx <= fn.end
    requires forall x :: k <= x < nx && Aligned(x) ==> !ControlAt(fn, x)
    ensures var f := Exec(Cat(ch, k, nx) + [FallBr(ch, nx)], m, e);
            BlockSim(fn, f, k, m, Count(k, nx), n) && f.Goto? && f.to == nx
  {
    hide Implements, DoneAt, Done, Aligned, Step, Run, Cat, Count, Exec;
    StraightLine(fn, ch, k, nx, m, e, n);
    ExecSnoc(Cat(ch, k, nx), FallBr(ch, nx), m, e);
  }

  // Where the last instruction of a block can lead.
  lemma StepTargets(fn: Fn, g: Graph, ch: Chunks, last: int, m: Machine)
    requires Finished(fn, g, ch) && InFn(fn, last) && ControlAt(fn, last)
    requires Step(fn.code[last], last, m).Next?
    ensures Step(fn.code[last], last, m).pc in g
  {
    hide Implements, Aligned, Complete;
    assert Wired(fn, g.Keys, last, fn.end);
  }

  lemma RunBlock(fn: Fn, g: Graph, ch: Chunks, k: int, m: Machine, e: Env, n: nat)
    requires Finished(fn, g, ch) && k in g
    ensures k < fn.end
    ensures var f := Exec(g[k].code, m, e);
            && BlockSim(fn, f, k, m, Len(fn, g, k), n)
            && (f.Goto? ==> f.to in g)
  {
    hide Aligned, Implements, DoneAt, Step, Run, Exec, GoodInstr;
    assert Complete(fn, g, ch, k) && InFn(fn, k);
    var nx := NextStart(g.Keys, k, fn.end);
    var last := nx - 4;
    assert Aligned(nx) by { if nx in g.Keys { assert InFn(fn, nx); } }
    Gap(k, nx);
    assert InFn(fn, last);
    assert forall x :: InFn(fn, x) && x < nx ==> DoneAt(fn, ch, x);
    forall x | k <= x < last && Aligned(x) ensures !ControlAt(fn, x) {
      Gap(x, last);
      NoControlInBlock(fn, g, ch, k, x);
    }
    if ControlAt(fn, last) {
      RunControlBlock(fn, ch, k, last, m, e, n);
      assert g[k].code == Cat(ch, k, last) + ChunkAt(ch, last);
      hide Finished, BlockSim, NextStart, Cat;
      var f := Exec(g[k].code, m, e);
      if f.Goto? {
        var m' :| Step(fn.code[last], last, m').Next? && f.to == Step(fn.code[last], last, m').pc;
        StepTargets(fn, g, ch, last, m');
      }
    } else {
      forall x | k <= x < nx && Aligned(x) ensures !ControlAt(fn, x) {
        if last < x { Gap(last, x); }
      }
      RunPlainBlock(fn, ch, k, nx, m, e, n);
    }
  }

  /** A guest run that ends needs at least the instructions of its first block. */
  lemma {:induction false} RunNeedsBlock(fn: Fn, g: Graph, ch: Chunks, k: int, a: int, m: Machine, n: nat)
    requires Finished(fn, g, ch) && k in g && k <= a < NextStart(g.Keys, k, fn.end) && Aligned(a)
    requires Run(fn.code, a, m, n).Some?
    ensures n >= Count(a, NextStart(g.Keys, k, fn.end))
    decreases NextStart(g.Keys, k, fn.end) - a
  {
    hide Implements, Step, Finished, Aligned, DoneAt;
    var nx := NextStart(g.Keys, k, fn.end);
    if a + 4 < nx {
      NoControlInBlock(fn, g, ch, k, a);
      PlainStep(fn, ch, a, m, map[]);
      assert Aligned(a + 4) by { AlignedStep(a); }
      RunNeedsBlock(fn, g, ch, k, a + 4, Step(fn.code[a], a, m).m, n - 1);
      CountStep(a, nx);
    } else {
      CountStep(a, nx);
    }
  }

  lemma AlignedStep(a: int)
    requires Aligned(a)
    ensures Aligned(a + 4)
  {
  }

  lemma CountStep(a: int, b: int)
    requires a < b
    ensures Count(a, b) <= Count(a + 4, b) + 1
    decreases b - a
  {
    if a + 8 <= b { CountStep(a, b - 4); }
  }

  lemma {:induction false} HostFollowsGuest(fn: Fn, g: Graph, ch: Chunks, k: int, m: Machine, e: Env, n: nat)
    requires Finished(fn, g, ch) && k in g && Run(fn.code, k, m, n).Some?
    ensures RunBlocks(Code(g), k, m, e, n) == Run(fn.code, k, m, n)
    decreases n
  {
    hide Run, Finished, Exec, Aligned;
    RunBlock(fn, g, ch, k, m, e, 0);
    KeyFacts(fn, g, ch, k);
    var len := Len(fn, g, k);
    RunNeedsBlock(fn, g, ch, k, k, m, n);
    RunBlock(fn, g, ch, k, m, e, n - len);
    var f := Exec(g[k].code, m, e);
    if f.Goto? {
      HostFollowsGuest(fn, g, ch, f.to, f.m, f.e, n - len);
      MoreHostSteps(Code(g), f.to, f.m, f.e, n - len, n - 1);
    }
  }

  lemma KeyFacts(fn: Fn, g: Graph, ch: Chunks, k: int)
    requires Finished(fn, g, ch) && k in g
    ensures InFn(fn, k) && Len(fn, g, k) > 0
  {
    assert Complete(fn, g, ch, k);
  }

  lemma {:induction false} MoreHostSteps(g: map<int, seq<Inst<int>>>, k: int, m: Machine, e: Env, n: nat, n': nat)
    requires n <= n' && RunBlocks(g, k, m, e, n).Some?
    ensures RunBlocks(g, k, m, e, n') == RunBlocks(g, k, m, e, n)
    decreases n
  {
    var f := Exec(g[k], m, e);
    if f.Goto? {
      MoreHostSteps(g, f.to, f.m, f.e, n - 1, n' - 1);
    }
  }

  /** The number of guest instructions behind `n` host blocks. */
  lemma {:induction false} GuestFollowsHost(fn: Fn, g: Graph, ch: Chunks, k: int, m: Machine, e: Env, n: nat) returns (steps: nat)
    requires Finished(fn, g, ch) && k in g && RunBlocks(Code(g), k, m, e, n).Some?
    ensures Run(fn.code, k, m, steps) == RunBlocks(Code(g), k, m, e, n)
    decreases n
  {
    hide Run, Finished, Exec;
    var f := Exec(g[k].code, m, e);
    steps := 0;
    RunBlock(fn, g, ch, k, m, e, 0);
    if f.Goto? {
      steps := GuestFollowsHost(fn, g, ch, f.to, f.m, f.e, n - 1);
    }
    RunBlock(fn, g, ch, k, m, e, steps);
    steps := steps + Len(fn, g, k);
  }

  /** The main result on blocks: from every block start, in every machine, the
      guest run ends with `r` exactly when the host run does. */
  lemma Simulation(fn: Fn, g: Graph, ch: Chunks, k: int, m: Machine, e: Env, r: End)
    requires Finished(fn, g, ch) && k in g
    ensures (exists n :: Run(fn.code, k, m, n) == Some(r))
            <==> (exists n :: RunBlocks(Code(g), k, m, e, n) == Some(r))
  {
    hide Run, Finished, RunBlocks;
    if n :| Run(fn.code, k, m, n) == Some(r) {
      HostFollowsGuest(fn, g, ch, k, m, e, n);
    }
    if n :| RunBlocks(Code(g), k, m, e, n) == Some(r) {
      var steps := GuestFollowsHost(fn, g, ch, k, m, e, n);
    }
  }
}

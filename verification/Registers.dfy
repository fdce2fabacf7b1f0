/** Local register files.  In GLOBALS mode every guest function works on one global
    register file; in LOCALS and ABI mode each activation has a copy of its own that
    is copied from and to the global file where functions meet. */
module Registers {
  import opened Basics
  import opened Guest

  // A register: x0 to x31 are 0 to 31, f0 to f31 are 32 to 63.
  const NUM := 32
  type Loc = i: nat | i < 64
  type File = s: seq<Word> | |s| == 64 witness seq(64, _ => 0)

  const SP: Loc := 2
  const T0: Loc := 5

  function Read(r: File, i: Loc): Word {
    if i == 0 then 0 else r[i]
  }

  function Write(r: File, i: Loc, w: Word): File {
    if i == 0 then r else r[i := w]
  }

  function Reads(r: File, srcs: seq<Loc>): seq<Word> {
    seq(|srcs|, i requires 0 <= i < |srcs| => Read(r, srcs[i]))
  }

  // ---- guest functions ----

  /** An instruction: an operation on registers and memory, a conditional branch, a
      call of a known function, or a return.  A call that links to x0 is a tail call. */
  datatype GInstr<!M> =
    | Op(rd: Loc, srcs: seq<Loc>, op: (seq<Word>, M) -> (Word, M))
    | Branch(srcs: seq<Loc>, cond: seq<Word> -> bool, to: nat)
    | Call(callee: int, link: Loc, back: Word)
    | Ret

  type Prog<!M> = map<int, seq<GInstr<M>>>

  datatype St<M> = St(r: File, mem: M)

  function DoOp<M>(i: GInstr<M>, r: File, mem: M): (File, M)
    requires i.Op?
  {
    var (w, mem') := i.op(Reads(r, i.srcs), mem);
    (Write(r, i.rd, w), mem')
  }

  /** A run on the one global register file, from instruction `pc` of `f` to the
      return of `f`; None when it has not returned after `n` levels. */
  function RunG<M>(p: Prog<M>, f: int, pc: nat, s: St<M>, n: nat): Option<St<M>>
    decreases n
  {
    if n == 0 || f !in p || pc >= |p[f]| then None
    else match p[f][pc]
      case Op(_, _, _) =>
        var (r, mem) := DoOp(p[f][pc], s.r, s.mem);
        RunG(p, f, pc + 1, St(r, mem), n - 1)
      case Branch(srcs, cond, to) => RunG(p, f, if cond(Reads(s.r, srcs)) then to else pc + 1, s, n - 1)
      case Call(callee, link, back) =>
        var res := RunG(p, callee, 0, St(Write(s.r, link, back), s.mem), n - 1);
        if res.None? || link == 0 then res else RunG(p, f, pc + 1, res.value, n - 1)
      case Ret => Some(s)
  }

  // ---- synchronisation ----

  datatype Mode = LOCALS | ABI
  datatype Point = CALL | CALL_RETURNED | FUNC_START | FUNC_RETURN

  predicate SyncXRegCall(i: nat) { i == 1 || i == 2 || 10 <= i <= 17 }
  predicate SyncFRegCall(i: nat) { 10 <= i <= 17 }
  predicate SyncXRegRet(i: nat) { i == 10 || i == 11 }
  predicate SyncFRegRet(i: nat) { i == 10 || i == 11 }

  /** Whether register `i` is copied at `point`. */
  predicate SyncReg(mode: Mode, point: Point, retRegsOnly: bool, isX: bool, i: nat) {
    var call := if isX then SyncXRegCall(i) else SyncFRegCall(i);
    var ret := if isX then SyncXRegRet(i) else SyncFRegRet(i);
    if mode == LOCALS then (if retRegsOnly then ret else true)
    else if point == CALL || point == FUNC_START then call
    else ret
  }

  /** The registers copied at `point`. */
  predicate InSync(mode: Mode, point: Point, syncF: bool, k: Loc) {
    if k < NUM then 0 < k && SyncReg(mode, point, false, true, k)
    else syncF && SyncReg(mode, point, false, false, k - NUM)
  }

  /** `s` lists the registers of `keep` that are copied at `point`. */
  ghost predicate Lists(s: seq<Loc>, mode: Mode, point: Point, syncF: bool, keep: set<Loc>) {
    forall k: Loc :: k in s <==> InSync(mode, point, syncF, k) && k in keep
  }

  // Copy the listed registers, one after the other.
  function CopyAll(s: seq<Loc>, from: File, to: File): File
    decreases |s|
  {
    if s == [] then to else CopyAll(s[1..], from, to[s[0] := from[s[0]]])
  }

  lemma {:induction false} CopyAllAt(s: seq<Loc>, from: File, to: File)
    ensures forall k: Loc :: CopyAll(s, from, to)[k] == if k in s then from[k] else to[k]
    decreases |s|
  {
    if s != [] {
      CopyAllAt(s[1..], from, to[s[0] := from[s[0]]]);
      assert forall k: Loc :: k in s <==> k == s[0] || k in s[1..];
    }
  }

  // ---- host functions ----

  datatype HInstr<!M> =
    | HOp(rd: Loc, srcs: seq<Loc>, op: (seq<Word>, M) -> (Word, M))
    | HBranch(srcs: seq<Loc>, cond: seq<Word> -> bool, to: nat)
    | HCall(callee: int, link: Loc, back: Word, stores: seq<Loc>, loads: seq<Loc>, final: seq<Loc>)
    | HRet(stores: seq<Loc>)

  datatype HostFn<!M> = HostFn(start: seq<Loc>, body: seq<HInstr<M>>)
  type HostProg<!M> = map<int, HostFn<M>>

  /** What a fresh activation finds in its local file. */
  type Junk<!M> = (int, St<M>, nat) -> File

  /** A run of host code: `l` is the local file, `s` holds the global one. */
  function RunL<M>(q: HostProg<M>, junk: Junk<M>, f: int, pc: nat, l: File, s: St<M>, n: nat): Option<St<M>>
    decreases n, 0
  {
    if n == 0 || f !in q || pc >= |q[f].body| then None
    else match q[f].body[pc]
      case HOp(rd, srcs, op) =>
        var (l', mem) := DoOp(Op(rd, srcs, op), l, s.mem);
        RunL(q, junk, f, pc + 1, l', St(s.r, mem), n - 1)
      case HBranch(srcs, cond, to) => RunL(q, junk, f, if cond(Reads(l, srcs)) then to else pc + 1, l, s, n - 1)
      case HCall(callee, link, back, stores, loads, final) =>
        var l1 := Write(l, link, back);
        var res := CallL(q, junk, callee, St(CopyAll(stores, l1, s.r), s.mem), n - 1);
        if res.None? then None
        else
          var l2 := CopyAll(loads, res.value.r, l1);
          if link == 0 then Some(St(CopyAll(final, l2, res.value.r), res.value.mem))
          else RunL(q, junk, f, pc + 1, l2, res.value, n - 1)
      case HRet(stores) => Some(St(CopyAll(stores, l, s.r), s.mem))
  }

  /** A host function is entered: the local file is set up from the global one. */
  function CallL<M>(q: HostProg<M>, junk: Junk<M>, f: int, s: St<M>, n: nat): Option<St<M>>
    decreases n, 1
  {
    if f !in q then None
    else RunL(q, junk, f, 0, CopyAll(q[f].start, s.r, junk(f, s, n)), s, n)
  }

  // ---- translation ----

  function Accessed<M>(i: GInstr<M>): set<Loc> {
    match i
    case Op(rd, srcs, _) => {rd} + set x | x in srcs
    case Branch(srcs, _, _) => set x | x in srcs
    case Call(_, link, _) => {link}
    case Ret => {}
  }

  /** Host code for one instruction, with sync code for the registers in `keep`. */
  ghost predicate InstrOk<M>(mode: Mode, syncF: bool, keep: set<Loc>, i: GInstr<M>, h: HInstr<M>) {
    match i
    case Op(rd, srcs, op) => h == HOp(rd, srcs, op)
    case Branch(srcs, cond, to) => h == HBranch(srcs, cond, to)
    case Call(callee, link, back) =>
      && h.HCall? && h.callee == callee && h.link == link && h.back == back
      && Lists(h.stores, mode, CALL, syncF, keep) && Lists(h.loads, mode, CALL_RETURNED, syncF, keep)
      && (link == 0 ==> Lists(h.final, mode, FUNC_RETURN, syncF, keep))
    case Ret => h.HRet? && Lists(h.stores, mode, FUNC_RETURN, syncF, keep)
  }

  ghost predicate Translated<M>(mode: Mode, syncF: bool, keep: set<Loc>, body: seq<GInstr<M>>, h: HostFn<M>) {
    && Lists(h.start, mode, FUNC_START, syncF, keep)
    && |h.body| == |body|
    && forall pc :: 0 <= pc < |body| ==> InstrOk(mode, syncF, keep, body[pc], h.body[pc])
  }

  // Every register a function touches has its sync code.
  ghost predicate Covers<M>(keep: set<Loc>, body: seq<GInstr<M>>) {
    forall pc :: 0 <= pc < |body| ==> forall x :: x in Accessed(body[pc]) && x != 0 ==> x in keep
  }

  ghost predicate Linked<M>(mode: Mode, syncF: bool, keep: map<int, set<Loc>>, p: Prog<M>, q: HostProg<M>) {
    && p.Keys == q.Keys == keep.Keys
    && forall f :: f in p ==> Translated(mode, syncF, keep[f], p[f], q[f]) && Covers(keep[f], p[f])
  }

  // ---- LOCALS mode ----

  /** The registers in `keep` are current in the local file, the others in the
      global one. */
  ghost predicate Current(keep: set<Loc>, l: File, g: File, r: File) {
    && g[0] == r[0]
    && forall k: Loc :: k != 0 ==> if k in keep then l[k] == r[k] else g[k] == r[k]
  }

  lemma ReadsCurrent(keep: set<Loc>, l: File, g: File, r: File, srcs: seq<Loc>)
    requires Current(keep, l, g, r) && forall x :: x in srcs && x != 0 ==> x in keep
    ensures Reads(l, srcs) == Reads(r, srcs)
  {
  }

  lemma WriteCurrent(keep: set<Loc>, l: File, g: File, r: File, rd: Loc, w: Word)
    requires Current(keep, l, g, r) && (rd != 0 ==> rd in keep)
    ensures Current(keep, Write(l, rd, w), g, Write(r, rd, w))
  {
  }

  /** The registers for which there is sync code can all be copied. */
  ghost predicate Synced(syncF: bool, keep: set<Loc>) {
    syncF || forall k :: k in keep ==> k < NUM
  }

  // Storing all local registers makes the global file current.
  lemma StoreCurrent(keep: set<Loc>, l: File, g: File, r: File, s: seq<Loc>, point: Point, syncF: bool)
    requires Current(keep, l, g, r) && Lists(s, LOCALS, point, syncF, keep) && Synced(syncF, keep)
    ensures CopyAll(s, l, g) == r
  {
    CopyAllAt(s, l, g);
  }

  lemma LoadCurrent(keep: set<Loc>, l: File, r: File, s: seq<Loc>, point: Point, syncF: bool)
    requires Lists(s, LOCALS, point, syncF, keep) && Synced(syncF, keep)
    ensures Current(keep, CopyAll(s, r, l), r, r)
  {
    CopyAllAt(s, r, l);
  }

  lemma {:induction false} LocalsRun<M>(syncF: bool, p: Prog<M>, q: HostProg<M>, keep: map<int, set<Loc>>, junk: Junk<M>, f: int, pc: nat, l: File, g: File, r: File, mem: M, n: nat)
    requires Linked(LOCALS, syncF, keep, p, q) && (forall h :: h in p ==> Synced(syncF, keep[h])) && f in p && Current(keep[f], l, g, r)
    ensures RunL(q, junk, f, pc, l, St(g, mem), n) == RunG(p, f, pc, St(r, mem), n)
    decreases n, 0
  {
    hide Lists, CopyAll, Current, Reads, Write;
    if n > 0 && pc < |p[f]| {
      var i, h := p[f][pc], q[f].body[pc];
      assert InstrOk(LOCALS, syncF, keep[f], i, h);
      assert forall x :: x in Accessed(i) && x != 0 ==> x in keep[f];
      match i {
        case Op(rd, srcs, op) =>
          ReadsCurrent(keep[f], l, g, r, srcs);
          var (w, mem') := op(Reads(r, srcs), mem);
          WriteCurrent(keep[f], l, g, r, rd, w);
          LocalsRun(syncF, p, q, keep, junk, f, pc + 1, Write(l, rd, w), g, Write(r, rd, w), mem', n - 1);
        case Branch(srcs, cond, to) =>
          ReadsCurrent(keep[f], l, g, r, srcs);
          LocalsRun(syncF, p, q, keep, junk, f, if cond(Reads(r, srcs)) then to else pc + 1, l, g, r, mem, n - 1);
        case Call(callee, link, back) =>
          var l1, r1 := Write(l, link, back), Write(r, link, back);
          WriteCurrent(keep[f], l, g, r, link, back);
          StoreCurrent(keep[f], l1, g, r1, h.stores, CALL, syncF);
          LocalsEnter(syncF, p, q, keep, junk, callee, St(r1, mem), n - 1);
          var res := RunG(p, callee, 0, St(r1, mem), n - 1);
          if res.Some? {
            LoadCurrent(keep[f], l1, res.value.r, h.loads, CALL_RETURNED, syncF);
            var l2 := CopyAll(h.loads, res.value.r, l1);
            if link == 0 {
              StoreCurrent(keep[f], l2, res.value.r, res.value.r, h.final, FUNC_RETURN, syncF);
            } else {
              LocalsRun(syncF, p, q, keep, junk, f, pc + 1, l2, res.value.r, res.value.r, res.value.mem, n - 1);
            }
          }
        case Ret => StoreCurrent(keep[f], l, g, r, h.stores, FUNC_RETURN, syncF);
      }
    }
  }

  lemma {:induction false} LocalsEnter<M>(syncF: bool, p: Prog<M>, q: HostProg<M>, keep: map<int, set<Loc>>, junk: Junk<M>, f: int, s: St<M>, n: nat)
    requires Linked(LOCALS, syncF, keep, p, q) && (forall h :: h in p ==> Synced(syncF, keep[h]))
    ensures CallL(q, junk, f, s, n) == RunG(p, f, 0, s, n)
    decreases n, 1
  {
    if f in p {
      var l := CopyAll(q[f].start, s.r, junk(f, s, n));
      LoadCurrent(keep[f], junk(f, s, n), s.r, q[f].start, FUNC_START, syncF);
      LocalsRun(syncF, p, q, keep, junk, f, 0, l, s.r, s.r, s.mem, n);
    }
  }

  /** The float registers are synchronised, or no instruction touches one. */
  ghost predicate FloatsOk<M>(syncF: bool, p: Prog<M>) {
    syncF || forall f, pc :: f in p && 0 <= pc < |p[f]| ==> forall x :: x in Accessed(p[f][pc]) ==> x < NUM
  }

  // The registers of `keep` that are copied at all.
  ghost function Copied(syncF: bool, keep: set<Loc>): set<Loc> {
    set k | k in keep && (syncF || k < NUM)
  }

  lemma CopiedLinked<M>(syncF: bool, p: Prog<M>, q: HostProg<M>, keep: map<int, set<Loc>>, f: int)
    requires Linked(LOCALS, syncF, keep, p, q) && FloatsOk(syncF, p) && f in p
    ensures Translated(LOCALS, syncF, Copied(syncF, keep[f]), p[f], q[f]) && Covers(Copied(syncF, keep[f]), p[f])
  {
    hide SyncReg;
    forall pc | 0 <= pc < |p[f]|
      ensures InstrOk(LOCALS, syncF, Copied(syncF, keep[f]), p[f][pc], q[f].body[pc])
    {
      assert InstrOk(LOCALS, syncF, keep[f], p[f][pc], q[f].body[pc]);
    }
  }

  /** In LOCALS mode a call leaves the same global registers and memory as in GLOBALS
      mode, whatever a fresh local file holds and however deep the calls recurse.
      `keep` may be every register or, after the cleaning of sync code, only the ones
      each function touches. */
  lemma LocalsCall<M>(syncF: bool, p: Prog<M>, q: HostProg<M>, keep: map<int, set<Loc>>, junk: Junk<M>, f: int, s: St<M>, n: nat)
    requires Linked(LOCALS, syncF, keep, p, q) && FloatsOk(syncF, p)
    ensures CallL(q, junk, f, s, n) == RunG(p, f, 0, s, n)
  {
    hide Translated, Covers, FloatsOk;
    forall h | h in p
      ensures Translated(LOCALS, syncF, Copied(syncF, keep[h]), p[h], q[h]) && Covers(Copied(syncF, keep[h]), p[h])
    {
      CopiedLinked(syncF, p, q, keep, h);
    }
    var copied := map h | h in keep :: Copied(syncF, keep[h]);
    assert copied.Keys == keep.Keys;
    LocalsEnter(syncF, p, q, copied, junk, f, s, n);
  }

  // Code without float synchronisation never changes a float register of the global file.
  lemma {:induction false} FloatsStay<M>(mode: Mode, p: Prog<M>, q: HostProg<M>, keep: map<int, set<Loc>>, junk: Junk<M>, f: int, pc: nat, l: File, s: St<M>, n: nat, k: Loc)
    requires Linked(mode, false, keep, p, q) && f in p && k >= NUM && RunL(q, junk, f, pc, l, s, n).Some?
    ensures RunL(q, junk, f, pc, l, s, n).value.r[k] == s.r[k]
    decreases n, 0
  {
    hide Covers, CopyAll, Reads, Write;
    var i, h := p[f][pc], q[f].body[pc];
    assert InstrOk(mode, false, keep[f], i, h);
    match h {
      case HOp(rd, srcs, op) =>
        var (l', mem) := DoOp(Op(rd, srcs, op), l, s.mem);
        FloatsStay(mode, p, q, keep, junk, f, pc + 1, l', St(s.r, mem), n - 1, k);
      case HBranch(srcs, cond, to) =>
        FloatsStay(mode, p, q, keep, junk, f, if cond(Reads(l, srcs)) then to else pc + 1, l, s, n - 1, k);
      case HCall(callee, link, back, stores, loads, final) =>
        var l1 := Write(l, link, back);
        CopyAllAt(stores, l1, s.r);
        var t := St(CopyAll(stores, l1, s.r), s.mem);
        CallFloatsStay(mode, p, q, keep, junk, callee, t, n - 1, k);
        var res := CallL(q, junk, callee, t, n - 1).value;
        var l2 := CopyAll(loads, res.r, l1);
        if link == 0 {
          CopyAllAt(final, l2, res.r);
        } else {
          FloatsStay(mode, p, q, keep, junk, f, pc + 1, l2, res, n - 1, k);
        }
      case HRet(stores) => CopyAllAt(stores, l, s.r);
    }
  }

  lemma {:induction false} CallFloatsStay<M>(mode: Mode, p: Prog<M>, q: HostProg<M>, keep: map<int, set<Loc>>, junk: Junk<M>, f: int, s: St<M>, n: nat, k: Loc)
    requires Linked(mode, false, keep, p, q) && k >= NUM && CallL(q, junk, f, s, n).Some?
    ensures CallL(q, junk, f, s, n).value.r[k] == s.r[k]
    decreases n, 1
  {
    FloatsStay(mode, p, q, keep, junk, f, 0, CopyAll(q[f].start, s.r, junk(f, s, n)), s, n, k);
  }

  /** Without float synchronisation every call that changes a float register comes out
      wrong, in either mode. */
  lemma FloatsShow<M>(mode: Mode, p: Prog<M>, q: HostProg<M>, keep: map<int, set<Loc>>, junk: Junk<M>, f: int, s: St<M>, n: nat, k: Loc)
    requires Linked(mode, false, keep, p, q) && k >= NUM && RunG(p, f, 0, s, n).Some? && RunG(p, f, 0, s, n).value.r[k] != s.r[k]
    ensures CallL(q, junk, f, s, n) != RunG(p, f, 0, s, n)
  {
    hide CallL, RunG, Linked;
    if CallL(q, junk, f, s, n).Some? { CallFloatsStay(mode, p, q, keep, junk, f, s, n, k); }
  }

  // ---- ABI mode ----

  // ra, sp, a0 to a7 and fa0 to fa7; a0, a1, fa0 and fa1.
  predicate IsArg(k: Loc) { k == 1 || k == 2 || 10 <= k <= 17 || 42 <= k <= 49 }
  predicate IsRet(k: Loc) { k == 10 || k == 11 || k == 42 || k == 43 }

  /** The registers copied in ABI mode are those of the convention: the arguments on the way
      into a function and the results on the way out. */
  lemma CopiesAreConvention(k: Loc)
    ensures InSync(ABI, CALL, true, k) == InSync(ABI, FUNC_START, true, k) == IsArg(k)
    ensures InSync(ABI, CALL_RETURNED, true, k) == InSync(ABI, FUNC_RETURN, true, k) == IsRet(k)
  {
  }

  // sp, s0 to s11 and fs0 to fs11.
  predicate IsSaved(k: Loc) {
    var i := k % NUM;
    k == SP || i == 8 || i == 9 || 18 <= i <= 27
  }

  lemma SavedRegisters(k: Loc)
    ensures IsSaved(k) <==> k in {2, 8, 9, 18, 19, 20, 21, 22, 23, 24, 25, 26, 27,
                                  NUM + 8, NUM + 9, NUM + 18, NUM + 19, NUM + 20, NUM + 21, NUM + 22,
                                  NUM + 23, NUM + 24, NUM + 25, NUM + 26, NUM + 27}
  {
  }

  predicate SameArgs(a: File, b: File) { forall k: Loc :: IsArg(k) ==> a[k] == b[k] }
  predicate SameSaved(a: File, b: File) { forall k: Loc :: IsSaved(k) ==> a[k] == b[k] }
  ghost predicate SameRets<M>(x: St<M>, y: St<M>) {
    x.mem == y.mem && forall k: Loc :: IsRet(k) ==> x.r[k] == y.r[k]
  }

  ghost predicate Returns<M>(p: Prog<M>, f: int, pc: nat, s: St<M>, x: St<M>) {
    exists n: nat :: RunG(p, f, pc, s, n) == Some(x)
  }

  // The run from `s` returns what `x` holds in the return registers and memory.
  ghost predicate Gives<M(!new)>(p: Prog<M>, f: int, pc: nat, s: St<M>, x: St<M>) {
    exists y :: Returns(p, f, pc, s, y) && SameRets(x, y)
  }

  ghost predicate CallAt<M>(p: Prog<M>, f: int, pc: nat) {
    f in p && pc < |p[f]| && p[f][pc].Call?
  }

  ghost predicate ArgsOnly<M(!new)>(p: Prog<M>, f: int, s: St<M>, t: St<M>, x: St<M>) {
    s.mem == t.mem && SameArgs(s.r, t.r) && Returns(p, f, 0, s, x) ==> Gives(p, f, 0, t, x)
  }

  ghost predicate Saves<M(!new)>(p: Prog<M>, f: int, s: St<M>, x: St<M>) {
    Returns(p, f, 0, s, x) ==> SameSaved(s.r, x.r)
  }

  ghost predicate ReadsBack<M(!new)>(p: Prog<M>, f: int, pc: nat, s: St<M>, t: St<M>, x: St<M>) {
    SameRets(s, t) && SameSaved(s.r, t.r) && Returns(p, f, pc + 1, s, x) ==> Gives(p, f, pc + 1, t, x)
  }

  /** The calling convention, as a fact about runs on one register file: what a
      function returns depends only on the argument registers and memory, saved
      registers and sp come back unchanged, and what happens behind a call depends
      only on the return registers and the saved ones. */
  ghost predicate Convention<M(!new)>(p: Prog<M>) {
    && (forall f, s, t, x {:trigger ArgsOnly(p, f, s, t, x)} :: f in p ==> ArgsOnly(p, f, s, t, x))
    && (forall f, s, x {:trigger Saves(p, f, s, x)} :: f in p ==> Saves(p, f, s, x))
    && (forall f, pc, s, t, x {:trigger ReadsBack(p, f, pc, s, t, x)} :: CallAt(p, f, pc) ==> ReadsBack(p, f, pc, s, t, x))
  }

  /** A function that makes a call other than a tail call has sync code for sp. */
  ghost predicate KeepsSp<M>(keep: set<Loc>, body: seq<GInstr<M>>) {
    (exists pc :: 0 <= pc < |body| && body[pc].Call? && body[pc].link != 0) ==> SP in keep
  }

  ghost predicate AbiLinked<M>(keep: map<int, set<Loc>>, p: Prog<M>, q: HostProg<M>) {
    Linked(ABI, true, keep, p, q) && forall f :: f in p ==> KeepsSp(keep[f], p[f])
  }

  /** The file `c` is what a run of the guest sees: local registers where there is
      sync code, the global file's argument and return registers elsewhere. */
  ghost predicate Seen(keep: set<Loc>, l: File, g: File, c: File) {
    forall k: Loc :: if k in keep then l[k] == c[k] else IsArg(k) || IsRet(k) ==> g[k] == c[k]
  }

  lemma ReadsSeen(keep: set<Loc>, l: File, g: File, c: File, srcs: seq<Loc>)
    requires Seen(keep, l, g, c) && forall x :: x in srcs && x != 0 ==> x in keep
    ensures Reads(l, srcs) == Reads(c, srcs)
  {
  }

  lemma WriteSeen(keep: set<Loc>, l: File, g: File, c: File, rd: Loc, w: Word)
    requires Seen(keep, l, g, c) && (rd != 0 ==> rd in keep)
    ensures Seen(keep, Write(l, rd, w), g, Write(c, rd, w))
  {
  }

  lemma ReturnSeen<M>(keep: set<Loc>, l: File, g: File, c: File, s: seq<Loc>, mem: M)
    requires Seen(keep, l, g, c) && Lists(s, ABI, FUNC_RETURN, true, keep)
    ensures SameRets(St(c, mem), St(CopyAll(s, l, g), mem))
  {
    CopyAllAt(s, l, g);
  }

  // The file a callee sees has the arguments its caller set.
  lemma EntrySeen(keep: set<Loc>, c1: File, l1: File, g: File, stores: seq<Loc>,
                  keep': set<Loc>, start: seq<Loc>, junk: File) returns (c': File)
    requires Seen(keep, l1, g, c1)
    requires Lists(stores, ABI, CALL, true, keep) && Lists(start, ABI, FUNC_START, true, keep')
    ensures var g1 := CopyAll(stores, l1, g);
            SameArgs(c1, c') && Seen(keep', CopyAll(start, g1, junk), g1, c')
  {
    var g1 := CopyAll(stores, l1, g);
    CopyAllAt(stores, l1, g);
    CopyAllAt(start, g1, junk);
    var l' := CopyAll(start, g1, junk);
    c' := seq(64, k requires 0 <= k < 64 => if k in keep' then l'[k] else g1[k]);
  }

  // Behind a call the file seen has the callee's results and is the caller's elsewhere.
  lemma BackSeen<M>(keep: set<Loc>, c1: File, l1: File, g: File, loads: seq<Loc>, res: St<M>, y: St<M>) returns (c2: File)
    requires Seen(keep, l1, g, c1)
    requires Lists(loads, ABI, CALL_RETURNED, true, keep)
    requires SameRets(y, res) && SameSaved(c1, y.r)
    ensures Seen(keep, CopyAll(loads, res.r, l1), res.r, c2)
    ensures SameRets(y, St(c2, y.mem)) && (SP in keep ==> SameSaved(y.r, c2))
  {
    c2 := seq(64, k requires 0 <= k < 64 =>
      if IsRet(k) then y.r[k] else if k !in keep && IsArg(k) then res.r[k] else c1[k]);
    var l2 := CopyAll(loads, res.r, l1);
    forall k: Loc
      ensures if k in keep then l2[k] == c2[k] else IsArg(k) || IsRet(k) ==> res.r[k] == c2[k]
    {
      BackSeenAt(keep, c1, l1, g, loads, res, y, c2[k], k);
    }
    Disjoint();
    assert SP in keep ==> SameSaved(y.r, c2);
  }

  // Of the registers passed, only return registers and sp are not those of the callee.
  lemma Disjoint()
    ensures forall k: Loc :: IsSaved(k) ==> !IsRet(k)
    ensures forall k: Loc :: IsSaved(k) && IsArg(k) ==> k == SP
  {
  }

  lemma BackSeenAt<M>(keep: set<Loc>, c1: File, l1: File, g: File, loads: seq<Loc>, res: St<M>, y: St<M>, w: Word, k: Loc)
    requires Seen(keep, l1, g, c1)
    requires Lists(loads, ABI, CALL_RETURNED, true, keep) && SameRets(y, res)
    requires w == if IsRet(k) then y.r[k] else if k !in keep && IsArg(k) then res.r[k] else c1[k]
    ensures if k in keep then CopyAll(loads, res.r, l1)[k] == w else IsArg(k) || IsRet(k) ==> res.r[k] == w
  {
    CopyAllAt(loads, res.r, l1);
    hide CopyAll;
  }

  lemma {:induction false} MoreFuel<M>(p: Prog<M>, f: int, pc: nat, s: St<M>, n: nat, n': nat)
    requires n <= n' && RunG(p, f, pc, s, n).Some?
    ensures RunG(p, f, pc, s, n') == RunG(p, f, pc, s, n)
    decreases n
  {
    match p[f][pc] {
      case Op(_, _, _) =>
        var (r, mem) := DoOp(p[f][pc], s.r, s.mem);
        MoreFuel(p, f, pc + 1, St(r, mem), n - 1, n' - 1);
      case Branch(srcs, cond, to) =>
        MoreFuel(p, f, if cond(Reads(s.r, srcs)) then to else pc + 1, s, n - 1, n' - 1);
      case Call(callee, link, back) =>
        var t := St(Write(s.r, link, back), s.mem);
        MoreFuel(p, callee, 0, t, n - 1, n' - 1);
        if link != 0 { MoreFuel(p, f, pc + 1, RunG(p, callee, 0, t, n - 1).value, n - 1, n' - 1); }
      case Ret =>
    }
  }

  // A call returns, and then what is behind it.
  lemma CallReturns<M>(p: Prog<M>, f: int, pc: nat, s: St<M>, y: St<M>, x: St<M>)
    requires CallAt(p, f, pc)
    requires Returns(p, p[f][pc].callee, 0, St(Write(s.r, p[f][pc].link, p[f][pc].back), s.mem), y)
    requires if p[f][pc].link == 0 then x == y else Returns(p, f, pc + 1, y, x)
    ensures Returns(p, f, pc, s, x)
  {
    var i := p[f][pc];
    var t := St(Write(s.r, i.link, i.back), s.mem);
    var n: nat :| RunG(p, i.callee, 0, t, n) == Some(y);
    if i.link == 0 {
      assert RunG(p, f, pc, s, n + 1) == Some(x);
    } else {
      var m: nat :| RunG(p, f, pc + 1, y, m) == Some(x);
      MoreFuel(p, i.callee, 0, t, n, n + m);
      MoreFuel(p, f, pc + 1, y, m, n + m);
      assert RunG(p, f, pc, s, n + m + 1) == Some(x);
    }
  }

  lemma SameRetsTrans<M>(x: St<M>, y: St<M>, z: St<M>)
    requires SameRets(x, y) && SameRets(y, z)
    ensures SameRets(x, z) && SameRets(z, x)
  {
  }

  // One instruction that is not a call, on both sides.
  lemma StepReturns<M>(p: Prog<M>, f: int, pc: nat, s: St<M>, pc': nat, s': St<M>, x: St<M>)
    requires f in p && pc < |p[f]| && (p[f][pc].Op? || p[f][pc].Branch?)
    requires forall n: nat :: RunG(p, f, pc, s, n + 1) == RunG(p, f, pc', s', n)
    requires Returns(p, f, pc', s', x)
    ensures Returns(p, f, pc, s, x)
  {
    var n: nat :| RunG(p, f, pc', s', n) == Some(x);
    assert RunG(p, f, pc, s, n + 1) == Some(x);
  }

  // From the return of the callee, as it was entered, to the return the caller sees.
  lemma CalleeReturns<M(!new)>(p: Prog<M>, h: int, c': St<M>, c1: St<M>, y': St<M>) returns (y: St<M>)
    requires Convention(p) && h in p && c'.mem == c1.mem && SameArgs(c1.r, c'.r) && Returns(p, h, 0, c', y')
    ensures Returns(p, h, 0, c1, y) && SameRets(y', y) && SameSaved(c1.r, y.r)
  {
    assert ArgsOnly(p, h, c', c1, y');
    y :| Returns(p, h, 0, c1, y) && SameRets(y', y);
    assert Saves(p, h, c1, y);
  }

  lemma RestReturns<M(!new)>(p: Prog<M>, f: int, pc: nat, c2: St<M>, y: St<M>, x2: St<M>) returns (x: St<M>)
    requires Convention(p) && CallAt(p, f, pc) && SameRets(c2, y) && SameSaved(c2.r, y.r) && Returns(p, f, pc + 1, c2, x2)
    ensures Returns(p, f, pc + 1, y, x) && SameRets(x2, x)
  {
    assert ReadsBack(p, f, pc, c2, y, x2);
    x :| Returns(p, f, pc + 1, y, x) && SameRets(x2, x);
  }

  lemma {:induction false} AbiRun<M(!new)>(p: Prog<M>, q: HostProg<M>, keep: map<int, set<Loc>>, junk: Junk<M>,
                                           f: int, pc: nat, l: File, g: File, c: File, mem: M, n: nat) returns (x: St<M>)
    requires AbiLinked(keep, p, q) && Convention(p) && f in p && Seen(keep[f], l, g, c)
    requires RunL(q, junk, f, pc, l, St(g, mem), n).Some?
    ensures Returns(p, f, pc, St(c, mem), x) && SameRets(RunL(q, junk, f, pc, l, St(g, mem), n).value, x)
    decreases n, 0
  {
    hide Lists, CopyAll, Seen, Reads, Write, Convention, Returns, SameRets, SameSaved, SameArgs, KeepsSp, IsArg, IsRet;
    var i, h := p[f][pc], q[f].body[pc];
    assert InstrOk(ABI, true, keep[f], i, h);
    assert forall x :: x in Accessed(i) && x != 0 ==> x in keep[f];
    match i {
      case Op(rd, srcs, op) =>
        ReadsSeen(keep[f], l, g, c, srcs);
        var (w, mem') := op(Reads(c, srcs), mem);
        WriteSeen(keep[f], l, g, c, rd, w);
        x := AbiRun(p, q, keep, junk, f, pc + 1, Write(l, rd, w), g, Write(c, rd, w), mem', n - 1);
        StepReturns(p, f, pc, St(c, mem), pc + 1, St(Write(c, rd, w), mem'), x);
      case Branch(srcs, cond, to) =>
        ReadsSeen(keep[f], l, g, c, srcs);
        var pc' := if cond(Reads(c, srcs)) then to else pc + 1;
        x := AbiRun(p, q, keep, junk, f, pc', l, g, c, mem, n - 1);
        StepReturns(p, f, pc, St(c, mem), pc', St(c, mem), x);
      case Call(callee, link, back) =>
        x := AbiCall(p, q, keep, junk, f, pc, l, g, c, mem, n);
      case Ret =>
        x := St(c, mem);
        RetReturns(p, f, pc, x);
        ReturnSeen(keep[f], l, g, c, h.stores, mem);
        SameRetsSym(x, St(CopyAll(h.stores, l, g), mem));
    }
  }

  lemma RetReturns<M>(p: Prog<M>, f: int, pc: nat, s: St<M>)
    requires f in p && pc < |p[f]| && p[f][pc].Ret?
    ensures Returns(p, f, pc, s, s)
  {
    assert RunG(p, f, pc, s, 1) == Some(s);
  }

  lemma SameRetsSym<M>(x: St<M>, y: St<M>)
    requires SameRets(x, y)
    ensures SameRets(y, x)
  {
  }

  lemma KeptAtCall<M>(keep: set<Loc>, body: seq<GInstr<M>>, pc: nat)
    requires KeepsSp(keep, body) && pc < |body| && body[pc].Call?
    ensures body[pc].link != 0 ==> SP in keep
  {
  }

  // A call, on both sides.
  lemma {:induction false} AbiCall<M(!new)>(p: Prog<M>, q: HostProg<M>, keep: map<int, set<Loc>>, junk: Junk<M>,
                                            f: int, pc: nat, l: File, g: File, c: File, mem: M, n: nat) returns (x: St<M>)
    requires AbiLinked(keep, p, q) && Convention(p) && CallAt(p, f, pc) && Seen(keep[f], l, g, c) && n > 0
    requires RunL(q, junk, f, pc, l, St(g, mem), n).Some?
    ensures Returns(p, f, pc, St(c, mem), x) && SameRets(RunL(q, junk, f, pc, l, St(g, mem), n).value, x)
    decreases n - 1, 2
  {
    hide Lists, CopyAll, Seen, Reads, Write, Convention, Returns, SameRets, SameSaved, SameArgs, KeepsSp, IsArg, IsRet;
    var i, h := p[f][pc], q[f].body[pc];
    assert InstrOk(ABI, true, keep[f], i, h);
    assert i.link in Accessed(i);
    KeptAtCall(keep[f], p[f], pc);
    var l1, c1 := Write(l, i.link, i.back), Write(c, i.link, i.back);
    WriteSeen(keep[f], l, g, c, i.link, i.back);
    var g1 := CopyAll(h.stores, l1, g);
    var callee := i.callee;
    var j := junk(callee, St(g1, mem), n - 1);
    var c' := EntrySeen(keep[f], c1, l1, g, h.stores, keep[callee], q[callee].start, j);
    var y' := AbiRun(p, q, keep, junk, callee, 0, CopyAll(q[callee].start, g1, j), g1, c', mem, n - 1);
    var res := CallL(q, junk, callee, St(g1, mem), n - 1).value;
    var y := CalleeReturns(p, callee, St(c', mem), St(c1, mem), y');
    SameRetsTrans(res, y', y);
    var c2 := BackSeen(keep[f], c1, l1, g, h.loads, res, y);
    var l2 := CopyAll(h.loads, res.r, l1);
    assert res.mem == y.mem by { MemSame(res, y); }
    SameRetsSym(y, St(c2, y.mem));
    if i.link == 0 {
      x := y;
      ReturnSeen(keep[f], l2, res.r, c2, h.final, res.mem);
      SameRetsTrans(y, St(c2, y.mem), St(CopyAll(h.final, l2, res.r), res.mem));
    } else {
      var x2 := AbiRun(p, q, keep, junk, f, pc + 1, l2, res.r, c2, res.mem, n - 1);
      assert SameSaved(c2, y.r) by { SavedSym(y.r, c2); }
      x := RestReturns(p, f, pc, St(c2, res.mem), y, x2);
      SameRetsTrans(RunL(q, junk, f, pc, l, St(g, mem), n).value, x2, x);
    }
    CallReturns(p, f, pc, St(c, mem), y, x);
  }

  lemma SavedSym(a: File, b: File)
    requires SameSaved(a, b)
    ensures SameSaved(b, a)
  {
  }

  lemma MemSame<M>(x: St<M>, y: St<M>)
    requires SameRets(x, y)
    ensures x.mem == y.mem
  {
  }

  /** In ABI mode, under the calling convention: what a call returns in a0, a1, fa0,
      fa1 and in memory is what it returns with one global register file. */
  lemma AbiSound<M(!new)>(p: Prog<M>, q: HostProg<M>, keep: map<int, set<Loc>>, junk: Junk<M>, f: int, s: St<M>, n: nat) returns (x: St<M>)
    requires AbiLinked(keep, p, q) && Convention(p)
    requires CallL(q, junk, f, s, n).Some?
    ensures Returns(p, f, 0, s, x) && SameRets(CallL(q, junk, f, s, n).value, x)
  {
    hide Lists, CopyAll, Reads, Write, Convention, Returns, SameRets, SameSaved, KeepsSp;
    var j := junk(f, s, n);
    var l := CopyAll(q[f].start, s.r, j);
    CopyAllAt(q[f].start, s.r, j);
    var c := seq(64, k requires 0 <= k < 64 => if k in keep[f] then l[k] else s.r[k]);
    assert Seen(keep[f], l, s.r, c);
    assert SameArgs(s.r, c) by { EntryArgs(keep[f], q[f].start, s.r, l, c, j); }
    var x' := AbiRun(p, q, keep, junk, f, 0, l, s.r, c, s.mem, n);
    x := CalleeReturns(p, f, St(c, s.mem), s, x');
    SameRetsTrans(CallL(q, junk, f, s, n).value, x', x);
  }

  lemma EntryArgs(keep: set<Loc>, start: seq<Loc>, g: File, l: File, c: File, junk: File)
    requires Lists(start, ABI, FUNC_START, true, keep) && l == CopyAll(start, g, junk)
    requires forall k: Loc :: c[k] == if k in keep then l[k] else g[k]
    ensures SameArgs(g, c)
  {
    CopyAllAt(start, g, junk);
  }

  // ---- ABI mode, the other way ----

  ghost predicate LArgsOnly<M>(p: Prog<M>, f: int, s: St<M>, t: St<M>, n: nat) {
    s.mem == t.mem && SameArgs(s.r, t.r) && RunG(p, f, 0, s, n).Some? ==>
      RunG(p, f, 0, t, n).Some? && SameRets(RunG(p, f, 0, s, n).value, RunG(p, f, 0, t, n).value)
  }

  ghost predicate LReadsBack<M>(p: Prog<M>, f: int, pc: nat, s: St<M>, t: St<M>, n: nat) {
    SameRets(s, t) && SameSaved(s.r, t.r) && RunG(p, f, pc + 1, s, n).Some? ==>
      RunG(p, f, pc + 1, t, n).Some? && SameRets(RunG(p, f, pc + 1, s, n).value, RunG(p, f, pc + 1, t, n).value)
  }

  /** The calling convention kept step by step: the registers that may hold anything
      do not even change how long a function runs. */
  ghost predicate StepConvention<M(!new)>(p: Prog<M>) {
    && (forall f, s, t, n {:trigger LArgsOnly(p, f, s, t, n)} :: f in p ==> LArgsOnly(p, f, s, t, n))
    && (forall f, s, x {:trigger Saves(p, f, s, x)} :: f in p ==> Saves(p, f, s, x))
    && (forall f, pc, s, t, n {:trigger LReadsBack(p, f, pc, s, t, n)} :: CallAt(p, f, pc) ==> LReadsBack(p, f, pc, s, t, n))
  }

  lemma StepIsConvention<M(!new)>(p: Prog<M>)
    requires StepConvention(p)
    ensures Convention(p)
  {
    hide SameArgs, SameSaved, SameRets, RunG;
    forall f, s, t, x | f in p ensures ArgsOnly(p, f, s, t, x) {
      if s.mem == t.mem && SameArgs(s.r, t.r) && Returns(p, f, 0, s, x) {
        var n: nat :| RunG(p, f, 0, s, n) == Some(x);
        assert LArgsOnly(p, f, s, t, n);
        assert Returns(p, f, 0, t, RunG(p, f, 0, t, n).value);
      }
    }
    forall f, pc: nat, s, t, x | CallAt(p, f, pc) ensures ReadsBack(p, f, pc, s, t, x) {
      if SameRets(s, t) && SameSaved(s.r, t.r) && Returns(p, f, pc + 1, s, x) {
        var n: nat :| RunG(p, f, pc + 1, s, n) == Some(x);
        assert LReadsBack(p, f, pc, s, t, n);
        assert Returns(p, f, pc + 1, t, RunG(p, f, pc + 1, t, n).value);
      }
    }
  }

  // The step-by-step convention at a call.
  lemma CalleeSteps<M(!new)>(p: Prog<M>, h: int, c1: St<M>, c': St<M>, n: nat)
    requires StepConvention(p) && h in p && c'.mem == c1.mem && SameArgs(c1.r, c'.r) && RunG(p, h, 0, c1, n).Some?
    ensures RunG(p, h, 0, c', n).Some? && SameRets(RunG(p, h, 0, c1, n).value, RunG(p, h, 0, c', n).value)
    ensures SameSaved(c1.r, RunG(p, h, 0, c1, n).value.r)
  {
    hide SameArgs, SameSaved, SameRets, RunG;
    assert LArgsOnly(p, h, c1, c', n);
    assert Returns(p, h, 0, c1, RunG(p, h, 0, c1, n).value);
    assert Saves(p, h, c1, RunG(p, h, 0, c1, n).value);
  }

  lemma RestSteps<M(!new)>(p: Prog<M>, f: int, pc: nat, y: St<M>, c2: St<M>, n: nat)
    requires StepConvention(p) && CallAt(p, f, pc) && SameRets(y, c2) && SameSaved(y.r, c2.r) && RunG(p, f, pc + 1, y, n).Some?
    ensures RunG(p, f, pc + 1, c2, n).Some? && SameRets(RunG(p, f, pc + 1, y, n).value, RunG(p, f, pc + 1, c2, n).value)
  {
    hide SameArgs, SameSaved, SameRets, RunG;
    assert LReadsBack(p, f, pc, y, c2, n);
  }

  ghost predicate HostReturns<M>(r: Option<St<M>>, x: St<M>) {
    r.Some? && SameRets(x, r.value)
  }

  lemma {:induction false} AbiFollows<M(!new)>(p: Prog<M>, q: HostProg<M>, keep: map<int, set<Loc>>, junk: Junk<M>,
                                               f: int, pc: nat, l: File, g: File, c: File, mem: M, n: nat)
    requires AbiLinked(keep, p, q) && StepConvention(p) && f in p && Seen(keep[f], l, g, c)
    requires RunG(p, f, pc, St(c, mem), n).Some?
    ensures HostReturns(RunL(q, junk, f, pc, l, St(g, mem), n), RunG(p, f, pc, St(c, mem), n).value)
    decreases n, 0
  {
    hide Lists, CopyAll, Seen, Reads, Write, StepConvention, SameRets, SameSaved, SameArgs, KeepsSp, IsArg, IsRet;
    var i, h := p[f][pc], q[f].body[pc];
    assert InstrOk(ABI, true, keep[f], i, h);
    assert forall x :: x in Accessed(i) && x != 0 ==> x in keep[f];
    match i {
      case Op(rd, srcs, op) =>
        ReadsSeen(keep[f], l, g, c, srcs);
        var (w, mem') := op(Reads(c, srcs), mem);
        WriteSeen(keep[f], l, g, c, rd, w);
        AbiFollows(p, q, keep, junk, f, pc + 1, Write(l, rd, w), g, Write(c, rd, w), mem', n - 1);
      case Branch(srcs, cond, to) =>
        ReadsSeen(keep[f], l, g, c, srcs);
        AbiFollows(p, q, keep, junk, f, if cond(Reads(c, srcs)) then to else pc + 1, l, g, c, mem, n - 1);
      case Call(callee, link, back) =>
        AbiCallFollows(p, q, keep, junk, f, pc, l, g, c, mem, n);
      case Ret =>
        ReturnSeen(keep[f], l, g, c, h.stores, mem);
    }
  }

  // The callee returns, and behind the call the file seen has its results.
  lemma {:induction false} AbiCalleeFollows<M(!new)>(p: Prog<M>, q: HostProg<M>, keep: map<int, set<Loc>>, junk: Junk<M>,
                                                     f: int, pc: nat, l: File, g: File, c: File, mem: M, n: nat) returns (c2: File)
    requires AbiLinked(keep, p, q) && StepConvention(p) && CallAt(p, f, pc) && Seen(keep[f], l, g, c) && n > 0
    requires RunG(p, f, pc, St(c, mem), n).Some? && q[f].body[pc].HCall?
    ensures var i, h := p[f][pc], q[f].body[pc];
            var l1, y := Write(l, i.link, i.back), RunG(p, i.callee, 0, St(Write(c, i.link, i.back), mem), n - 1);
            var res := CallL(q, junk, i.callee, St(CopyAll(h.stores, l1, g), mem), n - 1);
            && y.Some? && res.Some? && res.value.mem == y.value.mem && SameRets(y.value, St(c2, y.value.mem))
            && Seen(keep[f], CopyAll(h.loads, res.value.r, l1), res.value.r, c2) && (i.link != 0 ==> SameSaved(y.value.r, c2))
    decreases n - 1, 1
  {
    hide Lists, CopyAll, Seen, Reads, Write, StepConvention, SameRets, SameSaved, SameArgs, KeepsSp, IsArg, IsRet;
    var i, h := p[f][pc], q[f].body[pc];
    assert InstrOk(ABI, true, keep[f], i, h);
    assert i.link in Accessed(i);
    KeptAtCall(keep[f], p[f], pc);
    var l1, c1 := Write(l, i.link, i.back), Write(c, i.link, i.back);
    WriteSeen(keep[f], l, g, c, i.link, i.back);
    var g1 := CopyAll(h.stores, l1, g);
    var callee := i.callee;
    var y := RunG(p, callee, 0, St(c1, mem), n - 1).value;
    var j := junk(callee, St(g1, mem), n - 1);
    var c' := EntrySeen(keep[f], c1, l1, g, h.stores, keep[callee], q[callee].start, j);
    CalleeSteps(p, callee, St(c1, mem), St(c', mem), n - 1);
    AbiFollows(p, q, keep, junk, callee, 0, CopyAll(q[callee].start, g1, j), g1, c', mem, n - 1);
    var res := CallL(q, junk, callee, St(g1, mem), n - 1).value;
    SameRetsTrans(y, RunG(p, callee, 0, St(c', mem), n - 1).value, res);
    c2 := BackSeen(keep[f], c1, l1, g, h.loads, res, y);
    MemSame(res, y);
  }

  lemma {:induction false} AbiCallFollows<M(!new)>(p: Prog<M>, q: HostProg<M>, keep: map<int, set<Loc>>, junk: Junk<M>,
                                                   f: int, pc: nat, l: File, g: File, c: File, mem: M, n: nat)
    requires AbiLinked(keep, p, q) && StepConvention(p) && CallAt(p, f, pc) && Seen(keep[f], l, g, c) && n > 0
    requires RunG(p, f, pc, St(c, mem), n).Some?
    ensures HostReturns(RunL(q, junk, f, pc, l, St(g, mem), n), RunG(p, f, pc, St(c, mem), n).value)
    decreases n - 1, 2
  {
    hide Lists, CopyAll, Seen, Reads, Write, StepConvention, SameRets, SameSaved, SameArgs, KeepsSp, IsArg, IsRet;
    var i, h := p[f][pc], q[f].body[pc];
    assert InstrOk(ABI, true, keep[f], i, h);
    var c2 := AbiCalleeFollows(p, q, keep, junk, f, pc, l, g, c, mem, n);
    var l1 := Write(l, i.link, i.back);
    var y := RunG(p, i.callee, 0, St(Write(c, i.link, i.back), mem), n - 1).value;
    var res := CallL(q, junk, i.callee, St(CopyAll(h.stores, l1, g), mem), n - 1).value;
    var l2 := CopyAll(h.loads, res.r, l1);
    if i.link == 0 {
      ReturnSeen(keep[f], l2, res.r, c2, h.final, res.mem);
      SameRetsTrans(y, St(c2, y.mem), St(CopyAll(h.final, l2, res.r), res.mem));
    } else {
      RestSteps(p, f, pc, y, St(c2, res.mem), n - 1);
      AbiFollows(p, q, keep, junk, f, pc + 1, l2, res.r, c2, res.mem, n - 1);
      SameRetsTrans(RunG(p, f, pc + 1, y, n - 1).value, RunG(p, f, pc + 1, St(c2, res.mem), n - 1).value,
                    RunL(q, junk, f, pc + 1, l2, res, n - 1).value);
    }
  }

  /** When the convention is kept step by step, a call in ABI mode returns exactly
      when it returns with one global register file, and with the same results. */
  lemma AbiExact<M(!new)>(p: Prog<M>, q: HostProg<M>, keep: map<int, set<Loc>>, junk: Junk<M>, f: int, s: St<M>)
    requires AbiLinked(keep, p, q) && StepConvention(p)
    ensures (exists n: nat :: CallL(q, junk, f, s, n).Some?) <==> (exists n: nat :: RunG(p, f, 0, s, n).Some?)
    ensures forall n: nat, m: nat :: CallL(q, junk, f, s, n).Some? && RunG(p, f, 0, s, m).Some? ==>
              SameRets(CallL(q, junk, f, s, n).value, RunG(p, f, 0, s, m).value)
  {
    hide StepConvention, AbiLinked, RunG, CallL, SameRets;
    StepIsConvention(p);
    if n: nat :| CallL(q, junk, f, s, n).Some? {
      var x := AbiSound(p, q, keep, junk, f, s, n);
      var m: nat :| RunG(p, f, 0, s, m) == Some(x);
      assert RunG(p, f, 0, s, m).Some?;
    }
    if n: nat :| RunG(p, f, 0, s, n).Some? {
      AbiEntryFollows(p, q, keep, junk, f, s, n);
    }
    forall n: nat, m: nat | CallL(q, junk, f, s, n).Some? && RunG(p, f, 0, s, m).Some?
      ensures SameRets(CallL(q, junk, f, s, n).value, RunG(p, f, 0, s, m).value)
    {
      var x := AbiSound(p, q, keep, junk, f, s, n);
      var k: nat :| RunG(p, f, 0, s, k) == Some(x);
      MoreFuel(p, f, 0, s, k, k + m);
      MoreFuel(p, f, 0, s, m, k + m);
    }
  }

  lemma AbiEntryFollows<M(!new)>(p: Prog<M>, q: HostProg<M>, keep: map<int, set<Loc>>, junk: Junk<M>, f: int, s: St<M>, n: nat)
    requires AbiLinked(keep, p, q) && StepConvention(p) && RunG(p, f, 0, s, n).Some?
    ensures CallL(q, junk, f, s, n).Some?
  {
    hide Lists, CopyAll, Reads, Write, StepConvention, SameRets, SameSaved, KeepsSp;
    var j := junk(f, s, n);
    var l := CopyAll(q[f].start, s.r, j);
    CopyAllAt(q[f].start, s.r, j);
    var c := seq(64, k requires 0 <= k < 64 => if k in keep[f] then l[k] else s.r[k]);
    assert Seen(keep[f], l, s.r, c);
    assert SameArgs(s.r, c) by { EntryArgs(keep[f], q[f].start, s.r, l, c, j); }
    CalleeSteps(p, f, s, St(c, s.mem), n);
    AbiFollows(p, q, keep, junk, f, 0, l, s.r, c, s.mem, n);
  }
}

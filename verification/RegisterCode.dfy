/** The code that keeps local register files in step: emission of the copies where
    functions meet, and the removal of the copies nobody needs. */
module RegisterCode {
  import opened Basics
  import opened Guest
  import opened Registers

  ghost function AllRegs(): set<Loc> {
    Cleaned({}, 0)
  }

  // The registers up to `n` that are copied at a point.
  ghost predicate ListsTo(s: seq<Loc>, mode: Mode, point: Point, syncF: bool, n: int) {
    forall k: Loc :: k in s <==> InSync(mode, point, syncF, k) && k < n
  }

  function Without(s: seq<Loc>, k: Loc): seq<Loc> {
    if s == [] then []
    else if s[0] == k then Without(s[1..], k)
    else [s[0]] + Without(s[1..], k)
  }

  lemma {:induction false} WithoutHas(s: seq<Loc>, k: Loc, x: Loc)
    ensures x in Without(s, k) <==> x in s && x != k
  {
    if s != [] {
      WithoutHas(s[1..], k, x);
      assert x in s <==> x == s[0] || x in s[1..];
    }
  }

  lemma WithoutLists(s: seq<Loc>, mode: Mode, point: Point, syncF: bool, keep: set<Loc>, k: Loc)
    requires Lists(s, mode, point, syncF, keep)
    ensures Lists(Without(s, k), mode, point, syncF, keep - {k})
  {
    forall x: Loc ensures x in Without(s, k) <==> x in s && x != k {
      WithoutHas(s, k, x);
    }
  }

  function CleanInstr<M>(h: HInstr<M>, k: Loc): HInstr<M> {
    match h
    case HCall(callee, link, back, stores, loads, final) =>
      HCall(callee, link, back, Without(stores, k), Without(loads, k), Without(final, k))
    case HRet(stores) => HRet(Without(stores, k))
    case _ => h
  }

  lemma CleanInstrOk<M>(mode: Mode, syncF: bool, keep: set<Loc>, i: GInstr<M>, h: HInstr<M>, k: Loc)
    requires InstrOk(mode, syncF, keep, i, h)
    ensures InstrOk(mode, syncF, keep - {k}, i, CleanInstr(h, k))
  {
    hide Lists, Without;
    match i {
      case Call(_, link, _) =>
        WithoutLists(h.stores, mode, CALL, syncF, keep, k);
        WithoutLists(h.loads, mode, CALL_RETURNED, syncF, keep, k);
        if link == 0 { WithoutLists(h.final, mode, FUNC_RETURN, syncF, keep, k); }
      case Ret => WithoutLists(h.stores, mode, FUNC_RETURN, syncF, keep, k);
      case _ =>
    }
  }

  class Emitter<!M> {
    const mode: Mode
    const syncF: bool
    var start: seq<Loc>
    var body: seq<HInstr<M>>
    var access: set<Loc>

    constructor (mode: Mode, syncF: bool)
      ensures this.mode == mode && this.syncF == syncF && body == [] && access == {}
    {
      this.mode, this.syncF, start, body, access := mode, syncF, [], [], {};
    }

    /** The copies made at `point`: x1 to x31, then f0 to f31 when they are synchronised. */
    method SyncRegisters(point: Point) returns (s: seq<Loc>)
      ensures Lists(s, mode, point, syncF, AllRegs())
    {
      s := [];
      for i := 1 to NUM
        invariant ListsTo(s, mode, point, syncF, i)
      {
        if SyncReg(mode, point, false, true, i) { s := s + [i]; }
      }
      for i := 0 to NUM
        invariant ListsTo(s, mode, point, syncF, NUM + i)
      {
        if syncF && SyncReg(mode, point, false, false, i) { s := s + [NUM + i]; }
      }
    }

    /** The code so far is right for the instructions `done`. */
    ghost predicate Emitted(done: seq<GInstr<M>>)
      reads this
    {
      && Lists(start, mode, FUNC_START, syncF, AllRegs())
      && |body| == |done|
      && (forall pc :: 0 <= pc < |done| ==> InstrOk(mode, syncF, AllRegs(), done[pc], body[pc]))
      && (forall x :: x in access <==> exists pc :: 0 <= pc < |done| && x in Accessed(done[pc]))
    }

    // The code of one more instruction.
    method Append(h: HInstr<M>, touched: set<Loc>, ghost done: seq<GInstr<M>>, ghost i: GInstr<M>)
      requires Emitted(done) && InstrOk(mode, syncF, AllRegs(), i, h) && touched == Accessed(i)
      modifies this
      ensures Emitted(done + [i])
    {
      hide Lists, InstrOk, Accessed, AllRegs;
      body := body + [h];
      access := access + touched;
      forall x | x in access ensures exists pc :: 0 <= pc < |done + [i]| && x in Accessed((done + [i])[pc]) {
        if x in touched {
          assert x in Accessed((done + [i])[|done|]);
        } else {
          var pc :| 0 <= pc < |done| && x in Accessed(done[pc]);
          assert (done + [i])[pc] == done[pc];
        }
      }
    }

    /** A call: link, store, call, load; a tail call returns as well. */
    method HandleCall(callee: int, link: Loc, back: Word, ghost done: seq<GInstr<M>>)
      requires Emitted(done)
      modifies this
      ensures Emitted(done + [Call(callee, link, back)])
    {
      hide Lists, AllRegs;
      var stores := SyncRegisters(CALL);
      var loads := SyncRegisters(CALL_RETURNED);
      var final := [];
      if link == 0 { final := SyncRegisters(FUNC_RETURN); }
      Append(HCall(callee, link, back, stores, loads, final), {link}, done, Call(callee, link, back));
    }

    method Translate(guest: seq<GInstr<M>>)
      requires body == [] && access == {}
      modifies this
      ensures Emitted(guest)
    {
      hide Lists, AllRegs;
      start := SyncRegisters(FUNC_START);
      for i := 0 to |guest|
        invariant Emitted(guest[..i])
      {
        match guest[i] {
          case Op(rd, srcs, op) => Append(HOp(rd, srcs, op), {rd} + (set x | x in srcs), guest[..i], guest[i]);
          case Branch(srcs, cond, to) => Append(HBranch(srcs, cond, to), (set x | x in srcs), guest[..i], guest[i]);
          case Call(callee, link, back) => HandleCall(callee, link, back, guest[..i]);
          case Ret =>
            var stores := SyncRegisters(FUNC_RETURN);
            Append(HRet(stores), {}, guest[..i], guest[i]);
        }
        assert guest[..i + 1] == guest[..i] + [guest[i]];
      }
      assert guest[..|guest|] == guest;
    }

    /** Remove every copy of one register. */
    method CleanReg(k: Loc, ghost guest: seq<GInstr<M>>, ghost keep: set<Loc>)
      requires Translated(mode, syncF, keep, guest, HostFn(start, body))
      modifies this`start, this`body
      ensures Translated(mode, syncF, keep - {k}, guest, HostFn(start, body))
    {
      hide Lists, InstrOk, Without, CleanInstr;
      WithoutLists(start, mode, FUNC_START, syncF, keep, k);
      start := Without(start, k);
      ghost var was := body;
      for pc := 0 to |body|
        invariant |body| == |was| == |guest| && start == Without(old(start), k)
        invariant forall j :: 0 <= j < pc ==> InstrOk(mode, syncF, keep - {k}, guest[j], body[j])
        invariant forall j :: pc <= j < |was| ==> body[j] == was[j]
      {
        CleanInstrOk(mode, syncF, keep, guest[pc], body[pc], k);
        body := body[pc := CleanInstr(body[pc], k)];
      }
    }

    /** Remove the copies of the registers the function never touches. */
    method CleanRegs(ghost guest: seq<GInstr<M>>)
      requires Emitted(guest)
      modifies this`start, this`body
      ensures Translated(mode, syncF, Cleaned(access, 64), guest, HostFn(start, body))
      ensures Covers(Cleaned(access, 64), guest)
    {
      hide Translated;
      assert Translated(mode, syncF, Cleaned(access, 1), guest, HostFn(start, body)) by { CleanStart(guest); }
      for k := 1 to 64
        invariant Translated(mode, syncF, Cleaned(access, k), guest, HostFn(start, body))
      {
        if k !in access { CleanReg(k, guest, Cleaned(access, k)); }
        assert Cleaned(access, k + 1) == if k in access then Cleaned(access, k) else Cleaned(access, k) - {k};
      }
    }

    lemma CleanStart(guest: seq<GInstr<M>>)
      requires Emitted(guest)
      ensures Translated(mode, syncF, Cleaned(access, 1), guest, HostFn(start, body))
    {
      assert Cleaned(access, 1) == AllRegs();
    }
  }

  // The registers that still have sync code when those below `n` were looked at.
  ghost function Cleaned(access: set<Loc>, n: int): set<Loc> {
    set k: Loc | 0 <= k < 64 && (k in access || k == 0 || n <= k)
  }
}

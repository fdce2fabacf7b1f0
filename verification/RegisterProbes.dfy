/** Two programs for every register that show which registers ABI mode hands over: one passes
    a value in the register, the other returns it there. */
module RegisterProbes {
  import opened Basics
  import opened Guest
  import opened Registers

  const A0: Loc := 10

  function Seven(v: seq<Word>, m: nat): (Word, nat) { (7, m) }
  function Zero(v: seq<Word>, m: nat): (Word, nat) { (0, m) }
  function Copy(v: seq<Word>, m: nat): (Word, nat) { (if |v| == 1 then v[0] else 0, m) }

  // f: k := 7; call g; return     g: a0 := k; return
  function PassProg(k: Loc, link: Loc, back: Word): Prog<nat> {
    map[0 := [Op(k, [], Seven), Call(1, link, back), Ret], 1 := [Op(A0, [k], Copy), Ret]]
  }

  // f: k := 0; call g; a0 := k; return     g: k := 7; return
  function BackProg(k: Loc, link: Loc, back: Word): Prog<nat> {
    map[0 := [Op(k, [], Zero), Call(1, link, back), Op(A0, [k], Copy), Ret], 1 := [Op(k, [], Seven), Ret]]
  }

  // ---- a value passed ----

  lemma PassGuest(k: Loc, link: Loc, back: Word, s: St<nat>)
    requires k != 0 && k != link
    ensures var r := RunG(PassProg(k, link, back), 0, 0, s, 4); r.Some? && r.value.r[A0] == 7
  {
    var p := PassProg(k, link, back);
    var t := St(Write(Write(s.r, k, 7), link, back), s.mem);
    assert Reads(t.r, [k]) == [7];
    var u := St(Write(t.r, A0, 7), s.mem);
    assert RunG(p, 1, 1, u, 1) == Some(u);
    assert RunG(p, 1, 0, t, 2) == Some(u);
    assert RunG(p, 0, 2, u, 2) == Some(u);
    assert RunG(p, 0, 1, St(Write(s.r, k, 7), s.mem), 3) == Some(u);
  }

  // The callee: what it finds in k is what the global file holds, or what its own file
  // started with.
  lemma PassCallee(k: Loc, link: Loc, back: Word, q: HostProg<nat>, keep: map<int, set<Loc>>, junk: Junk<nat>, t: St<nat>)
    requires Linked(ABI, true, keep, PassProg(k, link, back), q)
    ensures var r := CallL(q, junk, 1, t, 2);
            r.Some? && r.value.r[A0] == Read(if IsArg(k) then t.r else junk(1, t, 2), k)
  {
    var p := PassProg(k, link, back);
    var body := p[1];
    assert Translated(ABI, true, keep[1], body, q[1]) && Covers(keep[1], body);
    assert InstrOk(ABI, true, keep[1], body[0], q[1].body[0]) && InstrOk(ABI, true, keep[1], body[1], q[1].body[1]);
    assert A0 in Accessed(body[0]) && k in Accessed(body[0]);
    hide Linked, Translated, Covers;
    var j := junk(1, t, 2);
    var l := CopyAll(q[1].start, t.r, j);
    CopyAllAt(q[1].start, t.r, j);
    CopiesAreConvention(k);
    CopiesAreConvention(A0);
    assert Reads(l, [k]) == [Read(l, k)];
    var l' := Write(l, A0, Read(l, k));
    var stores := q[1].body[1].stores;
    CopyAllAt(stores, l', t.r);
    assert A0 in stores;
    assert RunL(q, junk, 1, 1, l', t, 1) == Some(St(CopyAll(stores, l', t.r), t.mem));
  }

  lemma PassCode(k: Loc, link: Loc, back: Word, q: HostProg<nat>, keep: map<int, set<Loc>>)
    requires Linked(ABI, true, keep, PassProg(k, link, back), q)
    ensures 0 in q && |q[0].body| == 3 && q[0].body[0] == HOp(k, [], Seven) && q[0].body[2].HRet?
    ensures var h := q[0].body[1];
            && h.HCall? && h.callee == 1 && h.link == link && h.back == back && (k in h.stores <==> k != 0 && IsArg(k))
            && (A0 in h.loads <==> A0 in if link == 0 then h.final else q[0].body[2].stores)
  {
    var body := PassProg(k, link, back)[0];
    assert Translated(ABI, true, keep[0], body, q[0]) && Covers(keep[0], body);
    assert forall pc :: 0 <= pc < 3 ==> InstrOk(ABI, true, keep[0], body[pc], q[0].body[pc]);
    assert k in Accessed(body[0]);
    CopiesAreConvention(k);
    CopiesAreConvention(A0);
  }

  // The caller from its call on, with the register set in its local file.
  lemma PassFromCall(k: Loc, link: Loc, back: Word, q: HostProg<nat>, keep: map<int, set<Loc>>, junk: Junk<nat>, l: File, s: St<nat>) returns (t: St<nat>)
    requires Linked(ABI, true, keep, PassProg(k, link, back), q) && k != link
    ensures var r := RunL(q, junk, 0, 1, Write(l, k, 7), s, 3);
            0 in q && r.Some? && r.value.r[A0] == Read(if IsArg(k) then t.r else junk(1, t, 2), k) && (IsArg(k) ==> t.r[k] == 7)
  {
    PassCode(k, link, back, q, keep);
    var h := q[0].body[1];
    var l1 := Write(Write(l, k, 7), link, back);
    t := St(CopyAll(h.stores, l1, s.r), s.mem);
    CopyAllAt(h.stores, l1, s.r);
    PassCallee(k, link, back, q, keep, junk, t);
    hide Linked, CopyAll, CallL;
    var u := CallL(q, junk, 1, t, 2).value;
    var l2 := CopyAll(h.loads, u.r, l1);
    CopyAllAt(h.loads, u.r, l1);
    var stores := if link == 0 then h.final else q[0].body[2].stores;
    CopyAllAt(stores, l2, u.r);
    var v := St(CopyAll(stores, l2, u.r), u.mem);
    if link != 0 { assert RunL(q, junk, 0, 2, l2, u, 2) == Some(v); }
    assert RunL(q, junk, 0, 1, Write(l, k, 7), s, 3) == Some(v);
  }

  lemma PassRun(k: Loc, link: Loc, back: Word, q: HostProg<nat>, keep: map<int, set<Loc>>, junk: Junk<nat>, s: St<nat>) returns (t: St<nat>)
    requires Linked(ABI, true, keep, PassProg(k, link, back), q) && k != link
    ensures var r := CallL(q, junk, 0, s, 4);
            r.Some? && r.value.r[A0] == Read(if IsArg(k) then t.r else junk(1, t, 2), k) && (IsArg(k) ==> t.r[k] == 7)
  {
    PassCode(k, link, back, q, keep);
    hide Linked, CopyAll;
    var l := CopyAll(q[0].start, s.r, junk(0, s, 4));
    t := PassFromCall(k, link, back, q, keep, junk, l, s);
    assert RunL(q, junk, 0, 0, l, s, 4) == RunL(q, junk, 0, 1, Write(l, k, 7), s, 3);
  }

  /** A callee gets what its caller put into a register, whatever its own local file starts
      with, if and only if that is an argument register of the convention. */
  lemma PassedExactly(k: Loc, link: Loc, back: Word, q: HostProg<nat>, keep: map<int, set<Loc>>, s: St<nat>)
    requires Linked(ABI, true, keep, PassProg(k, link, back), q) && k != link
    ensures (forall junk: Junk<nat> :: CallL(q, junk, 0, s, 4).Some? && CallL(q, junk, 0, s, 4).value.r[A0] == 7) <==> IsArg(k)
  {
    hide Linked, CallL;
    if IsArg(k) {
      forall junk: Junk<nat>
        ensures CallL(q, junk, 0, s, 4).Some? && CallL(q, junk, 0, s, 4).value.r[A0] == 7
      {
        var t := PassRun(k, link, back, q, keep, junk, s);
      }
    } else {
      var zeros: File := seq(64, i => 0);
      var junk: Junk<nat> := (f, t, n) => zeros;
      var t := PassRun(k, link, back, q, keep, junk, s);
      assert CallL(q, junk, 0, s, 4).value.r[A0] == 0;
    }
  }

  // ---- a value returned ----

  lemma BackGuest(k: Loc, link: Loc, back: Word, s: St<nat>)
    requires k != 0 && link != 0
    ensures var r := RunG(BackProg(k, link, back), 0, 0, s, 5); r.Some? && r.value.r[A0] == 7
  {
    var p := BackProg(k, link, back);
    var t := St(Write(Write(s.r, k, 0), link, back), s.mem);
    var u := St(Write(t.r, k, 7), s.mem);
    assert RunG(p, 1, 1, u, 2) == Some(u);
    assert RunG(p, 1, 0, t, 3) == Some(u);
    assert Reads(u.r, [k]) == [7];
    var v := St(Write(u.r, A0, 7), s.mem);
    assert RunG(p, 0, 3, v, 2) == Some(v);
    assert RunG(p, 0, 2, u, 3) == Some(v);
    assert RunG(p, 0, 1, St(Write(s.r, k, 0), s.mem), 4) == Some(v);
  }

  lemma BackCallee(k: Loc, link: Loc, back: Word, q: HostProg<nat>, keep: map<int, set<Loc>>, junk: Junk<nat>, t: St<nat>)
    requires Linked(ABI, true, keep, BackProg(k, link, back), q)
    ensures var r := CallL(q, junk, 1, t, 3);
            r.Some? && (IsRet(k) ==> r.value.r[k] == 7)
  {
    var body := BackProg(k, link, back)[1];
    assert Translated(ABI, true, keep[1], body, q[1]) && Covers(keep[1], body);
    assert InstrOk(ABI, true, keep[1], body[0], q[1].body[0]) && InstrOk(ABI, true, keep[1], body[1], q[1].body[1]);
    assert k in Accessed(body[0]);
    hide Linked, Translated, Covers;
    var l := CopyAll(q[1].start, t.r, junk(1, t, 3));
    var l' := Write(l, k, 7);
    var stores := q[1].body[1].stores;
    CopyAllAt(stores, l', t.r);
    CopiesAreConvention(k);
    assert RunL(q, junk, 1, 1, l', t, 2) == Some(St(CopyAll(stores, l', t.r), t.mem));
  }

  lemma BackCode(k: Loc, link: Loc, back: Word, q: HostProg<nat>, keep: map<int, set<Loc>>)
    requires Linked(ABI, true, keep, BackProg(k, link, back), q) && link != 0
    ensures 0 in q && |q[0].body| == 4 && q[0].body[0] == HOp(k, [], Zero) && q[0].body[2] == HOp(A0, [k], Copy)
    ensures var h, r := q[0].body[1], q[0].body[3];
            && h.HCall? && h.callee == 1 && h.link == link && h.back == back
            && (k in h.loads <==> k != 0 && IsRet(k)) && r.HRet? && A0 in r.stores
  {
    var body := BackProg(k, link, back)[0];
    assert Translated(ABI, true, keep[0], body, q[0]) && Covers(keep[0], body);
    assert forall pc :: 0 <= pc < 4 ==> InstrOk(ABI, true, keep[0], body[pc], q[0].body[pc]);
    assert k in Accessed(body[0]) && A0 in Accessed(body[2]);
    CopiesAreConvention(k);
    CopiesAreConvention(A0);
  }

  // The caller behind its call, with the register in its local file.
  lemma BackRest(k: Loc, link: Loc, back: Word, q: HostProg<nat>, keep: map<int, set<Loc>>, junk: Junk<nat>, l: File, u: St<nat>)
    requires Linked(ABI, true, keep, BackProg(k, link, back), q) && link != 0
    ensures var r := RunL(q, junk, 0, 2, l, u, 3);
            0 in q && r.Some? && r.value.r[A0] == Read(l, k)
  {
    BackCode(k, link, back, q, keep);
    hide Linked, CopyAll;
    assert Reads(l, [k]) == [Read(l, k)];
    var l' := Write(l, A0, Read(l, k));
    var stores := q[0].body[3].stores;
    CopyAllAt(stores, l', u.r);
    assert RunL(q, junk, 0, 3, l', u, 2) == Some(St(CopyAll(stores, l', u.r), u.mem));
  }

  /** A caller gets what a function left in a register, whatever the local files start with,
      if and only if that is a result register of the convention; otherwise it finds what it
      had there itself. */
  lemma ReturnedExactly(k: Loc, link: Loc, back: Word, q: HostProg<nat>, keep: map<int, set<Loc>>, junk: Junk<nat>, s: St<nat>)
    requires Linked(ABI, true, keep, BackProg(k, link, back), q) && link != 0 && k != link
    ensures var r := CallL(q, junk, 0, s, 5);
            r.Some? && r.value.r[A0] == if IsRet(k) then 7 else 0
  {
    BackCode(k, link, back, q, keep);
    var h := q[0].body[1];
    var l := CopyAll(q[0].start, s.r, junk(0, s, 5));
    var l0 := Write(l, k, 0);
    var l1 := Write(l0, link, back);
    var t := St(CopyAll(h.stores, l1, s.r), s.mem);
    BackCallee(k, link, back, q, keep, junk, t);
    hide Linked, CopyAll;
    var u := CallL(q, junk, 1, t, 3).value;
    var l2 := CopyAll(h.loads, u.r, l1);
    CopyAllAt(h.loads, u.r, l1);
    BackRest(k, link, back, q, keep, junk, l2, u);
    var v := RunL(q, junk, 0, 2, l2, u, 3);
    assert RunL(q, junk, 0, 1, l0, s, 4) == v;
    assert RunL(q, junk, 0, 0, l, s, 5) == v;
  }
}

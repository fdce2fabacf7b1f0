/** The relocation cursor: relocations are handed out at the addresses they belong to,
    and a call relocation is split into a pair for the two instructions of the call. */
module Relocation {
  import opened Basics

  datatype RType =
    | HI20 | LO12 | PCREL_HI20 | CALL | BRANCH | JAL | RELAX
    | PROXY_CALL_HI | PROXY_CALL_LO

  datatype Reloc = Reloc(offset: int, rtype: RType, sym: string, hiPC: int)

  /** The list is sorted by offset, with at most one entry per offset other than RELAX,
      at instruction addresses, and none at the second instruction of a call. */
  ghost predicate WellFormed(rs: seq<Reloc>) {
    && (forall i, j :: 0 <= i < j < |rs| ==> rs[i].offset <= rs[j].offset)
    && (forall i, j :: 0 <= i < j < |rs| && !rs[i].rtype.RELAX? && !rs[j].rtype.RELAX? ==> rs[i].offset != rs[j].offset)
    && (forall i, j :: 0 <= i < |rs| && 0 <= j < |rs| && rs[i].rtype.CALL? && !rs[j].rtype.RELAX? ==> rs[j].offset != rs[i].offset + 4)
    && (forall i :: 0 <= i < |rs| ==> 0 <= rs[i].offset && rs[i].offset % 4 == 0 && !IsProxy(rs[i].rtype))
  }

  predicate IsProxy(t: RType) {
    t.PROXY_CALL_HI? || t.PROXY_CALL_LO?
  }

  ghost predicate Entry(rs: seq<Reloc>, i: int, a: int) {
    0 <= i < |rs| && rs[i].offset == a && !rs[i].rtype.RELAX?
  }

  /** The entry for the address `a`. */
  ghost function EntryAt(rs: seq<Reloc>, a: int): Option<Reloc> {
    if i :| Entry(rs, i, a) then Some(rs[i]) else None
  }

  lemma EntryUnique(rs: seq<Reloc>, i: int, a: int)
    requires WellFormed(rs) && Entry(rs, i, a)
    ensures EntryAt(rs, a) == Some(rs[i])
  {
    var j :| Entry(rs, j, a) && EntryAt(rs, a) == Some(rs[j]);
  }

  lemma NoneBehindCall(rs: seq<Reloc>, i: int)
    requires WellFormed(rs) && 0 <= i < |rs| && rs[i].rtype.CALL?
    ensures EntryAt(rs, rs[i].offset + 4).None?
  {
    var a := rs[i].offset + 4;
    forall j | 0 <= j < |rs| ensures !Entry(rs, j, a) {
      assert rs[j].rtype.RELAX? || rs[j].offset != a;
    }
  }

  function Hi(c: Reloc): Reloc { c.(rtype := PROXY_CALL_HI) }
  function Lo(c: Reloc): Reloc { c.(rtype := PROXY_CALL_LO, hiPC := c.offset, offset := c.offset + INSTRUCTION_SIZE) }

  ghost predicate CallAt(rs: seq<Reloc>, a: int) {
    EntryAt(rs, a).Some? && EntryAt(rs, a).value.rtype.CALL?
  }

  /** What belongs to the address `a` when the addresses before it were served one
      instruction after the other: its own entry, the high part of its own call, or the
      low part of the call before it. */
  ghost function Due(rs: seq<Reloc>, a: int, first: int): Option<Reloc> {
    if CallAt(rs, a) then Some(Hi(EntryAt(rs, a).value))
    else if EntryAt(rs, a).Some? then EntryAt(rs, a)
    else if first <= a - 4 && CallAt(rs, a - 4) then Some(Lo(EntryAt(rs, a - 4).value))
    else None
  }

  function Drop(ps: seq<Reloc>, a: int): seq<Reloc> {
    if ps != [] && ps[0].offset < a then Drop(ps[1..], a) else ps
  }

  class SBTRelocation {
    const relocs: seq<Reloc>
    var ri: nat
    var cur: Option<Reloc>
    var proxyRelocs: seq<Reloc>
    var curP: Option<Reloc>

    ghost predicate Valid()
      reads this
    {
      && ri <= |relocs|
      && cur == (if ri == |relocs| then None else Some(relocs[ri]))
      && (ri < |relocs| ==> !relocs[ri].rtype.RELAX?)
      && curP == (if proxyRelocs == [] then None else Some(proxyRelocs[0]))
    }

    /** The entries up to the address `q` are behind the cursor. */
    ghost predicate Past(q: int)
      reads this
    {
      && Valid()
      && (forall i :: 0 <= i < ri && i < |relocs| && !relocs[i].rtype.RELAX? ==> relocs[i].offset <= q)
      && (ri < |relocs| ==> q < relocs[ri].offset)
    }

    constructor (relocs: seq<Reloc>)
      requires WellFormed(relocs)
      ensures this.relocs == relocs && Past(-1) && proxyRelocs == []
    {
      this.relocs := relocs;
      ri, cur, proxyRelocs, curP := 0, None, [], None;
      new;
      NextReloc(true);
    }

    /** Go to the next entry that is not RELAX. */
    method NextReloc(init: bool)
      requires proxyRelocs == [] ==> curP == None
      requires proxyRelocs != [] ==> curP == Some(proxyRelocs[0])
      requires init || ri < |relocs|
      requires ri <= |relocs|
      modifies this`ri, this`cur
      ensures Valid() && ri >= old(ri) + (if init then 0 else 1)
      ensures forall i :: old(ri) + (if init then 0 else 1) <= i < ri ==> relocs[i].rtype.RELAX?
      decreases |relocs| - ri, init
    {
      if init {
        cur := if ri == |relocs| then None else Some(relocs[ri]);
      } else {
        ri := ri + 1;
        cur := if ri != |relocs| then Some(relocs[ri]) else None;
      }
      if cur.Some? && cur.value.rtype.RELAX? { NextReloc(false); }
    }

    method NextPReloc()
      requires Valid() && proxyRelocs != []
      modifies this`proxyRelocs, this`curP
      ensures Valid() && proxyRelocs == old(proxyRelocs)[1..]
    {
      proxyRelocs := proxyRelocs[1..];
      curP := if proxyRelocs != [] then Some(proxyRelocs[0]) else None;
    }

    // Leave the entries for earlier addresses behind.
    method SkipTo(addr: int, ghost q: int)
      requires WellFormed(relocs) && Past(q) && q <= addr
      modifies this
      ensures Valid() && proxyRelocs == Drop(old(proxyRelocs), addr)
      ensures forall i :: 0 <= i < ri && i < |relocs| && !relocs[i].rtype.RELAX? ==> relocs[i].offset < addr || relocs[i].offset <= q
      ensures ri < |relocs| ==> addr <= relocs[ri].offset && q < relocs[ri].offset
    {
      while cur.Some? && addr > cur.value.offset
        invariant Valid() && proxyRelocs == old(proxyRelocs)
        invariant forall i :: 0 <= i < ri && i < |relocs| && !relocs[i].rtype.RELAX? ==> relocs[i].offset < addr || relocs[i].offset <= q
        invariant ri < |relocs| ==> q < relocs[ri].offset
        decreases |relocs| - ri
      {
        NextReloc(false);
      }
      while curP.Some? && addr > curP.value.offset
        invariant Valid() && Drop(proxyRelocs, addr) == Drop(old(proxyRelocs), addr)
        invariant ri < |relocs| ==> addr <= relocs[ri].offset && q < relocs[ri].offset
        invariant forall i :: 0 <= i < ri && i < |relocs| && !relocs[i].rtype.RELAX? ==> relocs[i].offset < addr || relocs[i].offset <= q
        decreases |proxyRelocs|
      {
        NextPReloc();
      }
    }

    /** The relocation for `addr`: the entry there when it was not handed out before,
        and otherwise a waiting half of a call. */
    method GetReloc(addr: int, ghost q: int) returns (ret: Option<Reloc>)
      requires WellFormed(relocs) && Past(q) && q <= addr
      modifies this
      ensures Past(addr)
      ensures q < addr && EntryAt(relocs, addr).Some? ==>
                ret == EntryAt(relocs, addr) && proxyRelocs == Drop(old(proxyRelocs), addr)
      ensures q == addr || EntryAt(relocs, addr).None? ==>
                var ps := Drop(old(proxyRelocs), addr);
                if ps != [] && ps[0].offset == addr then ret == Some(ps[0]) && proxyRelocs == ps[1..]
                else ret == None && proxyRelocs == ps
    {
      if cur.None? && curP.None? {
        NothingAt(addr, q);
        return None;
      }
      SkipTo(addr, q);
      ret := None;
      if cur.Some? && cur.value.offset == addr {
        ret := cur;
        EntryUnique(relocs, ri, addr);
        NextReloc(false);
      } else {
        NothingAt(addr, q);
        if curP.Some? && curP.value.offset == addr {
          ret := curP;
          NextPReloc();
        }
      }
    }

    // The entry at `addr`, if there is one, was handed out before.
    lemma NothingAt(addr: int, q: int)
      requires WellFormed(relocs) && Valid() && q <= addr
      requires forall i :: 0 <= i < ri && i < |relocs| && !relocs[i].rtype.RELAX? ==> relocs[i].offset < addr || relocs[i].offset <= q
      requires ri < |relocs| ==> addr < relocs[ri].offset
      ensures q < addr ==> EntryAt(relocs, addr).None?
      ensures Past(addr)
    {
      if i :| Entry(relocs, i, addr) {
        assert i < ri ==> relocs[i].offset <= q;
      }
    }

    /** A call becomes a pair that waits: its own address for the high part, the next
        instruction for the low part, which remembers where the high part was. */
    method AddProxyReloc(reloc: Reloc)
      requires Valid()
      modifies this`proxyRelocs, this`curP
      ensures Valid() && proxyRelocs == old(proxyRelocs) + [Hi(reloc), Lo(reloc)]
    {
      var hi := reloc.(rtype := PROXY_CALL_HI);
      var lo := reloc.(rtype := PROXY_CALL_LO, hiPC := hi.offset);
      lo := lo.(offset := hi.offset + INSTRUCTION_SIZE);
      proxyRelocs := proxyRelocs + [hi] + [lo];
      if curP.None? { curP := Some(proxyRelocs[0]); }
    }

    /** The low part of the call at `q` waits, when there is one. */
    ghost predicate Waiting(q: int, first: int)
      reads this
    {
      proxyRelocs == if first <= q && CallAt(relocs, q) then [Lo(EntryAt(relocs, q).value)] else []
    }

    /** One instruction asks for its relocation. */
    method HandleRelocation(addr: int, ghost first: int) returns (ret: Option<Reloc>)
      requires WellFormed(relocs) && Past(addr - 4) && Waiting(addr - 4, first) && first <= addr
      modifies this
      ensures Past(addr) && Waiting(addr, first)
      ensures ret == Due(relocs, addr, first)
    {
      EntryFacts(addr);
      EntryFacts(addr - 4);
      ret := GetReloc(addr, addr - 4);
      if ret.Some? && ret.value.rtype.CALL? {
        AddProxyReloc(ret.value);
        ret := GetReloc(addr, addr);
      }
    }

    lemma EntryFacts(a: int)
      requires WellFormed(relocs)
      ensures EntryAt(relocs, a).Some? ==> EntryAt(relocs, a).value.offset == a && !IsProxy(EntryAt(relocs, a).value.rtype)
      ensures CallAt(relocs, a - 4) ==> EntryAt(relocs, a).None?
    {
      if EntryAt(relocs, a).Some? {
        var i :| Entry(relocs, i, a) && EntryAt(relocs, a) == Some(relocs[i]);
      }
      if CallAt(relocs, a - 4) {
        var j :| Entry(relocs, j, a - 4) && EntryAt(relocs, a - 4) == Some(relocs[j]);
        NoneBehindCall(relocs, j);
      }
    }

    /** All instructions of a range ask, in order; `got[k]` is what the k-th one got. */
    method HandleAll(st: int, end: int) returns (got: seq<Option<Reloc>>)
      requires WellFormed(relocs) && Past(st - 4) && proxyRelocs == [] && 0 <= st <= end && st % 4 == 0 && end % 4 == 0
      modifies this
      ensures |got| == (end - st) / 4
      ensures forall k :: 0 <= k < |got| ==> got[k] == Due(relocs, st + 4 * k, st)
    {
      hide WellFormed, Due, CallAt, EntryAt;
      got := [];
      var addr := st;
      while addr < end
        invariant st <= addr <= end && addr == st + 4 * |got|
        invariant Past(addr - 4) && Waiting(addr - 4, st)
        invariant forall k :: 0 <= k < |got| ==> got[k] == Due(relocs, st + 4 * k, st)
      {
        var r := HandleRelocation(addr, st);
        got := got + [r];
        addr := addr + INSTRUCTION_SIZE;
      }
    }
  }

  // ---- each relocation exactly once ----

  /** What a relocation of the list has to be handed out as, and where. */
  ghost predicate Delivers(r: Reloc, a: int, d: Reloc) {
    if r.rtype.CALL? then (a == r.offset && d == Hi(r)) || (a == r.offset + 4 && d == Lo(r))
    else a == r.offset && d == r
  }

  /** Over a range, everything that is due delivers an entry of the list at the entry's
      own address, and every entry in the range is delivered there, a call as its pair. */
  lemma ExactlyOnce(rs: seq<Reloc>, st: int, end: int)
    requires WellFormed(rs) && st % 4 == 0 && end % 4 == 0
    ensures forall a :: st <= a < end && Due(rs, a, st).Some? ==>
              exists i :: 0 <= i < |rs| && !rs[i].rtype.RELAX? && Delivers(rs[i], a, Due(rs, a, st).value)
    ensures forall i :: 0 <= i < |rs| && !rs[i].rtype.RELAX? && st <= rs[i].offset < end ==>
              Due(rs, rs[i].offset, st) == Some(if rs[i].rtype.CALL? then Hi(rs[i]) else rs[i])
    ensures forall i :: 0 <= i < |rs| && rs[i].rtype.CALL? && st <= rs[i].offset < end - 4 ==>
              Due(rs, rs[i].offset + 4, st) == Some(Lo(rs[i]))
  {
    forall a | st <= a < end && Due(rs, a, st).Some?
      ensures exists i :: 0 <= i < |rs| && !rs[i].rtype.RELAX? && Delivers(rs[i], a, Due(rs, a, st).value)
    {
      var b := if EntryAt(rs, a).Some? then a else a - 4;
      var i :| Entry(rs, i, b) && EntryAt(rs, b) == Some(rs[i]);
      assert Delivers(rs[i], a, Due(rs, a, st).value);
    }
    forall i | 0 <= i < |rs| && !rs[i].rtype.RELAX?
      ensures EntryAt(rs, rs[i].offset) == Some(rs[i])
      ensures rs[i].rtype.CALL? ==> EntryAt(rs, rs[i].offset + 4).None?
    {
      EntryUnique(rs, i, rs[i].offset);
      if rs[i].rtype.CALL? { NoneBehindCall(rs, i); }
    }
  }

  // ---- the values ----

  // 32-bit constants; a shift right by 12 and a mask of the upper 20 bits are a
  // division and the removal of a remainder.
  type U32 = x: int | 0 <= x < XLEN_MOD

  function Wrap(x: int): U32 { x % XLEN_MOD }
  // Rounded up to the nearer multiple of 0x1000, but for the low bits.
  function Round(x: U32): U32 { Wrap(x + 0x800) }
  function Shift12(x: U32): U32 { x / 0x1000 }
  function MaskHigh(x: U32): U32 { x - x % 0x1000 }

  /** The constant a relocation against the address `s` puts into the instruction at `a`. */
  function Value(r: Reloc, a: U32, s: U32): U32 {
    match r.rtype
    case HI20 => Shift12(Round(s))
    case LO12 => Wrap(s - MaskHigh(Round(s)))
    case PROXY_CALL_HI => Shift12(Round(Wrap(s - a)))
    case PCREL_HI20 => Shift12(Round(Wrap(s - a)))
    case PROXY_CALL_LO => Wrap(Wrap(s - Wrap(r.hiPC)) - MaskHigh(Round(Wrap(s - Wrap(r.hiPC)))))
    case _ => Wrap(s - a)
  }

  // What the pair of instructions computes from its two constants: the upper immediate
  // is shifted back and the offset is added.
  function Together(base: U32, hi: U32, lo: U32): U32 {
    Wrap(Wrap(base + Wrap(hi * 0x1000)) + lo)
  }

  // An offset that fits a signed field of 12 bits.
  predicate Signed12(w: U32) { w < 0x800 || w >= XLEN_MOD - 0x800 }

  /** The two halves of a word: 20 bits above, and a signed offset of 12. */
  lemma Halves(t: U32)
    ensures var hi, lo := Shift12(Round(t)), Wrap(t - MaskHigh(Round(t)));
            hi < 0x10_0000 && Signed12(lo) && Wrap(hi * 0x1000) == MaskHigh(Round(t))
  {
    var u := Round(t);
    assert u == u / 0x1000 * 0x1000 + u % 0x1000;
  }

  lemma Sum(base: U32, u: U32, t: U32)
    ensures Wrap(Wrap(base + u) + Wrap(t - u)) == Wrap(base + t)
  {
  }

  lemma Inside(s: U32)
    ensures Wrap(0 + s) == s
  {
  }

  lemma Relative(pc: U32, s: U32)
    ensures Wrap(pc + Wrap(s - pc)) == s
  {
  }

  /** An absolute pair rebuilds the address. */
  lemma AbsolutePair(hi: Reloc, lo: Reloc, a: U32, b: U32, s: U32)
    requires hi.rtype.HI20? && lo.rtype.LO12?
    ensures Together(0, Value(hi, a, s), Value(lo, b, s)) == s
    ensures Value(hi, a, s) < 0x10_0000 && Signed12(Value(lo, b, s))
  {
    hide Signed12, Shift12, MaskHigh, Round, Wrap;
    Halves(s);
    Sum(0, MaskHigh(Round(s)), s);
    Inside(s);
  }

  /** The pair of a call rebuilds the address called relative to the pc of its first
      instruction, wherever the low part itself stands. */
  lemma CallPair(c: Reloc, b: U32, s: U32)
    requires c.rtype.CALL?
    ensures var pc := Wrap(c.offset);
            && Together(pc, Value(Hi(c), pc, s), Value(Lo(c), b, s)) == s
            && Value(Hi(c), pc, s) < 0x10_0000 && Signed12(Value(Lo(c), b, s))
  {
    var pc := Wrap(c.offset);
    var t := Wrap(s - pc);
    Halves(t);
    hide Signed12, Shift12, MaskHigh, Round, Wrap;
    Sum(pc, MaskHigh(Round(t)), t);
    Relative(pc, s);
  }

  /** The high part relative to its own address leaves a rest that fits the low field of any
      partner; the low part of a call at the same address is that rest. */
  lemma PcrelPair(r: Reloc, c: Reloc, b: U32, s: U32)
    requires r.rtype.PCREL_HI20? && c.rtype.CALL?
    ensures var pc := Wrap(c.offset);
            var hi := Value(r, pc, s);
            var lo := Wrap(Wrap(s - pc) - Wrap(hi * 0x1000));
            hi < 0x10_0000 && Signed12(lo) && Together(pc, hi, lo) == s && Value(Lo(c), b, s) == lo
  {
    var pc := Wrap(c.offset);
    var t := Wrap(s - pc);
    Halves(t);
    hide Signed12, Shift12, MaskHigh, Round, Wrap;
    Sum(pc, MaskHigh(Round(t)), t);
    Relative(pc, s);
  }

  /** A branch or a jump gets the offset that leads from it to the symbol. */
  lemma JumpOffset(r: Reloc, a: U32, s: U32)
    requires r.rtype.BRANCH? || r.rtype.JAL?
    ensures Wrap(a + Value(r, a, s)) == s
  {
    hide Wrap;
    Relative(a, s);
  }
}

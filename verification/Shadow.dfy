/** The copy of the guest's data that the translated program works on.  Words that
    must hold the address of a code label wait until the label has a block. */
module Shadow {
  import opened Basics
  import opened Guest
  import opened CodeBuilder

  // A word of a data section, by its byte offset.
  datatype Slot = Slot(sec: string, offs: int)
  datatype Constant = Raw(w: Word) | BlockAddress(bb: BasicBlock)

  type Sections = map<string, seq<Constant>>
  type Pending = map<int, seq<Slot>>

  predicate SlotOk(secs: Sections, s: Slot) {
    s.sec in secs && s.offs % 4 == 0 && 0 <= s.offs / 4 < |secs[s.sec]|
  }

  function WordAt(secs: Sections, s: Slot): Constant
    requires SlotOk(secs, s)
  {
    secs[s.sec][s.offs / 4]
  }

  /** The word a constant is loaded as, when the loader puts the label at `a` at address
      `at(a)`. */
  function Loaded(c: Constant, at: int -> Word): Word {
    match c
    case Raw(w) => w
    case BlockAddress(bb) => at(bb.addr)
  }

  ghost predicate AllOk(secs: Sections, want: Pending) {
    forall a, i :: a in want && 0 <= i < |want[a]| ==> SlotOk(secs, want[a][i])
  }

  /** No two requests are for the same word. */
  ghost predicate Distinct(want: Pending) {
    forall a, i, b, j :: a in want && 0 <= i < |want[a]| && b in want && 0 <= j < |want[b]| && want[a][i] == want[b][j] ==>
      a == b && i == j
  }

  /** Every section keeps its name and its length. */
  ghost predicate SameShape(secs: Sections, secs': Sections) {
    secs.Keys == secs'.Keys && forall n :: n in secs ==> |secs'[n]| == |secs[n]|
  }

  class ShadowImage {
    var pending: Pending
    var sections: Sections

    constructor (sections: Sections)
      ensures pending == map[] && this.sections == sections
    {
      pending, this.sections := map[], sections;
    }

    /** A word asks for the address of the label at `a`. */
    method AddPending(a: int, slot: Slot)
      modifies this`pending
      ensures pending == old(pending)[a := (if a in old(pending) then old(pending)[a] else []) + [slot]]
    {
      if a in pending {
        pending := pending[a := pending[a] + [slot]];
      } else {
        pending := pending[a := [slot]];
        assert [] + [slot] == [slot];
      }
    }

    /** Every word that waits for the label at `a` gets the address of `bb`; the
        other words stay as they are. */
    method Patch(a: int, bb: BasicBlock)
      requires a in pending && AllOk(sections, pending)
      modifies this
      ensures SameShape(old(sections), sections) && pending == old(pending) - {a}
      ensures forall i :: 0 <= i < |old(pending)[a]| ==> WordAt(sections, old(pending)[a][i]) == BlockAddress(bb)
      ensures forall s :: SlotOk(old(sections), s) && s !in old(pending)[a] ==> WordAt(sections, s) == WordAt(old(sections), s)
    {
      var slots := pending[a];
      ghost var was := sections;
      for n := 0 to |slots|
        invariant SameShape(was, sections) && pending == old(pending)
        invariant forall i :: 0 <= i < n ==> WordAt(sections, slots[i]) == BlockAddress(bb)
        invariant forall s :: SlotOk(was, s) && s !in slots[..n] ==> WordAt(sections, s) == WordAt(was, s)
      {
        assert SlotOk(was, slots[n]);
        var words := sections[slots[n].sec];
        sections := sections[slots[n].sec := words[slots[n].offs / 4 := BlockAddress(bb)]];
        forall s | SlotOk(was, s) && s !in slots[..n + 1] ensures WordAt(sections, s) == WordAt(was, s) {
          assert slots[n] in slots[..n + 1];
          assert forall x :: x in slots[..n] ==> x in slots[..n + 1];
          SlotIndex(s, slots[n]);
        }
        forall i | 0 <= i < n + 1 ensures WordAt(sections, slots[i]) == BlockAddress(bb) {
          assert SlotOk(was, slots[i]);
          SlotIndex(slots[i], slots[n]);
        }
      }
      assert slots[..|slots|] == slots;
      pending := pending - {a};
    }
  }

  lemma SlotIndex(s: Slot, t: Slot)
    requires s.offs % 4 == 0 && t.offs % 4 == 0
    ensures s.sec == t.sec && s.offs / 4 == t.offs / 4 ==> s == t
  {
  }
}

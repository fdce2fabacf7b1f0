/** The translator of one guest function: blocks are made ahead of forward
    branches, cut in place for backward ones, and entered in address order. */
module Translation {
  import opened Basics
  import opened Guest
  import opened Host
  import opened BlockGraph
  import opened CodeBuilder
  import opened Emission
  import opened Shadow
  import opened Tables
  import SortedMap

  const INVALID_ADDR := 0xFFFF_FFFF_FFFF_FFFF

  /** Every block the code refers to is the one registered under its address. */
  ghost predicate RefsOk(blocks: map<int, BasicBlock>, code: seq<Inst<BasicBlock>>) {
    forall i, b :: 0 <= i < |code| && b in Refs(code[i].op) ==> b.addr in blocks && blocks[b.addr] == b
  }

  ghost predicate Registered(blocks: map<int, BasicBlock>) {
    forall k :: k in blocks ==> blocks[k].addr == k
  }

  /** The blocks stand in the host function in the order of the map. */
  ghost predicate InOrder(data: seq<SortedMap.Item<BasicBlock>>, layout: seq<BasicBlock>) {
    |layout| == |data| && forall i :: 0 <= i < |data| ==> layout[i] == data[i].val
  }

  /** `before` stands at position `p` and nowhere earlier, or `p` is the end. */
  ghost predicate PlaceIs(layout: seq<BasicBlock>, before: BasicBlock?, p: nat) {
    p <= |layout| && (forall i :: 0 <= i < p ==> layout[i] != before) && (p < |layout| ==> layout[p] == before)
  }

  // Where a block belongs in the map it belongs in the host function.
  lemma BeforePlace(blocks: map<int, BasicBlock>, data: seq<SortedMap.Item<BasicBlock>>, layout: seq<BasicBlock>, a: int, before: BasicBlock?, p: nat)
    requires SortedMap.Sorted(data) && blocks == SortedMap.AsMap(data) && Registered(blocks) && InOrder(data, layout)
    requires (forall k :: k in blocks ==> k < a || (before != null && before.addr <= k)) && SortedMap.IsLowerBound(data, a, p)
    requires before != null ==> before.addr in blocks && blocks[before.addr] == before && a <= before.addr
    ensures PlaceIs(layout, before, p)
  {
    forall i | 0 <= i < |data|
      ensures data[i].key in blocks && data[i].val.addr == data[i].key
    {
      assert SortedMap.At(data, i, data[i].key);
    }
    if before != null {
      var j :| SortedMap.At(data, j, before.addr);
    }
  }

  lemma OrderGrows(data: seq<SortedMap.Item<BasicBlock>>, layout: seq<BasicBlock>, p: nat, a: int, bb: BasicBlock)
    requires InOrder(data, layout) && p <= |data|
    ensures |layout| == |data| && InOrder(data[..p] + [SortedMap.Item(a, bb)] + data[p..], layout[..p] + [bb] + layout[p..])
  {
  }

  lemma RegisteredGrows(blocks: map<int, BasicBlock>, a: int, bb: BasicBlock)
    requires Registered(blocks) && bb.addr == a
    ensures Registered(blocks[a := bb])
  {
  }

  /** Every word that asks for the label at `a` holds the address of the block at
      `a`, and that block can be reached by a computed jump. */
  ghost predicate LabelDone(blocks: map<int, BasicBlock>, indBBs: seq<BasicBlock>, secs: Sections, slots: seq<Slot>, a: int) {
    && a in blocks && blocks[a] in indBBs
    && forall i :: 0 <= i < |slots| ==> SlotOk(secs, slots[i]) && WordAt(secs, slots[i]) == BlockAddress(blocks[a])
  }

  /** The labels below `f` are done, the others still wait. */
  ghost predicate Patched(fn: Fn, blocks: map<int, BasicBlock>, indBBs: seq<BasicBlock>, secs: Sections, pending: Pending, want: Pending, f: int) {
    && AllOk(secs, want) && Distinct(want)
    && (forall a :: a in pending <==> a in want && !(InFn(fn, a) && a < f))
    && (forall a :: a in pending ==> pending[a] == want[a])
    && (forall a :: a in want && InFn(fn, a) && a < f ==> LabelDone(blocks, indBBs, secs, want[a], a))
    && (forall b :: b in indBBs ==> b.addr in blocks && blocks[b.addr] == b && b.addr in want && InFn(fn, b.addr))
  }

  lemma PatchedStart(fn: Fn, blocks: map<int, BasicBlock>, secs: Sections, want: Pending)
    requires AllOk(secs, want) && Distinct(want)
    ensures Patched(fn, blocks, [], secs, want, want, fn.st)
  {
  }

  // Later blocks leave the labels that are done alone.
  lemma PatchedGrows(fn: Fn, was: map<int, BasicBlock>, blocks: map<int, BasicBlock>, indBBs: seq<BasicBlock>, secs: Sections, pending: Pending, want: Pending, f: int)
    requires Patched(fn, was, indBBs, secs, pending, want, f)
    requires forall k :: k in was ==> k in blocks && blocks[k] == was[k]
    ensures Patched(fn, blocks, indBBs, secs, pending, want, f)
  {
    hide InFn, AllOk, Distinct, SlotOk;
    forall a | a in want && InFn(fn, a) && a < f ensures LabelDone(blocks, indBBs, secs, want[a], a) {
      assert LabelDone(was, indBBs, secs, want[a], a);
    }
  }

  lemma PatchedSkip(fn: Fn, blocks: map<int, BasicBlock>, indBBs: seq<BasicBlock>, secs: Sections, pending: Pending, want: Pending, f: int)
    requires Patched(fn, blocks, indBBs, secs, pending, want, f) && f !in pending && InFn(fn, f)
    ensures Patched(fn, blocks, indBBs, secs, pending, want, f + 4)
  {
    hide AllOk, Distinct, SlotOk, LabelDone, Aligned;
    forall a | InFn(fn, a) && a < f + 4 ensures a <= f {
      if f < a { Gap(f, a); }
    }
  }

  // Patching keeps every slot a slot.
  lemma ShapeOk(secs: Sections, secs': Sections, want: Pending)
    requires AllOk(secs, want) && SameShape(secs, secs')
    ensures AllOk(secs', want)
  {
  }

  // The label at `f` is done, and no other request was for one of its words.
  lemma PatchedHere(fn: Fn, blocks: map<int, BasicBlock>, indBBs: seq<BasicBlock>, secs: Sections, secs': Sections, pending: Pending, want: Pending, f: int)
    requires Patched(fn, blocks, indBBs, secs, pending, want, f) && f in pending && InFn(fn, f)
    requires f in blocks && blocks[f].addr == f && SameShape(secs, secs')
    requires AllOk(secs', want)
    requires forall i :: 0 <= i < |want[f]| ==> WordAt(secs', want[f][i]) == BlockAddress(blocks[f])
    requires forall s :: SlotOk(secs, s) && s !in want[f] ==> SlotOk(secs', s) && WordAt(secs', s) == WordAt(secs, s)
    ensures Patched(fn, blocks, indBBs + [blocks[f]], secs', pending - {f}, want, f + 4)
  {
    hide AllOk, SlotOk, Aligned, WordAt;
    forall a | InFn(fn, a) && a < f + 4 ensures a <= f {
      if f < a { Gap(f, a); }
    }
    var all := indBBs + [blocks[f]];
    forall a | a in want && InFn(fn, a) && a < f + 4 ensures LabelDone(blocks, all, secs', want[a], a) {
      if a == f {
        AllOkAt(secs', want, f);
        assert blocks[f] in all;
      } else {
        assert LabelDone(blocks, indBBs, secs, want[a], a);
        assert forall i :: 0 <= i < |want[a]| ==> want[a][i] !in want[f];
        assert blocks[a] in all;
      }
    }
  }

  lemma AllOkAt(secs: Sections, want: Pending, a: int)
    requires AllOk(secs, want) && a in want
    ensures forall i :: 0 <= i < |want[a]| ==> SlotOk(secs, want[a][i])
  {
  }

  ghost predicate AheadOf(keys: set<int>, next: int, f: int) {
    forall k :: k in keys && k > f ==> f < next <= k && next in keys
  }

  function JumpOp(cond: Option<Val>, target: int, next: int): Op<int> {
    if cond.Some? then CondBr(cond.value, target, next) else Br(target)
  }

  class Function {
    const fn: Fn
    const bbMap: SortedMap.Map<BasicBlock>
    const bld: Builder
    const image: ShadowImage
    var nextBB: int
    var layout: seq<BasicBlock>
    var indBrs: seq<int>
    var indBBs: seq<BasicBlock>
    var dests: seq<seq<BasicBlock>>
    ghost var blocks: map<int, BasicBlock>
    ghost var chunks: Chunks

    constructor (fn: Fn, bld: Builder, image: ShadowImage)
      ensures this.fn == fn && this.bld == bld && this.image == image && fresh(bbMap)
      ensures MapOk() && blocks == map[] && nextBB == 0 && indBrs == [] && indBBs == [] && dests == []
    {
      this.fn, this.bld, this.image := fn, bld, image;
      bbMap := new SortedMap.Map();
      nextBB, layout, indBrs, indBBs, dests, blocks := 0, [], [], [], [], map[];
    }

    /** The map, its blocks and the order of the blocks agree. */
    ghost predicate MapOk()
      reads this`blocks, this`layout, bbMap
    {
      bbMap.Valid() && bbMap.Contents() == blocks && Registered(blocks) && InOrder(bbMap.data, layout)
    }

    ghost predicate RefsValid()
      reads this`blocks, blocks.Values
    {
      forall k :: k in blocks ==> RefsOk(blocks, blocks[k].code)
    }

    ghost predicate Owns(bb: BasicBlock)
      reads this`blocks
    {
      bb.addr in blocks && blocks[bb.addr] == bb
    }

    ghost predicate Valid()
      reads this`blocks, this`layout, bbMap, bld`bb, blocks.Values
    {
      MapOk() && RefsValid() && Owns(bld.bb)
    }

    /** The blocks as values: code and instruction map, by address. */
    ghost function G(): (g: Graph)
      reads this`blocks, blocks.Values
      ensures g.Keys == blocks.Keys
    {
      map k | k in blocks :: VBlock(Views(blocks[k].code), blocks[k].firsts)
    }

    /** The block at `a`, or null. */
    method FindBB(a: int) returns (bb: BasicBlock?)
      requires MapOk()
      ensures bb == null <==> a !in blocks
      ensures bb != null ==> Owns(bb) && bb.addr == a
    {
      var i := bbMap.Lookup(a);
      if i < |bbMap.data| { bb := bbMap.data[i].val; } else { bb := null; }
    }

    /** The first block at or after `a`, or null. */
    method LowerBoundBB(a: int) returns (bb: BasicBlock?)
      requires MapOk()
      ensures IsBefore(a, bb)
      ensures bb != null ==> Owns(bb) && a <= bb.addr
    {
      var i := bbMap.LowerBound(a);
      bb := if i < |bbMap.data| then bbMap.data[i].val else null;
      assert i < |bbMap.data| ==> bbMap.data[i].key in blocks;
      forall k | k in blocks ensures k < a || (bb != null && bb.addr <= k) {
        var j :| SortedMap.At(bbMap.data, j, k);
      }
    }

    /** `bb` is the block before which a new block at `a` belongs; null is the end. */
    ghost predicate IsBefore(a: int, bb: BasicBlock?)
      reads this`blocks
    {
      forall k :: k in blocks ==> k < a || (bb != null && bb.addr <= k)
    }

    /** The block that holds the address `a`, for a backward jump; the first block when `a`
        lies before all of them. */
    method GetBackBB(a: int) returns (bb: BasicBlock)
      requires MapOk() && blocks != map[]
      ensures Owns(bb)
      ensures (exists k :: k in blocks && k <= a) ==> bb.addr <= a && forall k :: k in blocks ==> k <= bb.addr || a < k
      ensures (forall k :: k in blocks ==> a < k) ==> forall k :: k in blocks ==> bb.addr <= k
    {
      var i := bbMap.LowerBound(a);
      ghost var k0 :| k0 in blocks;
      ghost var j0 :| SortedMap.At(bbMap.data, j0, k0);
      if i == |bbMap.data| {
        i := i - 1;
      } else if bbMap.data[i].key == a {
      } else if i != 0 {
        i := i - 1;
      }
      bb := bbMap.data[i].val;
      BackItem(a, i);
    }

    lemma BackItem(a: int, i: nat)
      requires MapOk() && i < |bbMap.data| && (bbMap.data[i].key <= a || i == 0)
      requires i + 1 < |bbMap.data| ==> a < bbMap.data[i + 1].key
      ensures Owns(bbMap.data[i].val)
      ensures (exists k :: k in blocks && k <= a) ==>
                bbMap.data[i].val.addr <= a && forall k :: k in blocks ==> k <= bbMap.data[i].val.addr || a < k
      ensures (forall k :: k in blocks ==> a < k) ==> forall k :: k in blocks ==> bbMap.data[i].val.addr <= k
    {
      assert bbMap.data[i].key in blocks;
      forall k | k in blocks
        ensures k <= a ==> bbMap.data[i].key <= a
        ensures bbMap.data[i].key <= a ==> k <= bbMap.data[i].key || a < k
        ensures a < bbMap.data[i].key ==> bbMap.data[i].key <= k
      {
        var j :| SortedMap.At(bbMap.data, j, k);
      }
    }

    /** The address of the first block after `a`. */
    method NextBBAddr(a: int) returns (n: int)
      requires MapOk() && forall k :: k in blocks ==> k < INVALID_ADDR
      ensures n == INVALID_ADDR ==> forall k :: k in blocks ==> k < a + 4
      ensures n != INVALID_ADDR ==> n in blocks && a + 4 <= n && forall k :: k in blocks ==> k < a + 4 || n <= k
    {
      var bb := LowerBoundBB(a + 4);
      n := if bb == null then INVALID_ADDR else bb.addr;
    }

    /** The two tests of the source cover every case: the next block is `a`. */
    method UpdateNextBB(a: int)
      modifies this`nextBB
      ensures nextBB == a
    {
      if nextBB <= a || a < nextBB { nextBB := a; }
    }

    /** Place `bb` in the host function before another block, or at the end. */
    method Place(bb: BasicBlock, before: BasicBlock?, ghost p: nat)
      requires PlaceIs(layout, before, p)
      modifies this`layout
      ensures layout == old(layout)[..p] + [bb] + old(layout)[p..]
    {
      var i := 0;
      while i < |layout| && layout[i] != before
        invariant 0 <= i <= p
      {
        i := i + 1;
      }
      layout := layout[..i] + [bb] + layout[i..];
    }

    /** Enter `bb` in the map under `a`. */
    method AddBB(a: int, bb: BasicBlock, before: BasicBlock?)
      requires MapOk()
      requires a !in blocks && bb.addr == a && IsBefore(a, before)
      requires before != null ==> Owns(before) && a <= before.addr
      modifies this`layout, this`blocks, bbMap
      ensures MapOk()
      ensures blocks == old(blocks)[a := bb]
    {
      hide InOrder, Registered, PlaceIs, SortedMap.IsLowerBound;
      ghost var was, lay := bbMap.data, layout;
      ghost var p := bbMap.Upsert(a, bb);
      BeforePlace(blocks, was, lay, a, before, p);
      Place(bb, before, p);
      OrderGrows(was, lay, p, a, bb);
      RegisteredGrows(blocks, a, bb);
      blocks := blocks[a := bb];
    }

    /** A new, empty block at `a`. */
    method NewBB(a: int, before: BasicBlock?) returns (bb: BasicBlock)
      requires MapOk() && RefsValid() && a !in blocks && IsBefore(a, before)
      requires before != null ==> Owns(before) && a <= before.addr
      modifies this`layout, this`blocks, bbMap
      ensures MapOk() && RefsValid() && fresh(bb) && bb.addr == a && blocks == old(blocks)[a := bb]
      ensures bb.code == [] && bb.firsts == [] && G() == old(G())[a := VBlock([], [])]
    {
      ghost var was, g := blocks, G();
      bb := new BasicBlock(a);
      AddBB(a, bb, before);
      hide InOrder, Registered, RefsOk, Views;
      NewGraph(was, g, bb);
    }

    lemma NewGraph(was: map<int, BasicBlock>, g: Graph, bb: BasicBlock)
      requires bb.addr !in was && blocks == was[bb.addr := bb] && bb.code == [] && bb.firsts == []
      requires g.Keys == was.Keys && forall k :: k in was ==> g[k] == VBlock(Views(was[k].code), was[k].firsts)
      ensures G() == g[bb.addr := VBlock([], [])]
    {
      hide Views;
      assert Views(bb.code) == [] by { NoViews(bb.code); }
      var g' := g[bb.addr := VBlock([], [])];
      forall k | k in blocks ensures G()[k] == g'[k] {
      }
      assert G() == g';
    }

    /** The invariant of translation at the front `f`; `part` of the instruction at
        `f` is in the block that is being filled. */
    ghost predicate At(f: int, part: seq<Inst<int>>)
      reads this`blocks, this`layout, this`chunks, bbMap, bld`bb, blocks.Values
    {
      Valid() && Building(fn, G(), chunks, bld.bb.addr, f, part)
    }

    /** Block `bb` of the blocks `was`, whose code was `code`, is cut into itself and
        `low`; `g` is the graph before. */
    ghost predicate IsCut(was: map<int, BasicBlock>, g: Graph, bb: BasicBlock, low: BasicBlock, code: seq<Inst<BasicBlock>>, firsts: seq<First>, p: nat, q: nat)
      requires p <= |code| && q <= |firsts|
      reads this`blocks, bb, low, was.Values
    {
      && Registered(was) && bb.addr in was && was[bb.addr] == bb
      && blocks == was[low.addr := low] && low.addr !in was && g.Keys == was.Keys
      && 0 < p && bb.code == code[..p] + [Inst(code[p - 1].addr, code[p - 1].idx + 1, Br(low))]
      && low.code == code[p..]
      && bb.firsts == firsts[..q] && low.firsts == firsts[q..]
      && g[bb.addr] == VBlock(Views(code), firsts)
      && (forall k :: k in was && was[k] != bb ==> g[k] == VBlock(Views(was[k].code), was[k].firsts))
    }

    lemma CutGraph(was: map<int, BasicBlock>, g: Graph, bb: BasicBlock, low: BasicBlock, code: seq<Inst<BasicBlock>>, firsts: seq<First>, p: nat, q: nat)
      requires p <= |code| && q <= |firsts| && IsCut(was, g, bb, low, code, firsts, p, q)
      ensures var b := VBlock(Views(code), firsts);
              G() == g[bb.addr := TopHalf(b, p, q, Inst(b.code[p - 1].addr, b.code[p - 1].idx + 1, Br(low.addr)))][low.addr := BottomHalf(b, p, q)]
    {
      hide Views, View, TopHalf, BottomHalf;
      HalvesView(code, firsts, p, q, bb.code[p], low);
      var b := VBlock(Views(code), firsts);
      var top := TopHalf(b, p, q, Inst(b.code[p - 1].addr, b.code[p - 1].idx + 1, Br(low.addr)));
      assert bb.code == code[..p] + [bb.code[p]];
      var g' := g[bb.addr := top][low.addr := BottomHalf(b, p, q)];
      forall k | k in blocks ensures G()[k] == g'[k] {
        if k != low.addr && k != bb.addr {
          assert was[k] != bb;
        }
      }
      assert G() == g';
    }

    lemma CutRefs(was: map<int, BasicBlock>, bb: BasicBlock, low: BasicBlock, code: seq<Inst<BasicBlock>>, p: nat)
      requires 0 < p <= |code| && RefsOk(was, code)
      requires Registered(was) && bb.addr in was && was[bb.addr] == bb && blocks == was[low.addr := low] && low.addr !in was
      requires bb.code == code[..p] + [Inst(code[p - 1].addr, code[p - 1].idx + 1, Br(low))] && low.code == code[p..]
      requires forall k :: k in was && was[k] != bb ==> RefsOk(was, was[k].code)
      ensures RefsValid()
    {
      hide RefsOk;
      RefsSplit(was, blocks, code, p, bb.code[p], low);
      forall k | k in blocks ensures RefsOk(blocks, blocks[k].code) {
        if k != low.addr && k != bb.addr {
          RefsGrow(was, blocks, blocks[k].code);
        }
      }
    }

    /** Cut `bb` before the code of `t` and enter the lower part in the map. */
    method CutBB(bb: BasicBlock, t: int, ghost p: nat, ghost q: nat) returns (low: BasicBlock)
      requires MapOk() && RefsValid() && Owns(bb) && t !in blocks
      requires q < |bb.firsts| && bb.firsts[q] == First(t, t, 0)
      requires forall i :: 0 <= i < q ==> bb.firsts[i].addr < t
      requires forall i :: q < i < |bb.firsts| ==> t < bb.firsts[i].addr
      requires 0 < p < |bb.code| && bb.code[p].addr == t && bb.code[p].idx == 0
      requires forall i :: 0 <= i < p ==> bb.code[i].addr != t
      modifies this`layout, this`blocks, bbMap, bb
      ensures MapOk() && RefsValid() && fresh(low) && low.addr == t && blocks == old(blocks)[t := low]
      ensures low.code == old(bb.code)[p..]
      ensures IsCut(old(blocks), old(G()), bb, low, old(bb.code), old(bb.firsts), p, q)
    {
      hide RefsOk, Views, InOrder;
      ghost var was, code := blocks, bb.code;
      assert RefsOk(was, code);
      var before := LowerBoundBB(t);
      low := bb.Split(t, p, q);
      AddBB(t, low, before);
      assert forall k :: k in was && was[k] != bb ==> was[k].code == old(was[k].code);
      CutRefs(was, bb, low, code, p);
    }

    /** Cut `bb` at `t`: the invariant of translation holds again, with the lower
        part as the block being filled when `bb` was. */
    method SplitBB(bb: BasicBlock, t: int, ghost f: int) returns (low: BasicBlock)
      requires At(f, bld.Out()) && bld.Ready() && Owns(bb)
      requires fn.st < t < f && Aligned(t) && bb.addr < t && forall k :: k in blocks ==> k <= bb.addr || t < k
      modifies this`layout, this`blocks, bbMap, bb
      ensures MapOk() && RefsValid() && fresh(low) && low.addr == t && blocks == old(blocks)[t := low]
      ensures Building(fn, G(), chunks, if bb == bld.bb then t else bld.bb.addr, f, bld.Out())
      ensures bb == bld.bb ==> |bld.emitted| <= |low.code| && low.code[|low.code| - |bld.emitted|..] == bld.emitted
    {
      hide Building, Views, TopHalf, BottomHalf, RefsOk, CutAt, Cat, FirstsOf;
      ghost var g, k, cur, part := G(), bb.addr, bld.bb.addr, bld.Out();
      ghost var p, q := |Cat(chunks, k, t)|, |FirstsOf(k, t)|;
      ghost var code, firsts := bb.code, bb.firsts;
      SplitPoint(fn, g, chunks, cur, f, part, k, t);
      CodeOfCut(code, firsts, chunks, k, t, p, q);
      ghost var g' := g[k := TopHalf(g[k], p, q, FallBr(chunks, t))][t := BottomHalf(g[k], p, q)];
      if bb == bld.bb {
        FilledTail(fn, g, chunks, k, f, part, bld.base, bld.emitted, p);
      }
      low := CutBB(bb, t, p, q);
      CutGraph(old(blocks), g, bb, low, code, firsts, p, q);
      assert G() == g';
    }

    /** Blocks are only added. */
    twostate predicate Grew(was: map<int, BasicBlock>)
      reads this`blocks
    {
      && was == old(blocks)
      && (forall k :: k in was ==> k in blocks && blocks[k] == was[k])
      && (forall k :: k in blocks ==> k in was || fresh(blocks[k]))
    }

    /** The front is at `f`, and the block at `f`, if there is one, is being filled. */
    ghost predicate Inside(f: int)
      reads this`blocks, bld`addr, bld`bb
    {
      bld.addr == f && f < fn.end && (bld.bb.addr == f || f !in blocks)
    }

    /** A new block ahead of the front. */
    method MakeBB(f: int, a: int, before: BasicBlock?) returns (bb: BasicBlock)
      requires At(f, bld.Out()) && bld.Ready() && Inside(f)
      requires a !in blocks && f < a <= fn.end && Aligned(a) && IsBefore(a, before)
      requires before != null ==> Owns(before) && a <= before.addr
      modifies this`layout, this`blocks, bbMap
      ensures At(f, bld.Out()) && bld.Ready() && Inside(f)
      ensures Owns(bb) && bb.addr == a && blocks == old(blocks)[a := bb] && fresh(bb)
    {
      hide Building, Views, RefsOk, Aligned, InOrder, Registered;
      AddBlock(fn, G(), chunks, bld.bb.addr, f, bld.Out(), a);
      bb := NewBB(a, before);
    }

    /** The block a forward jump goes to; it is made when it is not there. */
    method ForwardBB(f: int, target: int) returns (bb: BasicBlock)
      requires At(f, bld.Out()) && bld.Ready() && Inside(f)
      requires InFn(fn, target) && f < target
      modifies this`nextBB, this`layout, this`blocks, bbMap
      ensures At(f, bld.Out()) && bld.Ready() && Inside(f)
      ensures Owns(bb) && bb.addr == target && Grew(old(blocks))
    {
      hide Building, Views, RefsOk, Aligned, InOrder, MapOk, RefsValid, G;
      var at := LowerBoundBB(target);
      if at != null && target == at.addr {
        bb := at;
      } else {
        bb := MakeBB(f, target, at);
        UpdateNextBB(target);
      }
    }

    /** Filling goes on in `low`, which ends in the code of the current instruction. */
    method Resume(f: int, low: BasicBlock)
      requires MapOk() && RefsValid() && Owns(low) && Building(fn, G(), chunks, low.addr, f, bld.Out()) && bld.Partial()
      requires |bld.emitted| <= |low.code| && low.code[|low.code| - |bld.emitted|..] == bld.emitted
      modifies bld`bb, bld`base
      ensures At(f, bld.Out()) && bld.Ready() && bld.bb == low
    {
      hide Building, Views, RefsOk, InOrder, G, Registered;
      bld.SetInsertBlock(low);
    }

    /** Cut the block that holds `target`; when it is the one being filled, filling
        goes on in the lower part. */
    method CutTarget(f: int, bb: BasicBlock, target: int) returns (low: BasicBlock)
      requires At(f, bld.Out()) && bld.Ready() && Inside(f) && Owns(bb)
      requires fn.st < target < f && Aligned(target) && bb.addr < target
      requires forall k :: k in blocks ==> k <= bb.addr || target < k
      modifies this`layout, this`blocks, bbMap, bld`bb, bld`base, bb
      ensures At(f, bld.Out()) && bld.Ready() && Inside(f)
      ensures Owns(low) && low.addr == target && blocks == old(blocks)[target := low] && fresh(low)
    {
      hide Building, Views, RefsOk, Aligned, InOrder, G, Registered, MapOk, RefsValid;
      var switchBB := bb == bld.bb;
      assert bld.Partial();
      low := SplitBB(bb, target, f);
      if switchBB { Resume(f, low); }
    }

    /** The block a backward jump goes to, cut out of the block that holds it. */
    method BackwardBB(f: int, target: int) returns (bb: BasicBlock)
      requires At(f, bld.Out()) && bld.Ready() && Inside(f)
      requires InFn(fn, target) && target < f
      modifies this`layout, this`blocks, bbMap, bld`bb, bld`base, blocks.Values
      ensures At(f, bld.Out()) && bld.Ready() && Inside(f)
      ensures Owns(bb) && bb.addr == target && Grew(old(blocks))
    {
      hide Building, Views, RefsOk, Aligned, InOrder, RefsValid, At, Valid, MapOk, G;
      AtMap(f, bld.Out());
      AtFacts(f, bld.Out());
      assert fn.st in blocks && fn.st <= target by { StartBefore(target); }
      bb := GetBackBB(target);
      TargetInBounds(f, bld.Out(), bb, target);
      assert bb.addr <= target < bb.addr + |bb.code| * INSTRUCTION_SIZE;
      if bb.addr != target {
        bb := CutTarget(f, bb, target);
      }
    }

    lemma StartBefore(t: int)
      requires InFn(fn, t)
      ensures fn.st <= t
    {
    }

    /** The block behind the jump at `f`, made when it is not there. */
    method NextBlock(f: int, keep: BasicBlock) returns (next: BasicBlock)
      requires At(f, bld.Out()) && bld.Ready() && Inside(f) && Aligned(f) && Owns(keep)
      modifies this`nextBB, this`layout, this`blocks, bbMap
      ensures At(f, bld.Out()) && bld.Ready() && Inside(f) && Owns(keep)
      ensures Owns(next) && next.addr == f + 4 && Grew(old(blocks)) && nextBB == f + 4
    {
      hide Building, Views, RefsOk, Aligned, InOrder, RefsValid, G, Registered, At, Valid, MapOk;
      AtMap(f, bld.Out());
      var addr := f + INSTRUCTION_SIZE;
      var bb := FindBB(addr);
      if bb == null {
        var before := LowerBoundBB(addr);
        RoomBehind(f, bld.Out());
        next := MakeBB(f, addr, before);
      } else {
        next := bb;
      }
      UpdateNextBB(addr);
    }

    /** Every block but `bb` is as in the graph `g`. */
    ghost predicate Rest(g: Graph, bb: BasicBlock)
      reads this`blocks, blocks.Values - {bb}
    {
      && g.Keys == blocks.Keys && Owns(bb) && Registered(blocks)
      && forall k :: k in blocks && blocks[k] != bb ==>
           g[k] == VBlock(Views(blocks[k].code), blocks[k].firsts) && RefsOk(blocks, blocks[k].code)
    }

    lemma RestOf(bb: BasicBlock)
      requires MapOk() && RefsValid() && Owns(bb)
      ensures Rest(G(), bb)
      ensures G()[bb.addr] == VBlock(Views(bb.code), bb.firsts) && RefsOk(blocks, bb.code)
    {
      hide Views, RefsOk, InOrder;
    }

    // Only the block being filled differs from the graph `g`.
    lemma GraphOf(g: Graph)
      requires Rest(g, bld.bb)
      ensures G() == g[bld.bb.addr := VBlock(Views(bld.bb.code), bld.bb.firsts)]
    {
      hide Views, RefsOk;
      var g' := g[bld.bb.addr := VBlock(Views(bld.bb.code), bld.bb.firsts)];
      forall k | k in blocks ensures G()[k] == g'[k] {
      }
      assert G() == g';
    }

    // The block being filled got the code `extra`.
    lemma AfterEmission(g: Graph, f: int, part: seq<Inst<int>>, code: seq<Inst<BasicBlock>>, extra: seq<Inst<BasicBlock>>)
      requires MapOk() && Rest(g, bld.bb)
      requires g[bld.bb.addr] == VBlock(Views(code), bld.bb.firsts) && RefsOk(blocks, code)
      requires Building(fn, g, chunks, bld.bb.addr, f, part)
      requires bld.bb.code == code + extra && RefsOk(blocks, extra)
      ensures At(f, part + Views(extra))
    {
      hide Views, RefsOk, AllWired, Done, BlocksOk, Placed, Translatable, InOrder, G;
      GraphOf(g);
      RefsAppend(blocks, code, extra);
      ViewsAppend(code, extra);
      AppendAssoc(Cat(chunks, bld.bb.addr, f), part, Views(extra));
      Repart(fn, g, chunks, bld.bb.addr, f, part, part + Views(extra));
      forall k | k in blocks ensures RefsOk(blocks, blocks[k].code) {
      }
    }

    /** Code for an instruction that goes on at the next address. */
    method EmitPlain(f: int)
      requires bld.Ready() && bld.emitted == [] && bld.addr == f && f in fn.code && !IsControl(fn.code[f])
      modifies bld`emitted, bld`count, bld.bb`code
      ensures bld.Ready() && Implements(f, fn.code[f], bld.Out())
    {
      hide Views, Implements;
      match fn.code[f] {
        case Alu(op, rd, rs1, src) => TranslateALUOp(bld, op, rd, rs1, src);
        case Lui(rd, imm20) => TranslateUI(bld, false, rd, imm20);
        case Auipc(rd, imm20) => TranslateUI(bld, true, rd, imm20);
        case Load(width, signed, rd, rs1, imm) => TranslateLoad(bld, width, signed, rd, rs1, imm);
        case Store(width, rs2, rs1, imm) => TranslateStore(bld, width, rs2, rs1, imm);
      }
    }

    /** An instruction that goes on at the next address. */
    method TranslatePlain(f: int)
      requires At(f, []) && f < fn.end && (bld.bb.addr == f || f !in blocks)
      requires f in fn.code && !IsControl(fn.code[f])
      modifies bld`addr, bld`emitted, bld`count, bld`base, bld.bb`code
      ensures At(f, bld.Out()) && bld.Ready() && Inside(f) && Implements(f, fn.code[f], bld.Out())
    {
      hide Views, RefsOk, Building, Implements, InOrder, Registered, Rest, G, RefsValid;
      ghost var g, code := G(), bld.bb.code;
      RestOf(bld.bb);
      bld.Reset(f);
      EmitPlain(f);
      NoRefs(blocks, bld.emitted);
      AfterEmission(g, f, [], code, bld.emitted);
      assert [] + bld.Out() == bld.Out();
    }

    /** The blocks a jump needs: the one it goes to, and the one behind it. */
    method JumpBlocks(f: int, target: int) returns (targetBB: BasicBlock, next: BasicBlock)
      requires At(f, bld.Out()) && bld.Ready() && Inside(f) && Aligned(f)
      requires InFn(fn, target) && target != f
      modifies this`nextBB, this`layout, this`blocks, bbMap, bld`bb, bld`base, blocks.Values
      ensures At(f, bld.Out()) && bld.Ready() && Inside(f) && nextBB == f + 4
      ensures Owns(targetBB) && targetBB.addr == target && Owns(next) && next.addr == f + 4
      ensures Grew(old(blocks))
    {
      hide RefsOk, Building, InOrder, Registered, Aligned, G, RefsValid, Views, At, Valid, MapOk, InFn;
      if target > f { targetBB := ForwardBB(f, target); } else { targetBB := BackwardBB(f, target); }
      next := NextBlock(f, targetBB);
    }

    /** The conditional branch or jump at `f`, its condition being computed. */
    method HandleJump(f: int, target: int, cond: Option<Val>)
      requires At(f, bld.Out()) && bld.Ready() && Inside(f) && Aligned(f)
      requires InFn(fn, target) && target != f
      modifies this`nextBB, this`layout, this`blocks, bbMap, bld, blocks.Values
      ensures At(f, bld.Out()) && Inside(f) && bld.Held() && Grew(old(blocks))
      ensures target in blocks && f + 4 in blocks && nextBB == f + 4
      ensures bld.Out() == old(bld.Out()) + [Inst(f, |old(bld.Out())|, JumpOp(cond, target, f + 4))]
    {
      hide Views, RefsOk, Building, InOrder, Registered, Aligned, G, RefsValid, Valid, MapOk, ViewOp;
      var targetBB, next := JumpBlocks(f, target);
      assert bld.bb in old(blocks).Values || fresh(bld.bb) by { BBOwned(f, bld.Out()); }
      hide At, Owns;
      EmitJump(f, cond, targetBB, next);
    }

    lemma AtMap(f: int, part: seq<Inst<int>>)
      requires At(f, part)
      ensures MapOk()
    {
    }

    lemma RoomBehind(f: int, part: seq<Inst<int>>)
      requires At(f, part) && f < fn.end
      ensures f + 4 <= fn.end && Aligned(f + 4)
    {
      NextInFn(fn, G(), chunks, bld.bb.addr, f, part);
    }

    lemma TargetInBounds(f: int, part: seq<Inst<int>>, bb: BasicBlock, t: int)
      requires At(f, part) && Owns(bb) && bb.addr <= t < f && Aligned(t) && forall k :: k in blocks ==> k <= bb.addr || t < k
      ensures t < bb.addr + |bb.code| * 4
    {
      hide Building, Aligned;
      InBounds(fn, G(), chunks, bld.bb.addr, f, part, bb.addr, t);
    }

    lemma BBOwned(f: int, part: seq<Inst<int>>)
      requires At(f, part)
      ensures Owns(bld.bb)
    {
    }

    /** The branch to the block of the target. */
    method EmitJump(f: int, cond: Option<Val>, targetBB: BasicBlock, next: BasicBlock)
      requires At(f, bld.Out()) && bld.Ready() && Inside(f) && Owns(targetBB) && Owns(next)
      modifies bld`emitted, bld`count, bld.bb`code
      ensures At(f, bld.Out()) && Inside(f) && bld.Held()
      ensures bld.Out() == old(bld.Out()) + [Inst(f, |old(bld.Out())|, JumpOp(cond, targetBB.addr, next.addr))]
    {
      hide RefsOk, Building, InOrder, G, RefsValid, Views, MapOk, Valid, At;
      Terminate(f, if cond.Some? then CondBr(cond.value, targetBB, next) else Br(targetBB));
    }

    /** End the block being filled. */
    method Terminate(f: int, op: Op<BasicBlock>)
      requires At(f, bld.Out()) && bld.Ready() && Inside(f) && IsTerm(op) && forall b :: b in Refs(op) ==> Owns(b)
      modifies bld`emitted, bld`count, bld.bb`code
      ensures At(f, bld.Out()) && Inside(f) && bld.Held()
      ensures bld.Out() == old(bld.Out()) + [Inst(f, |old(bld.Out())|, ViewOp(op))]
    {
      hide RefsOk, Building, InOrder, Rest, G, RefsValid, Registered;
      ghost var g, code, part := G(), bld.bb.code, bld.Out();
      RestOf(bld.bb);
      ghost var i := Inst(f, bld.count, op);
      bld.EmitTerm(op);
      OneRef(blocks, i);
      AfterEmission(g, f, part, code, [i]);
      assert Views([i]) == [View(i)];
    }

    /** The condition of a branch or the target of a register jump is computed. */
    method TranslateOperands(f: int) returns (v: Val)
      requires At(f, []) && f < fn.end && (bld.bb.addr == f || f !in blocks)
      requires f in fn.code && (fn.code[f].Branch? || fn.code[f].JumpReg?)
      modifies bld`addr, bld`emitted, bld`count, bld`base, bld.bb`code
      ensures At(f, bld.Out()) && bld.Ready() && Inside(f) && Plain(f, bld.Out())
      ensures fn.code[f].Branch? ==> forall m, e :: Gives(bld.Out(), v, m, e, Flag(fn.code[f].cond, ReadX(m, fn.code[f].brs1), ReadX(m, fn.code[f].brs2)))
      ensures fn.code[f].JumpReg? ==> forall m, e :: Gives(bld.Out(), v, m, e, AddWord(ReadX(m, fn.code[f].rs1), fn.code[f].imm))
    {
      hide Views, RefsOk, Building, InOrder, Registered, Gives, Flag, AddWord, ReadX, Rest, G, RefsValid;
      ghost var g, code := G(), bld.bb.code;
      RestOf(bld.bb);
      bld.Reset(f);
      if fn.code[f].Branch? {
        v := TranslateCond(bld, fn.code[f].cond, fn.code[f].brs1, fn.code[f].brs2);
      } else {
        v := TranslateJumpTarget(bld, fn.code[f].rs1, fn.code[f].imm);
      }
      ReadyPlain(bld);
      hide Plain;
      NoRefs(blocks, bld.emitted);
      AfterEmission(g, f, [], code, bld.emitted);
      assert [] + bld.Out() == bld.Out();
    }

    // What a reader of the invariant needs about the function.
    lemma AtFacts(f: int, part: seq<Inst<int>>)
      requires At(f, part)
      ensures Translatable(fn) && Aligned(f) && 0 <= fn.st <= bld.bb.addr <= f <= fn.end <= XLEN_MOD && fn.st in blocks
      ensures forall k :: k in blocks ==> fn.st <= k <= fn.end && Aligned(k) && !(bld.bb.addr < k < f)
    {
      hide AllWired, Done, BlocksOk;
      forall k | k in blocks ensures fn.st <= k <= fn.end && Aligned(k) && !(bld.bb.addr < k < f) {
        assert k in G() && KeyOk(fn, k);
      }
    }

    lemma InstrFacts(f: int)
      requires Translatable(fn) && InFn(fn, f)
      ensures GoodInstr(fn, f)
    {
    }

    method TranslateBranch(f: int)
      requires At(f, []) && f < fn.end && (bld.bb.addr == f || f !in blocks)
      requires f in fn.code && fn.code[f].Branch? && GoodInstr(fn, f) && Aligned(f)
      modifies this`nextBB, this`layout, this`blocks, bbMap, bld, blocks.Values
      ensures At(f, bld.Out()) && bld.Held() && Inside(f) && Implements(f, fn.code[f], bld.Out())
      ensures Grew(old(blocks)) && Target(f, fn.code[f].off) in blocks && f + 4 in blocks && nextBB == f + 4
    {
      hide Views, RefsOk, Building, InOrder, Registered, Aligned, G, RefsValid, Valid, MapOk, At, Implements, Gives, Flag, AddWord, ReadX, Plain, InFn, Target;
      BBOwned(f, []);
      var i := fn.code[f];
      var v := TranslateOperands(f);
      ghost var s := bld.Out();
      HandleJump(f, Target(f, i.off), Some(v));
      hide Grew, Inside;
      CondBrImplements(f, i, s, v);
    }

    method TranslateJump(f: int)
      requires At(f, []) && f < fn.end && (bld.bb.addr == f || f !in blocks)
      requires f in fn.code && fn.code[f].Jump? && GoodInstr(fn, f) && Aligned(f)
      modifies this`nextBB, this`layout, this`blocks, bbMap, bld, blocks.Values
      ensures At(f, bld.Out()) && bld.Held() && Inside(f) && Implements(f, fn.code[f], bld.Out())
      ensures Grew(old(blocks)) && Target(f, fn.code[f].off) in blocks && f + 4 in blocks && nextBB == f + 4
    {
      hide Views, RefsOk, Building, InOrder, Registered, Aligned, G, RefsValid, Valid, MapOk, At, Implements, InFn, Target;
      var i := fn.code[f];
      Quietly(f);
      HandleJump(f, Target(f, i.off), None);
      hide Grew, Inside;
      BrImplements(f, i);
      assert bld.Out() == [Inst(f, 0, Br(Target(f, i.off)))];
    }

    method TranslateJumpReg(f: int)
      requires At(f, []) && f < fn.end && (bld.bb.addr == f || f !in blocks)
      requires f in fn.code && fn.code[f].JumpReg?
      modifies this`indBrs, bld`addr, bld`emitted, bld`count, bld`base, bld.bb`code
      ensures At(f, bld.Out()) && bld.Held() && Inside(f) && Implements(f, fn.code[f], bld.Out())
      ensures indBrs == old(indBrs) + if IsReturn(fn.code[f]) then [] else [f]
    {
      hide Views, RefsOk, Building, InOrder, Registered, Aligned, G, RefsValid, Valid, MapOk, At, Implements, Gives, Flag, AddWord, ReadX, Plain;
      var i := fn.code[f];
      if IsReturn(i) {
        Quietly(f);
        Terminate(f, RetVoid);
        RetImplements(f, i);
        assert bld.Out() == [Inst(f, 0, RetVoid)];
      } else {
        var v := TranslateOperands(f);
        ghost var s := bld.Out();
        Terminate(f, IndirectBr(v));
        IndirectImplements(f, i, s, v);
        indBrs := indBrs + [f];
      }
    }

    /** The addresses of the computed jumps the instruction at `f` adds. */
    ghost function ComputedAt(f: int): seq<int> {
      if f in fn.code && fn.code[f].JumpReg? && !IsReturn(fn.code[f]) then [f] else []
    }

    /** The instruction at `f`, whatever it is. */
    method TranslateInstr(f: int)
      requires At(f, []) && f < fn.end && (bld.bb.addr == f || f !in blocks)
      requires f in fn.code && GoodInstr(fn, f) && Aligned(f)
      modifies this`nextBB, this`layout, this`blocks, this`indBrs, bbMap, bld, blocks.Values
      ensures At(f, bld.Out()) && bld.Held() && Inside(f) && Implements(f, fn.code[f], bld.Out())
      ensures Grew(old(blocks))
      ensures HasTarget(fn.code[f]) ==> Target(f, fn.code[f].off) in blocks && f + 4 in blocks && nextBB == f + 4
      ensures !HasTarget(fn.code[f]) ==> blocks == old(blocks) && nextBB == old(nextBB)
      ensures indBrs == old(indBrs) + ComputedAt(f)
    {
      hide Views, RefsOk, Building, InOrder, Registered, Aligned, G, RefsValid, Valid, MapOk, At, Implements, GoodInstr, Target;
      if fn.code[f].Branch? {
        TranslateBranch(f);
      } else if fn.code[f].Jump? {
        TranslateJump(f);
      } else if fn.code[f].JumpReg? {
        BBOwned(f, []);
        TranslateJumpReg(f);
      } else {
        BBOwned(f, []);
        TranslatePlain(f);
      }
    }

    // An instruction without operands.
    method Quietly(f: int)
      requires At(f, []) && f < fn.end && (bld.bb.addr == f || f !in blocks)
      modifies bld`addr, bld`emitted, bld`count, bld`base
      ensures At(f, bld.Out()) && bld.Ready() && Inside(f) && bld.Out() == []
    {
      hide Building, RefsOk, InOrder, Registered;
      bld.Reset(f);
    }

    // The block being filled got the entry of the instruction at `f`.
    lemma AfterEntry(g: Graph, f: int, part: seq<Inst<int>>, ch: Chunks)
      requires MapOk() && Rest(g, bld.bb) && RefsOk(blocks, bld.bb.code)
      requires g[bld.bb.addr].code == Views(bld.bb.code) && bld.bb.firsts == g[bld.bb.addr].firsts + [First(f, f, 0)]
      requires Building(fn, g, ch, bld.bb.addr, f, part) && chunks == ch[f := part]
      requires f < fn.end && (bld.bb.addr == f || f !in blocks)
      requires f in fn.code && Implements(f, fn.code[f], part)
      requires Wired(fn, blocks.Keys, f, f + 4)
      requires f > fn.st && ControlAt(fn, f - 4) ==> f in blocks
      ensures At(f + 4, [])
    {
      hide Views, RefsOk, Building, InOrder, G, Wired, Implements;
      GraphOf(g);
      assert RefsValid();
      hide RefsValid;
      CommitInstruction(fn, g, ch, bld.bb.addr, f, part);
    }

    /** The first host instruction of the guest instruction at `f` goes into the
        instruction map of the block. */
    method EnterInstr(f: int)
      requires bld.Held() && bld.addr == f && bld.emitted != []
      requires Ascending(bld.bb.firsts) && forall i :: 0 <= i < |bld.bb.firsts| ==> bld.bb.firsts[i].addr < f
      modifies bld.bb`firsts
      ensures bld.bb.firsts == old(bld.bb.firsts) + [First(f, f, 0)]
    {
      var first := bld.bb.code[|bld.bb.code| - bld.count];
      assert first == bld.emitted[0];
      bld.bb.AddInstr(f, first);
    }

    // The instruction map of the block being filled.
    lemma FirstsBelow(f: int, part: seq<Inst<int>>)
      requires At(f, part)
      ensures Ascending(bld.bb.firsts) && forall i :: 0 <= i < |bld.bb.firsts| ==> bld.bb.firsts[i].addr < f
    {
      hide AllWired, Done, BlocksOk, Translatable, Views;
      FirstsAscend(bld.bb.addr, f);
    }

    /** The instruction at `f` is complete. */
    method Commit(f: int)
      requires At(f, bld.Out()) && bld.Held() && Inside(f) && f in fn.code && Implements(f, fn.code[f], bld.Out())
      requires Wired(fn, blocks.Keys, f, f + 4)
      requires f > fn.st && ControlAt(fn, f - 4) ==> f in blocks
      modifies bld.bb`firsts, this`chunks, bld`addr, bld`emitted, bld`count, bld`base
      ensures At(f + 4, []) && bld.Ready() && bld.emitted == []
      ensures chunks == old(chunks)[f := old(bld.Out())]
    {
      hide RefsOk, Building, InOrder, Wired, Views, Registered, Rest, G, RefsValid;
      ghost var g, ch, part := G(), chunks, bld.Out();
      assert part != [];
      hide Implements, Ascending;
      RestOf(bld.bb);
      FirstsBelow(f, part);
      EnterInstr(f);
      chunks := chunks[f := part];
      AfterEntry(g, f, part, ch);
      hide At, Rest;
      bld.Reset(f + INSTRUCTION_SIZE);
    }

    // ---- from one instruction to the next ----

    /** The block after the address `f` is the one `nextBB` names. */
    ghost predicate Ahead(f: int)
      reads this`blocks, this`nextBB
    {
      AheadOf(blocks.Keys, nextBB, f)
    }

    /** Between instructions: when a block has to be entered at `f`, `nextBB` says so. */
    ghost predicate NextOk(f: int)
      reads this`blocks, this`nextBB
    {
      || (f > fn.st && nextBB == f)
      || ((f > fn.st ==> f !in blocks && !ControlAt(fn, f - 4)) && (nextBB == 0 || nextBB != f) && Ahead(f))
    }

    // The block being filled is closed with a branch to the block at `f`.
    lemma AfterSwitch(g: Graph, f: int, bb: BasicBlock, code: seq<Inst<BasicBlock>>)
      requires MapOk() && Rest(g, bld.bb) && Owns(bb) && bb.addr == f
      requires g[bld.bb.addr] == VBlock(Views(code), bld.bb.firsts) && RefsOk(blocks, code)
      requires Building(fn, g, chunks, bld.bb.addr, f, []) && bld.bb.addr < f < fn.end
      requires |code| > 0 && bld.bb.code == ClosedOff(code, bb)
      ensures RefsValid() && Building(fn, G(), chunks, f, f, [])
    {
      hide RefsOk, Building, InOrder, G, ClosedOff, Views, FullBlock;
      GraphOf(g);
      ClosedView(fn, g, chunks, bld.bb.addr, f, bb, code, bld.bb.firsts);
      SwitchBlock(fn, g, chunks, bld.bb.addr, f);
      ClosedRefs(blocks, code, bb);
    }

    /** The block being filled gets a branch to `bb` unless it ends in a terminator. */
    method CloseOff(bb: BasicBlock)
      requires |bld.bb.code| > 0
      modifies bld.bb`code
      ensures bld.bb.code == ClosedOff(old(bld.bb.code), bb)
    {
      if !bld.bb.Terminated() {
        var last := bld.bb.code[|bld.bb.code| - 1];
        bld.bb.code := bld.bb.code + [Inst(last.addr, last.idx + 1, Br(bb))];
      }
    }

    /** The block at `f` is entered. */
    method SwitchTo(f: int, bb: BasicBlock)
      requires At(f, []) && bld.bb.addr < f < fn.end && Owns(bb) && bb.addr == f
      requires bld.emitted == [] && bld.count == 0
      modifies bld`bb, bld`base, bld.bb`code
      ensures At(f, []) && bld.bb == bb
    {
      hide Building, Views, RefsOk, InOrder, ClosedOff, Rest, Registered, G, RefsValid;
      ghost var g, code := G(), bld.bb.code;
      RestOf(bld.bb);
      FilledNonempty(fn, g, chunks, bld.bb.addr, f);
      assert |code| == |Views(code)|;
      CloseOff(bb);
      AfterSwitch(g, f, bb, code);
      hide G, MapOk;
      bld.SetInsertBlock(bb);
    }

    /** A block is entered at `f`. */
    method EnterDue(f: int)
      requires At(f, []) && fn.st < f < fn.end && bld.bb.addr < f && nextBB == f
      requires bld.emitted == [] && bld.count == 0
      modifies this`nextBB, this`layout, this`blocks, bbMap, bld`bb, bld`base, blocks.Values
      ensures At(f, []) && bld.bb.addr == f && f in blocks && Grew(old(blocks)) && Ahead(f)
    {
      hide Building, Views, RefsOk, InOrder, Registered, G, RefsValid, Aligned, Translatable, At, Valid, MapOk, ControlAt;
      AtFacts(f, []);
      BBOwned(f, []);
      var bb := BlockAt(f, bld.bb);
      SwitchTo(f, bb);
      AtFacts(f, []);
      AtMap(f, []);
      BBOwned(f, []);
      var n := NextBBAddr(f);
      if n != INVALID_ADDR { UpdateNextBB(n); }
      AlignedGap(f);
    }

    /** The start of the loop body of the translation: a new block is entered when
        one is due. */
    method EnterBlock(f: int)
      requires At(f, []) && f < fn.end && NextOk(f) && (f > fn.st ==> bld.bb.addr < f)
      requires bld.emitted == [] && bld.count == 0
      modifies this`nextBB, this`layout, this`blocks, bbMap, bld`bb, bld`base, blocks.Values
      ensures At(f, []) && (bld.bb.addr == f || f !in blocks) && Grew(old(blocks)) && Ahead(f)
      ensures f > fn.st && ControlAt(fn, f - 4) ==> f in blocks
    {
      hide Building, Views, RefsOk, InOrder, Registered, G, RefsValid, Aligned, Translatable, At, Valid, MapOk, ControlAt;
      AtFacts(f, []);
      if nextBB != 0 && f == nextBB {
        EnterDue(f);
      }
    }

    // No block starts between one instruction and the next.
    lemma AlignedGap(f: int)
      requires Aligned(f) && forall k :: k in blocks ==> Aligned(k)
      ensures forall k :: k in blocks && k > f ==> k >= f + 4
    {
      forall k | k in blocks && k > f ensures k >= f + 4 {
        Gap(f, k);
      }
    }

    // ---- words that ask for a label ----

    /** The block that holds the code for `f` must start at `f`. */
    method CutFront(f: int) returns (bb: BasicBlock)
      requires At(f + 4, []) && bld.Ready() && bld.emitted == [] && bld.bb.addr <= f
      modifies this`layout, this`blocks, bbMap, bld`bb, bld`base, bld.bb
      ensures At(f + 4, []) && bld.Ready() && bld.bb == bb && bb.addr == f && Owns(bb)
      ensures Grew(old(blocks)) && blocks.Keys == old(blocks).Keys + {f}
    {
      hide Building, RefsOk, InOrder, Registered, Aligned, G, RefsValid, Translatable, MapOk;
      AtFacts(f + 4, []);
      bb := bld.bb;
      if bb.addr != f {
        assert Aligned(f) by { FrontAligned(f, bb.addr); }
        assert bld.Out() == [];
        assert bld.Partial();
        bb := SplitBB(bb, f, f + 4);
        Resume(f + 4, bb);
      }
    }

    lemma FrontAligned(f: int, k: int)
      requires Aligned(f + 4)
      ensures Aligned(f)
    {
    }

    /** The words that wait for a label at `f` get the address of a block that starts
        there, and computed jumps may go to it. */
    method ProcessPending(f: int, ghost want: Pending)
      requires At(f + 4, []) && bld.Ready() && bld.emitted == [] && bld.bb.addr <= f && InFn(fn, f)
      requires Patched(fn, blocks, indBBs, image.sections, image.pending, want, f)
      modifies this`layout, this`blocks, this`indBBs, bbMap, bld`bb, bld`base, bld.bb, image
      ensures At(f + 4, []) && bld.Ready() && bld.emitted == [] && bld.bb.addr <= f
      ensures Patched(fn, blocks, indBBs, image.sections, image.pending, want, f + 4)
      ensures Grew(old(blocks)) && blocks.Keys <= old(blocks).Keys + {f}
    {
      hide Patched, At, InFn, AllOk;
      ghost var was, secs, pending, ind := blocks, image.sections, image.pending, indBBs;
      if f in image.pending {
        var bb := CutFront(f);
        PatchedGrows(fn, was, blocks, ind, secs, pending, want, f);
        WaitingOk(want, f);
        image.Patch(f, bb);
        indBBs := indBBs + [bb];
        ShapeOk(secs, image.sections, want);
        PatchedHere(fn, blocks, ind, secs, image.sections, pending, want, f);
      } else {
        PatchedSkip(fn, blocks, indBBs, image.sections, image.pending, want, f);
      }
    }

    lemma WaitingOk(want: Pending, f: int)
      requires Patched(fn, blocks, indBBs, image.sections, image.pending, want, f)
      ensures AllOk(image.sections, image.pending) && AllOk(image.sections, want)
      ensures f in image.pending ==> f in want && image.pending[f] == want[f]
    {
      hide SlotOk, LabelDone, InFn, Distinct;
      forall a, i | a in image.pending && 0 <= i < |image.pending[a]| ensures SlotOk(image.sections, image.pending[a][i]) {
        assert want[a] == image.pending[a];
      }
    }

    /** The block at the front, made when it is not there. */
    method BlockAt(f: int, keep: BasicBlock) returns (bb: BasicBlock)
      requires At(f, []) && f < fn.end && Aligned(f) && Owns(keep)
      modifies this`layout, this`blocks, bbMap
      ensures At(f, []) && Owns(bb) && bb.addr == f && Grew(old(blocks)) && Owns(keep)
    {
      hide Building, Views, RefsOk, InOrder, Registered, Aligned, At, Valid, MapOk, G, RefsValid;
      AtMap(f, []);
      var at := FindBB(f);
      if at != null {
        bb := at;
      } else {
        var before := LowerBoundBB(f);
        bb := MakeFront(f, before);
      }
    }

    /** A new block at the front. */
    method MakeFront(f: int, before: BasicBlock?) returns (bb: BasicBlock)
      requires At(f, []) && f < fn.end && Aligned(f) && f !in blocks && IsBefore(f, before)
      requires before != null ==> Owns(before) && f <= before.addr
      modifies this`layout, this`blocks, bbMap
      ensures At(f, []) && Owns(bb) && bb.addr == f && blocks == old(blocks)[f := bb] && fresh(bb)
    {
      hide Building, Views, RefsOk, InOrder, Registered, Aligned;
      AddBlock(fn, G(), chunks, bld.bb.addr, f, [], f);
      bb := NewBB(f, before);
    }

    // ---- the whole function ----

    // The block being filled ends in a terminator when the last instruction does.
    lemma TerminatedIff(f: int)
      requires At(f + 4, []) && bld.bb.addr <= f
      ensures bld.bb.Terminated() <==> ControlAt(fn, f)
    {
      hide Building;
      FilledEnd(fn, G(), chunks, bld.bb.addr, f + 4);
      var s := bld.bb.code;
      assert Views(s)[|s| - 1] == View(s[|s| - 1]);
    }

    // A plain instruction leaves the next block where it was.
    lemma NextAfterPlain(f: int, was: set<int>)
      requires AheadOf(was, nextBB, f)
      requires was <= blocks.Keys && blocks.Keys <= was + {f}
      requires Aligned(f) && (forall k :: k in blocks ==> Aligned(k)) && f >= fn.st && !ControlAt(fn, f)
      ensures NextOk(f + 4)
    {
      hide ControlAt, Aligned;
      AlignedGap(f);
    }

    lemma WiredHere(f: int)
      requires f in fn.code && (HasTarget(fn.code[f]) ==> Target(f, fn.code[f].off) in blocks && f + 4 in blocks)
      ensures Wired(fn, blocks.Keys, f, f + 4)
    {
    }

    // What the loop knows before the instruction at `f`.
    ghost predicate Loop(f: int, want: Pending)
      reads this, bbMap, bld, blocks.Values, image
    {
      && At(f, []) && NextOk(f) && (f > fn.st ==> bld.bb.addr < f)
      && bld.Ready() && bld.emitted == []
      && Patched(fn, blocks, indBBs, image.sections, image.pending, want, f)
    }

    /** The code for the instruction at `f`, in the block being filled. */
    method TranslateHere(f: int)
      requires At(f, []) && f < fn.end && (bld.bb.addr == f || f !in blocks) && Ahead(f)
      requires f in fn.code && GoodInstr(fn, f) && Aligned(f) && (f > fn.st && ControlAt(fn, f - 4) ==> f in blocks)
      modifies this`nextBB, this`layout, this`blocks, this`indBrs, this`chunks, bbMap, bld, blocks.Values
      ensures At(f + 4, []) && bld.Ready() && bld.emitted == [] && bld.bb.addr <= f
      ensures Grew(old(blocks)) && indBrs == old(indBrs) + ComputedAt(f)
      ensures if HasTarget(fn.code[f]) then nextBB == f + 4 else Ahead(f)
    {
      hide At, ControlAt, Implements, Aligned, GoodInstr, Wired, ComputedAt, Building, G, RefsValid, MapOk, Registered, InOrder, Views, HasTarget, AheadOf, Target;
      ghost var was := blocks;
      TranslateInstr(f);
      BBOwned(f, bld.Out());
      AtFacts(f, bld.Out());
      assert bld.bb in was.Values || fresh(bld.bb);
      WiredHere(f);
      Commit(f);
    }

    /** The code for the instruction at `f`, in the block where it belongs. */
    method TranslateAt(f: int)
      requires At(f, []) && f < fn.end && NextOk(f) && (f > fn.st ==> bld.bb.addr < f)
      requires bld.emitted == [] && bld.count == 0
      modifies this`nextBB, this`layout, this`blocks, this`indBrs, this`chunks, bbMap, bld, blocks.Values
      ensures At(f + 4, []) && bld.Ready() && bld.emitted == [] && bld.bb.addr <= f && InFn(fn, f)
      ensures Grew(old(blocks)) && indBrs == old(indBrs) + ComputedAt(f)
      ensures f in fn.code && if HasTarget(fn.code[f]) then nextBB == f + 4 else Ahead(f)
    {
      hide At, Translatable, ControlAt, Aligned, GoodInstr, ComputedAt, NextOk, HasTarget, AheadOf;
      AtFacts(f, []);
      InstrFacts(f);
      GoodHas(f);
      EnterBlock(f);
      forall b | b in blocks.Values ensures b in old(blocks).Values || fresh(b) {
        var k := KeyOf(blocks, b);
        assert k in old(blocks) ==> b == old(blocks)[k];
      }
      TranslateHere(f);
    }

    lemma GoodHas(f: int)
      requires GoodInstr(fn, f)
      ensures f in fn.code
    {
    }

    lemma NoTarget(f: int)
      requires f in fn.code && !ControlAt(fn, f)
      ensures !HasTarget(fn.code[f])
    {
    }

    lemma NextDue(f: int)
      requires nextBB == f + 4 && fn.st <= f
      ensures NextOk(f + 4)
    {
    }

    lemma LoopHolds(f: int, want: Pending)
      requires At(f + 4, []) && NextOk(f + 4) && bld.bb.addr <= f && bld.Ready() && bld.emitted == []
      requires Patched(fn, blocks, indBBs, image.sections, image.pending, want, f + 4)
      ensures Loop(f + 4, want)
    {
      hide At, Patched, NextOk;
    }

    /** The end of a turn: after an instruction that transfers control a block is due. */
    method EndTurn(f: int, ghost was: set<int>, ghost want: Pending)
      requires At(f + 4, []) && bld.bb.addr <= f && bld.Ready() && bld.emitted == [] && InFn(fn, f)
      requires was <= blocks.Keys && blocks.Keys <= was + {f}
      requires f in fn.code && if HasTarget(fn.code[f]) then nextBB == f + 4 else AheadOf(was, nextBB, f)
      requires Patched(fn, blocks, indBBs, image.sections, image.pending, want, f + 4)
      modifies this`nextBB
      ensures Loop(f + 4, want)
    {
      hide At, Patched, Translatable, ControlAt, NextOk, HasTarget, AheadOf, Loop;
      TerminatedIff(f);
      AtFacts(f + 4, []);
      if bld.bb.Terminated() {
        UpdateNextBB(f + INSTRUCTION_SIZE);
        StartBefore(f);
        NextDue(f);
      } else {
        NoTarget(f);
        AlignedBefore(f);
        StartBefore(f);
        hide Aligned;
        NextAfterPlain(f, was);
      }
      LoopHolds(f, want);
    }

    lemma AlignedBefore(f: int)
      requires InFn(fn, f)
      ensures Aligned(f)
    {
    }

    /** One turn of the loop over the instructions. */
    method TranslateStep(f: int, ghost want: Pending)
      requires Loop(f, want) && f < fn.end
      modifies this, bbMap, bld, blocks.Values, image
      ensures Loop(f + 4, want) && indBrs == old(indBrs) + ComputedAt(f) && Grew(old(blocks))
    {
      hide At, Patched, Translatable, Aligned, NextOk, ComputedAt, HasTarget, AheadOf, InFn;
      TranslateAt(f);
      hide Loop;
      ghost var was := blocks;
      PatchedGrows(fn, old(blocks), blocks, indBBs, image.sections, image.pending, want, f);
      BBOwned(f + 4, []);
      label P:
      ProcessPending(f, want);
      forall k | k in was ensures k in blocks {
        assert Grew@P(was);
      }
      EndTurn(f, was.Keys, want);
    }

    /** The computed jumps below `f`, in order. */
    ghost function ComputedTo(f: int): seq<int>
      decreases f
    {
      if f < fn.st + 4 || f < 4 then [] else ComputedTo(f - 4) + ComputedAt(f - 4)
    }

    /** All instructions of the function, in address order. */
    method TranslateInstrs(ghost want: Pending)
      requires Loop(fn.st, want) && indBrs == []
      modifies this, bbMap, bld, blocks.Values, image
      ensures Loop(fn.end, want) && indBrs == ComputedTo(fn.end) && Grew(old(blocks))
    {
      hide Loop, ComputedAt;
      var f := fn.st;
      LoopFacts(f, want);
      while f < fn.end
        invariant Loop(f, want) && 0 <= fn.st <= f <= fn.end && Aligned(f) && Aligned(fn.end)
        invariant indBrs == ComputedTo(f)
        invariant Grew(old(blocks))
        invariant forall b :: b in blocks.Values ==> b in old(blocks).Values || fresh(b)
        decreases fn.end - f
      {
        label L:
        ghost var was := blocks;
        TranslateStep(f, want);
        forall b | b in blocks.Values ensures b in old(blocks).Values || fresh(b) {
          var k := KeyOf(blocks, b);
          assert Grew@L(was);
        }
        Gap(f, fn.end);
        AlignedStep(f);
        f := f + INSTRUCTION_SIZE;
      }
    }

    lemma LoopFacts(f: int, want: Pending)
      requires Loop(f, want)
      ensures Aligned(f) && Aligned(fn.st) && Aligned(fn.end) && 0 <= fn.st <= f <= fn.end && fn.st < fn.end
    {
      AtFacts(f, []);
    }

    // ---- start and end ----

    /** Nothing is there yet. */
    ghost predicate Fresh()
      reads this`blocks, this`nextBB
    {
      blocks == map[] && nextBB == 0
    }

    /** The block at the start, made when it is not there. */
    method EntryBB() returns (bb: BasicBlock)
      requires MapOk() && RefsValid() && (fn.st in blocks || IsBefore(fn.st, null))
      modifies this`layout, this`blocks, bbMap
      ensures MapOk() && RefsValid() && Owns(bb) && bb.addr == fn.st
      ensures fn.st in old(blocks) ==> blocks == old(blocks)
      ensures fn.st !in old(blocks) ==> blocks == old(blocks)[fn.st := bb] && fresh(bb) && bb.code == [] && bb.firsts == []
    {
      hide InOrder, Registered, RefsOk, Views, G, RefsValid, MapOk;
      var at := FindBB(fn.st);
      if at != null { bb := at; } else { bb := NewBB(fn.st, null); }
    }

    /** The builder is set to the block at the start. */
    method Start()
      requires MapOk() && Fresh() && Translatable(fn)
      modifies this`layout, this`blocks, bbMap, bld
      ensures At(fn.st, []) && NextOk(fn.st) && bld.Ready() && bld.emitted == [] && Grew(old(blocks))
    {
      hide Translatable, InOrder, RefsOk, Views, G, Building, NextOk;
      assert RefsValid() by { FreshRefs(); }
      hide RefsValid;
      var bb := EntryBB();
      FreshBuilding();
      assert NextOk(fn.st) by { NextAtStart(); }
      hide MapOk;
      Begin(bb);
    }

    method Begin(bb: BasicBlock)
      requires MapOk() && RefsValid() && Owns(bb) && bb.addr == fn.st && Building(fn, G(), chunks, fn.st, fn.st, [])
      modifies bld
      ensures At(fn.st, []) && bld.Ready() && bld.emitted == []
    {
      hide Building, Registered, InOrder, RefsOk, Views;
      bld.bb := bb;
      bld.Reset(fn.st);
    }

    lemma NextAtStart()
      requires blocks.Keys == {fn.st} && nextBB == 0
      ensures NextOk(fn.st)
    {
    }

    lemma FreshRefs()
      requires Fresh()
      ensures RefsValid()
    {
    }

    lemma FreshBuilding()
      requires blocks.Keys == {fn.st} && Translatable(fn) && blocks[fn.st].code == [] && blocks[fn.st].firsts == []
      ensures Building(fn, G(), chunks, fn.st, fn.st, [])
    {
    }

    /** Every computed jump gets every label block as a destination. */
    method ProcessIndirectBranches()
      modifies this`dests
      ensures |dests| == |indBrs| && forall i :: 0 <= i < |dests| ==> dests[i] == indBBs
    {
      dests := [];
      for i := 0 to |indBrs|
        invariant |dests| == i && forall j :: 0 <= j < i ==> dests[j] == indBBs
      {
        var d := [];
        for j := 0 to |indBBs|
          invariant d == indBBs[..j]
        {
          d := d + [indBBs[j]];
        }
        assert d == indBBs;
        dests := dests + [d];
      }
    }

    /** The last block is dropped when it is empty. */
    method DropEmpty()
      requires MapOk() && |layout| > 0
      modifies this`layout
      ensures layout == if old(layout[|layout| - 1].code) == [] then old(layout)[..|old(layout)| - 1] else old(layout)
    {
      var last := bbMap.data[|bbMap.data| - 1].val;
      if last.code == [] { layout := layout[..|layout| - 1]; }
    }

    /** These are the blocks of the function but one at its end, in address order, the
        entry first. */
    ghost predicate LaidOut(keep: seq<BasicBlock>)
      reads this`blocks
    {
      && (forall i, j :: 0 <= i < j < |keep| ==> keep[i].addr < keep[j].addr)
      && (forall b :: b in keep ==> Owns(b) && b.addr != fn.end)
      && (forall k :: k in blocks && k != fn.end ==> blocks[k] in keep)
      && |keep| > 0 && keep[0].addr == fn.st
    }

    /** The host function is complete: its blocks are laid out in address order and
        form a finished graph. */
    ghost predicate Sealed()
      reads this`blocks, this`layout, this`chunks, blocks.Values
    {
      Finished(fn, G() - {fn.end}, chunks) && Registered(blocks) && LaidOut(layout)
    }

    /** The words that ask for a label of this function hold the block of the label,
        and every computed jump can go there. */
    ghost predicate JumpTables(want: Pending)
      reads this, image
    {
      && (forall a :: a in want && InFn(fn, a) ==> LabelDone(blocks, indBBs, image.sections, want[a], a))
      && (forall b :: b in indBBs ==> Owns(b) && b.addr in want && InFn(fn, b.addr))
      && indBrs == ComputedTo(fn.end) && |dests| == |indBrs|
      && (forall i :: 0 <= i < |dests| ==> dests[i] == indBBs)
    }

    // A block without code at the end of the graph is the one at the end address.
    lemma EmptyLast(k: int)
      requires At(fn.end, []) && k in blocks
      ensures k <= fn.end && (blocks[k].code == [] <==> k == fn.end)
    {
      hide Aligned, Done, Views, RefsOk, InOrder;
      var g := G();
      assert |g[k].code| == |blocks[k].code|;
      assert KeyOk(fn, k);
      if k < bld.bb.addr {
        assert Complete(fn, g, chunks, k);
        NonemptyBlock(fn, g, chunks, bld.bb.addr, k);
      } else if k == bld.bb.addr {
        FilledNonempty(fn, g, chunks, bld.bb.addr, fn.end);
      }
    }

    // The order of the blocks, the empty one at the end left out.
    lemma Ordered(keep: seq<BasicBlock>)
      requires At(fn.end, []) && |layout| > 0
      requires keep == if layout[|layout| - 1].code == [] then layout[..|layout| - 1] else layout
      ensures LaidOut(keep)
    {
      hide At;
      OrderedBlocks(keep);
    }

    lemma OrderedBlocks(keep: seq<BasicBlock>)
      requires At(fn.end, []) && |layout| > 0
      requires keep == if layout[|layout| - 1].code == [] then layout[..|layout| - 1] else layout
      ensures forall i, j :: 0 <= i < j < |keep| ==> keep[i].addr < keep[j].addr
      ensures forall b :: b in keep ==> Owns(b) && b.addr != fn.end
      ensures forall k :: k in blocks && k != fn.end ==> blocks[k] in keep
      ensures |keep| > 0 && keep[0].addr == fn.st
    {
      hide Building, G, RefsValid, At, Valid, Aligned;
      AtMap(fn.end, []);
      AtFacts(fn.end, []);
      var data, n := bbMap.data, |layout|;
      forall i | 0 <= i < n ensures data[i].key in blocks && layout[i] == blocks[data[i].key] && layout[i].addr == data[i].key {
      }
      EmptyLast(data[n - 1].key);
      forall k | k in blocks && k != fn.end ensures blocks[k] in keep {
        var i :| SortedMap.At(data, i, k);
        assert keep[i] == blocks[k];
      }
      assert blocks[fn.st] in keep;
    }

    // The last block ends in a terminator when the last instruction does.
    lemma ClosedEnd()
      requires At(fn.end, []) && bld.bb.addr < fn.end
      ensures Closed(fn) ==> bld.bb.Terminated() && Finished(fn, G() - {fn.end}, chunks)
    {
      hide Building, G, RefsValid, MapOk, Registered, InOrder, Finished, Aligned;
      AtFacts(fn.end, []);
      if Closed(fn) {
        Gap(bld.bb.addr, fn.end);
        TerminatedIff(fn.end - 4);
        FinishBuilding(fn, G(), chunks, bld.bb.addr);
      }
    }

    lemma LayoutThere(f: int)
      requires At(f, [])
      ensures |layout| > 0
    {
      AtFacts(f, []);
      hide Building, G, RefsValid;
      var i :| SortedMap.At(bbMap.data, i, fn.st);
    }

    method Seal()
      requires At(fn.end, []) && bld.bb.addr < fn.end
      modifies this`layout
      ensures Closed(fn) ==> Sealed()
    {
      hide Building, RefsValid, Finished, Closed, At, G, InOrder, Registered, LaidOut;
      AtMap(fn.end, []);
      LayoutThere(fn.end);
      ClosedEnd();
      Ordered(if layout[|layout| - 1].code == [] then layout[..|layout| - 1] else layout);
      DropEmpty();
    }

    /** The end of the translation of a function: a return is added when the last
        block has no terminator. */
    method Finish(ghost want: Pending)
      requires Loop(fn.end, want) && fn.st < fn.end && indBrs == ComputedTo(fn.end)
      modifies this`dests, this`layout, bld`emitted, bld`count, bld.bb`code
      ensures JumpTables(want)
      ensures Closed(fn) ==> Sealed()
      ensures bld.bb.code == old(bld.bb.code) + if old(bld.bb.Terminated()) then [] else [Inst(bld.addr, 0, RetVoid)]
    {
      hide At, NextOk, ComputedTo, LabelDone, Distinct, AllOk, Finished, Aligned, G, Sealed, Closed, InOrder, Registered;
      AtMap(fn.end, []);
      LayoutThere(fn.end);
      ClosedEnd();
      ProcessIndirectBranches();
      if bld.bb.Terminated() {
        Seal();
      } else {
        bld.EmitTerm(RetVoid);
        DropEmpty();
      }
    }

    /** The translation of a function, whose data has words that ask for the labels in
        `want`. */
    method Translate(ghost want: Pending)
      requires MapOk() && Fresh() && Translatable(fn) && indBrs == [] && indBBs == []
      requires image.pending == want && AllOk(image.sections, want) && Distinct(want)
      modifies this, bbMap, bld, blocks.Values, image
      ensures JumpTables(want)
      ensures Closed(fn) ==> Sealed()
    {
      hide MapOk, Fresh, At, NextOk, Patched, AllOk, Distinct, JumpTables, Sealed, Closed, Building, G, RefsValid;
      assert fn.st < fn.end && ComputedTo(fn.st) == [];
      hide Translatable, ComputedTo;
      PatchedStart(fn, blocks, image.sections, want);
      ghost var was := blocks;
      Start();
      PatchedGrows(fn, was, blocks, [], image.sections, want, want, fn.st);
      forall b | b in blocks.Values ensures b in was.Values || fresh(b) {
        var k := KeyOf(blocks, b);
      }
      label L:
      TranslateInstrs(want);
      BBOwned(fn.end, []);
      assert Grew@L(old@L(blocks));
      Finish(want);
    }

    /** The finished host function simulates the guest function: in every machine the
        guest run from the start ends with `r` exactly when the host run does. */
    lemma Simulates(m: Machine, e: Env, r: End)
      requires Sealed()
      ensures (exists n :: Run(fn.code, fn.st, m, n) == Some(r))
              <==> (exists n :: RunBlocks(Code(G() - {fn.end}), layout[0].addr, m, e, n) == Some(r))
    {
      hide Run, RunBlocks;
      Simulation(fn, G() - {fn.end}, chunks, fn.st, m, e, r);
    }

    /** A word that asks for the label at `a` names the block of the host function that
        starts there, and every computed jump has it as a destination. */
    lemma TableJump(want: Pending, a: int, i: nat)
      requires Sealed() && JumpTables(want) && a in want && InFn(fn, a) && i < |want[a]|
      ensures SlotOk(image.sections, want[a][i]) && WordAt(image.sections, want[a][i]).BlockAddress?
      ensures var bb := WordAt(image.sections, want[a][i]).bb;
              && bb in layout && bb.addr == a && Owns(bb) && (forall j :: 0 <= j < |dests| ==> bb in dests[j])
    {
      hide SlotOk, WordAt, Finished;
      assert LabelDone(blocks, indBBs, image.sections, want[a], a);
    }

    /** These are the addresses, all even, that the loader gives the labels words ask for. */
    ghost predicate TableWords(want: Pending, at: int -> Word, labels: Labels) {
      && (forall w :: Addr(w) in labels ==> labels[Addr(w)] in want && InFn(fn, labels[Addr(w)]) && at(labels[Addr(w)]) == w && !Odd(w))
      && (forall a :: a in want && InFn(fn, a) ==> Addr(at(a)) in labels && labels[Addr(at(a))] == a)
    }

    /** Every word that asks for a label is loaded as the address of that label, and the
        destinations of the computed jumps are exactly the labels that words ask for. */
    lemma TablesLoaded(want: Pending, at: int -> Word, labels: Labels)
      requires Sealed() && JumpTables(want) && TableWords(want, at, labels)
      ensures forall a, i :: a in want && InFn(fn, a) && 0 <= i < |want[a]| ==>
                && SlotOk(image.sections, want[a][i])
                && Addr(Loaded(WordAt(image.sections, want[a][i]), at)) in labels
                && labels[Addr(Loaded(WordAt(image.sections, want[a][i]), at))] == a
      ensures forall i, k :: 0 <= i < |dests| ==>
                ((exists b :: b in dests[i] && b.addr == k) <==> k in want && InFn(fn, k))
    {
      hide SlotOk, WordAt, Finished, Odd;
      forall a, i | a in want && InFn(fn, a) && 0 <= i < |want[a]|
        ensures SlotOk(image.sections, want[a][i]) && Loaded(WordAt(image.sections, want[a][i]), at) == at(a)
      {
        TableJump(want, a, i);
      }
      forall i, k | 0 <= i < |dests|
        ensures (exists b :: b in dests[i] && b.addr == k) <==> k in want && InFn(fn, k)
      {
        if k in want && InFn(fn, k) {
          assert LabelDone(blocks, indBBs, image.sections, want[k], k);
          assert blocks[k] in dests[i];
        }
      }
    }

    /** The host function simulates the guest function through its jump tables, from the
        start or any other block: the runs that go on at the labels end in the same ways if
        and only if the guest never comes to a computed jump with an odd sum. */
    lemma TablesSimulate(want: Pending, at: int -> Word, labels: Labels, a: int, m: Machine, es: nat -> Env)
      requires Sealed() && JumpTables(want) && TableWords(want, at, labels) && a in blocks && a != fn.end
      ensures (forall r :: GuestEnds(fn.code, labels, a, m, r) <==> HostEnds(Code(G() - {fn.end}), labels, a, m, es, r))
              <==> !OddJump(fn.code, labels, a, m)
    {
      hide SlotOk, WordAt, Finished, GuestEnds, HostEnds, OddJump, Odd;
      forall w | Addr(w) in labels
        ensures labels[Addr(w)] in G() - {fn.end}
      {
        assert LabelDone(blocks, indBBs, image.sections, want[labels[Addr(w)]], labels[Addr(w)]);
      }
      TableSimulation(fn, G() - {fn.end}, chunks, labels, a, m, es);
    }

    /** The block map and the blocks agree. */
    ghost predicate Mapped()
      reads this`blocks, bbMap
    {
      bbMap.Valid() && bbMap.Contents() == blocks && Registered(blocks)
    }

    /** The items of a sorted vector from position `st` on are entered, and the first start
        after `from` is noted. */
    method Receive(data: seq<SortedMap.Item<BasicBlock>>, st: nat, from: int, ghost was: map<int, BasicBlock>)
      requires Mapped() && blocks == map[] && 0 <= from && Registered(was)
      requires SortedMap.Sorted(data) && SortedMap.Denotes(data, was) && SortedMap.IsLowerBound(data, from, st)
      modifies this`blocks, this`nextBB, bbMap
      ensures Mapped() && blocks == From(was, from)
      ensures AheadOf(blocks.Keys, nextBB, from) && (nextBB != 0 ==> from < nextBB && nextBB in blocks)
    {
      hide SortedMap.Denotes, From, Passed, SortedMap.Sorted;
      nextBB := 0;
      PassedStart(data, was, from, st);
      var it := st;
      while it < |data|
        invariant st <= it <= |data| && Mapped() && blocks == Passed(data, was, from, it)
        invariant AheadOf(blocks.Keys, nextBB, from) && (nextBB != 0 ==> from < nextBB && nextBB in blocks)
      {
        PassedNext(data, was, from, st, it);
        var key, val := data[it].key, data[it].val;
        ghost var _ := bbMap.Upsert(key, val);
        blocks := blocks[key := val];
        if nextBB == 0 && key != from { nextBB := key; }
        it := it + 1;
      }
      PassedAll(data, was, from);
    }

    /** The blocks from `from` on go over to another function, which has none yet, and
        which is told the first of them that is not its own start; no block is lost or
        doubled. The blocks keep their place in the host function they were made in. */
    method TransferBBs(from: int, to: Function)
      requires Mapped() && to.Mapped() && to.blocks == map[] && to != this && to.bbMap != bbMap && 0 <= from
      modifies this`blocks, bbMap, to`blocks, to`nextBB, to.bbMap
      ensures Mapped() && to.Mapped()
      ensures blocks == Below(old(blocks), from) && to.blocks == From(old(blocks), from)
      ensures blocks + to.blocks == old(blocks) && blocks.Keys !! to.blocks.Keys
      ensures layout == old(layout) && to.layout == old(to.layout)
      ensures to.layout == [] && (forall k :: k in old(blocks) ==> k < from) ==> to.MapOk() && to.Fresh()
      ensures AheadOf(to.blocks.Keys, to.nextBB, from) && (to.nextBB != 0 ==> from < to.nextBB && to.nextBB in to.blocks)
    {
      hide SortedMap.Denotes, From, SortedMap.Sorted, AheadOf;
      ghost var was := blocks;
      var st := bbMap.LowerBound(from);
      to.Receive(bbMap.data, st, from, blocks);
      bbMap.EraseFrom(st, from);
      blocks := Below(blocks, from);
      HandedOver(was, from);
      hide Below, Mapped, MapOk, Fresh;
      if to.layout == [] { NewWhenEmpty(to); }
    }

    // A function that was given no blocks is as new.
    lemma NewWhenEmpty(to: Function)
      requires to.Mapped() && (to.nextBB != 0 ==> to.nextBB in to.blocks) && to.layout == []
      ensures to.blocks == map[] ==> to.MapOk() && to.Fresh()
    {
      if |to.bbMap.data| > 0 {
        assert SortedMap.At(to.bbMap.data, 0, to.bbMap.data[0].key);
      }
    }
  }

  ghost function Below(m: map<int, BasicBlock>, a: int): map<int, BasicBlock> {
    map k | k in m && k < a :: m[k]
  }

  ghost function From(m: map<int, BasicBlock>, a: int): map<int, BasicBlock> {
    map k | k in m && a <= k :: m[k]
  }

  // The blocks from `from` on that stand before position `it`.
  ghost function Passed(data: seq<SortedMap.Item<BasicBlock>>, m: map<int, BasicBlock>, from: int, it: nat): map<int, BasicBlock> {
    if it < |data| then Below(From(m, from), data[it].key) else From(m, from)
  }

  lemma PassedStart(data: seq<SortedMap.Item<BasicBlock>>, m: map<int, BasicBlock>, from: int, st: nat)
    requires SortedMap.Sorted(data) && SortedMap.Denotes(data, m) && SortedMap.IsLowerBound(data, from, st)
    ensures Passed(data, m, from, st) == map[]
  {
    forall k | k in From(m, from) ensures st < |data| && data[st].key <= k {
      var i :| SortedMap.At(data, i, k);
    }
  }

  lemma PassedAll(data: seq<SortedMap.Item<BasicBlock>>, m: map<int, BasicBlock>, from: int)
    ensures Passed(data, m, from, |data|) == From(m, from)
  {
  }

  lemma PassedNext(data: seq<SortedMap.Item<BasicBlock>>, m: map<int, BasicBlock>, from: int, st: nat, it: nat)
    requires SortedMap.Sorted(data) && SortedMap.Denotes(data, m) && SortedMap.IsLowerBound(data, from, st) && st <= it < |data|
    ensures Passed(data, m, from, it)[data[it].key := data[it].val] == Passed(data, m, from, it + 1)
    ensures from <= data[it].key && (forall k :: k in Passed(data, m, from, it) ==> k < data[it].key)
    ensures data[it].key in m && m[data[it].key] == data[it].val
  {
    var next := Passed(data, m, from, it + 1);
    forall k | k in next && k != data[it].key ensures k < data[it].key {
      var i :| SortedMap.At(data, i, k);
    }
    assert Passed(data, m, from, it)[data[it].key := data[it].val] == next;
  }

  lemma {:induction false} FirstsAscend(a: int, b: int)
    ensures var s := FirstsOf(a, b); Ascending(s) && forall i :: 0 <= i < |s| ==> a <= s[i].addr < b
    decreases b - a
  {
    if a + 4 <= b { FirstsAscend(a, b - 4); }
  }

  lemma NoViews(s: seq<Inst<BasicBlock>>)
    requires s == []
    ensures Views(s) == []
  {
  }

  lemma HandedOver(m: map<int, BasicBlock>, from: int)
    ensures Below(m, from) + From(m, from) == m && Below(m, from).Keys !! From(m, from).Keys
    ensures From(m, from) == map[] <==> forall k :: k in m ==> k < from
  {
    if k :| k in m && from <= k { assert k in From(m, from); }
  }

  lemma NonemptyBlock(fn: Fn, g: Graph, ch: Chunks, cur: int, k: int)
    requires Building(fn, g, ch, cur, fn.end, []) && k in g && k < cur
    ensures |g[k].code| > 0
  {
    hide Done, AllWired;
    assert Complete(fn, g, ch, k) && KeyOk(fn, k);
    var n := NextStart(g.Keys, k, fn.end);
    assert n <= cur && n in g && KeyOk(fn, n);
    DoneLess(fn, ch, fn.end, n);
    CatHead(fn, ch, k, n);
  }

  /** Code that runs on into `bb`: a branch is added when there is no terminator. */
  function ClosedOff(code: seq<Inst<BasicBlock>>, bb: BasicBlock): seq<Inst<BasicBlock>>
    requires |code| > 0
  {
    var last := code[|code| - 1];
    if IsTerm(last.op) then code else code + [Inst(last.addr, last.idx + 1, Br(bb))]
  }

  lemma ClosedRefs(blocks: map<int, BasicBlock>, code: seq<Inst<BasicBlock>>, bb: BasicBlock)
    requires |code| > 0 && RefsOk(blocks, code) && bb.addr in blocks && blocks[bb.addr] == bb
    ensures RefsOk(blocks, ClosedOff(code, bb))
  {
    hide RefsOk;
    var br := Inst(code[|code| - 1].addr, code[|code| - 1].idx + 1, Br(bb));
    OneRef(blocks, br);
    RefsAppend(blocks, code, [br]);
  }

  lemma ClosedView(fn: Fn, g: Graph, ch: Chunks, cur: int, f: int, bb: BasicBlock, code: seq<Inst<BasicBlock>>, firsts: seq<First>)
    requires Building(fn, g, ch, cur, f, []) && cur < f && bb.addr == f && |code| > 0
    requires g[cur] == VBlock(Views(code), firsts)
    ensures VBlock(Views(ClosedOff(code, bb)), firsts) == FullBlock(fn, ch, cur, f)
  {
    hide Building, Cat, FirstsOf;
    var br := Inst(code[|code| - 1].addr, code[|code| - 1].idx + 1, Br(bb));
    FilledEnd(fn, g, ch, cur, f);
    LastOfFilled(fn, g, ch, cur, f);
    ViewsAppend(code, [br]);
    assert Views([br]) == [View(br)];
    assert Views(code)[|code| - 1] == View(code[|code| - 1]);
  }

  // The block being filled holds something, and its last instruction is known.
  lemma LastOfFilled(fn: Fn, g: Graph, ch: Chunks, cur: int, f: int)
    requires Building(fn, g, ch, cur, f, []) && cur < f
    ensures var s := g[cur].code;
            |s| > 0 && Inst(s[|s| - 1].addr, s[|s| - 1].idx + 1, Br(f)) == FallBr(ch, f)
    ensures g[cur] == VBlock(Cat(ch, cur, f), FirstsOf(cur, f))
  {
    hide Aligned, AllWired, BlocksOk, Translatable, Cat, FirstsOf;
    BeforeCut(fn, ch, cur, f);
    assert Cat(ch, cur, f) + [] == Cat(ch, cur, f);
  }

  lemma FilledNonempty(fn: Fn, g: Graph, ch: Chunks, cur: int, f: int)
    requires Building(fn, g, ch, cur, f, []) && cur < f
    ensures |g[cur].code| > 0
  {
    LastOfFilled(fn, g, ch, cur, f);
  }

  lemma KeyOf<K, V>(m: map<K, V>, v: V) returns (k: K)
    requires v in m.Values
    ensures k in m && m[k] == v
  {
    k :| k in m && m[k] == v;
  }

  lemma NoRefs(blocks: map<int, BasicBlock>, s: seq<Inst<BasicBlock>>)
    requires forall i :: 0 <= i < |s| ==> Refs(s[i].op) == {}
    ensures RefsOk(blocks, s)
  {
  }

  lemma OneRef(blocks: map<int, BasicBlock>, i: Inst<BasicBlock>)
    requires forall b :: b in Refs(i.op) ==> b.addr in blocks && blocks[b.addr] == b
    ensures RefsOk(blocks, [i])
  {
  }

  lemma RefsAppend(blocks: map<int, BasicBlock>, s: seq<Inst<BasicBlock>>, t: seq<Inst<BasicBlock>>)
    requires RefsOk(blocks, s) && RefsOk(blocks, t)
    ensures RefsOk(blocks, s + t)
  {
  }

  lemma NextInFn(fn: Fn, g: Graph, ch: Chunks, cur: int, f: int, part: seq<Inst<int>>)
    requires Building(fn, g, ch, cur, f, part) && f < fn.end
    ensures f + 4 <= fn.end && Aligned(f + 4)
  {
    Gap(f, fn.end);
    AlignedStep(f);
  }

  // The block being filled is cut before the code of the current instruction.
  lemma FilledTail(fn: Fn, g: Graph, ch: Chunks, cur: int, f: int, part: seq<Inst<int>>, base: seq<Inst<BasicBlock>>, emitted: seq<Inst<BasicBlock>>, p: nat)
    requires Building(fn, g, ch, cur, f, part) && g[cur].code == Views(base + emitted) && part == Views(emitted)
    requires p <= |Cat(ch, cur, f)|
    ensures p <= |base|
    ensures var low := (base + emitted)[p..]; |emitted| <= |low| && low[|low| - |emitted|..] == emitted
  {
    assert |g[cur].code| == |base| + |emitted|;
  }

  // The cut point of a block in terms of its own instructions.
  lemma CodeOfCut(code: seq<Inst<BasicBlock>>, firsts: seq<First>, ch: Chunks, k: int, t: int, p: int, q: int)
    requires CutAt(VBlock(Views(code), firsts), ch, k, t, p, q)
    ensures 0 < p < |code| && code[p].addr == t && code[p].idx == 0
    ensures forall i :: 0 <= i < p ==> code[i].addr != t
    ensures Inst(Views(code)[p - 1].addr, Views(code)[p - 1].idx + 1, Br(t)) == FallBr(ch, t)
    ensures 0 <= q < |firsts| && firsts[q] == First(t, t, 0)
    ensures forall i :: 0 <= i < q ==> firsts[i].addr < t
    ensures forall i :: q < i < |firsts| ==> t < firsts[i].addr
  {
    forall i | 0 <= i < |code| ensures code[i].addr == Views(code)[i].addr && code[i].idx == Views(code)[i].idx {
    }
  }

  // More blocks in the map: the code still refers to registered ones.
  lemma RefsGrow(blocks: map<int, BasicBlock>, blocks': map<int, BasicBlock>, code: seq<Inst<BasicBlock>>)
    requires RefsOk(blocks, code)
    requires forall k :: k in blocks ==> k in blocks' && blocks'[k] == blocks[k]
    ensures RefsOk(blocks', code)
  {
  }

  lemma RefsSplit(blocks: map<int, BasicBlock>, blocks': map<int, BasicBlock>, code: seq<Inst<BasicBlock>>, p: int, br: Inst<BasicBlock>, low: BasicBlock)
    requires RefsOk(blocks, code) && 0 <= p <= |code|
    requires forall k :: k in blocks ==> k in blocks' && blocks'[k] == blocks[k]
    requires low.addr in blocks' && blocks'[low.addr] == low && br.op == Br(low)
    ensures RefsOk(blocks', code[..p] + [br]) && RefsOk(blocks', code[p..])
  {
    RefsGrow(blocks, blocks', code);
  }

  // The halves of a block that was cut, as values.
  lemma HalvesView(code: seq<Inst<BasicBlock>>, firsts: seq<First>, p: int, q: int, br: Inst<BasicBlock>, low: BasicBlock)
    requires 0 < p <= |code| && 0 <= q <= |firsts|
    requires br == Inst(code[p - 1].addr, code[p - 1].idx + 1, Br(low))
    ensures var b := VBlock(Views(code), firsts);
            && VBlock(Views(code[..p] + [br]), firsts[..q])
               == TopHalf(b, p, q, Inst(b.code[p - 1].addr, b.code[p - 1].idx + 1, Br(low.addr)))
            && VBlock(Views(code[p..]), firsts[q..]) == BottomHalf(b, p, q)
  {
    assert Views(code[..p] + [br]) == Views(code)[..p] + [View(br)];
    assert Views(code[p..]) == Views(code)[p..];
  }
}

/** The Patricia trie: a binary trie without separate leaves.  Every node tests one
    bit on the way down and is reached again, over a link that does not lead to a
    later bit, as the holder of its own key.  A trie is described by a ghost tree in
    which both roles are apart. */
module Patricia {
  import opened PatriciaMasks

  const LAST: Key := 0x8000_0000

  function Bit(i: int, key: Key): bool {
    0 <= i < 32 && key & (1 << (31 - i)) != 0
  }

  function Masked(key: Key, mask: Key): Key {
    key & mask
  }

  lemma MaskedTwice(key: Key, mask: Key)
    ensures Masked(Masked(key, mask), mask) == Masked(key, mask)
  {
  }

  class Node {
    var key: Key
    var masks: seq<Entry>
    var mlen: nat
    var b: int
    var left: Node?
    var right: Node?

    constructor (key: Key, mask: Key, data: int)
      ensures this.key == key && masks == [Entry(mask, data)] && mlen == 1 && b == 0
    {
      this.key, masks, mlen, b, left, right := key, [Entry(mask, data)], 1, 0, null, null;
    }

    /** The first mask, which a search looks at. */
    function Mask(): Key
      reads this`masks
    {
      if masks == [] then 0 else masks[0].mask
    }

    /** The masks in use are in order, and every mask keeps the key. */
    ghost predicate Kept()
      reads this`key, this`masks, this`mlen
    {
      && 0 < |masks| && mlen <= |masks| && Ascending(masks[..mlen])
      && forall e :: e in masks ==> Masked(key, e.mask) == key
    }

    /** One more mask: a mask that is there gets the new data, another one goes into a new
        list in order. */
    method MergeMask(x: Entry)
      requires Kept() && Masked(key, x.mask) == key
      requires HasMask(masks[..mlen], x.mask) || Ends(masks[..mlen], x.mask)
      modifies this`masks, this`mlen
      ensures Kept() && masks[..mlen] == old(Merged(masks[..mlen], x))
    {
      hide Masked, Merged, Ascending, Ends, HasMask;
      ghost var ms := masks[..mlen];
      MergedKeeps(ms, x);
      var i := FindMask(masks[..mlen], x.mask);
      if i < mlen {
        ReplacedAt(ms, x, i);
        masks := masks[i := Entry(masks[i].mask, x.data)];
        assert masks[..mlen] == ms[i := x];
      } else {
        masks := Merge(masks[..mlen], x);
        mlen := |masks|;
        assert masks[..mlen] == masks;
      }
    }
  }

  /** A link: to a node as the holder of its key, or to a node that tests bit `b`. */
  datatype Tree = Leaf(n: Node, key: Key) | Inner(n: Node, b: int, l: Tree, r: Tree)

  ghost function Inners(t: Tree): set<Node> {
    match t case Leaf(_, _) => {} case Inner(n, _, l, r) => {n} + Inners(l) + Inners(r)
  }

  ghost function Leaves(t: Tree): set<(Node, Key)> {
    match t case Leaf(n, k) => {(n, k)} case Inner(_, _, l, r) => Leaves(l) + Leaves(r)
  }

  ghost function Nodes(t: Tree): set<Node> {
    match t case Leaf(n, _) => {n} case Inner(n, _, l, r) => {n} + Nodes(l) + Nodes(r)
  }

  ghost predicate Distinct(t: Tree) {
    match t
    case Leaf(_, _) => true
    case Inner(n, _, l, r) => n !in Inners(l) + Inners(r) && Inners(l) !! Inners(r) && Distinct(l) && Distinct(r)
  }

  /** The links between the nodes are those of the tree. */
  ghost predicate Links(t: Tree)
    reads Inners(t)`left, Inners(t)`right
  {
    match t
    case Leaf(_, _) => true
    case Inner(n, _, l, r) => n.left == l.n && n.right == r.n && Links(l) && Links(r)
  }

  /** Under a node that tests bit `up`, links to testing nodes go to later bits and
      all other links go back; keys and bits are those of the tree. */
  ghost predicate Labels(t: Tree, up: int)
    reads Nodes(t)`b, Nodes(t)`key
  {
    match t
    case Leaf(n, k) => n.key == k && n.b <= up
    case Inner(n, b, l, r) => n.b == b && up < b && Labels(l, b) && Labels(r, b)
  }

  // ---- bits ----

  /** The keys agree on the bits from 1 up to `b`. */
  ghost predicate Agree(x: Key, y: Key, b: int) {
    forall i {:trigger Bit(i, x)} {:trigger Bit(i, y)} :: 1 <= i < b ==> Bit(i, x) == Bit(i, y)
  }

  // A key is its 32 bits.
  lemma Extensional(x: Key, y: Key)
    requires Bit(0, x) == Bit(0, y) && Bit(1, x) == Bit(1, y) && Bit(2, x) == Bit(2, y) && Bit(3, x) == Bit(3, y)
    requires Bit(4, x) == Bit(4, y) && Bit(5, x) == Bit(5, y) && Bit(6, x) == Bit(6, y) && Bit(7, x) == Bit(7, y)
    requires Bit(8, x) == Bit(8, y) && Bit(9, x) == Bit(9, y) && Bit(10, x) == Bit(10, y) && Bit(11, x) == Bit(11, y)
    requires Bit(12, x) == Bit(12, y) && Bit(13, x) == Bit(13, y) && Bit(14, x) == Bit(14, y) && Bit(15, x) == Bit(15, y)
    requires Bit(16, x) == Bit(16, y) && Bit(17, x) == Bit(17, y) && Bit(18, x) == Bit(18, y) && Bit(19, x) == Bit(19, y)
    requires Bit(20, x) == Bit(20, y) && Bit(21, x) == Bit(21, y) && Bit(22, x) == Bit(22, y) && Bit(23, x) == Bit(23, y)
    requires Bit(24, x) == Bit(24, y) && Bit(25, x) == Bit(25, y) && Bit(26, x) == Bit(26, y) && Bit(27, x) == Bit(27, y)
    requires Bit(28, x) == Bit(28, y) && Bit(29, x) == Bit(29, y) && Bit(30, x) == Bit(30, y) && Bit(31, x) == Bit(31, y)
    ensures x == y
  {
  }

  lemma SameBits(x: Key, y: Key)
    requires Agree(x, y, 32) && Bit(0, x) == Bit(0, y)
    ensures x == y
  {
    hide Bit;
    Extensional(x, y);
  }

  // The only key that differs from zero in bit 0 alone.
  lemma TopKey(x: Key)
    ensures Agree(x, 0, 32) && Bit(0, x) ==> x == LAST
    ensures Agree(LAST, 0, 32) && Bit(0, LAST) && !Bit(0, 0)
  {
    assert Bit(0, LAST) && !Bit(0, 0);
    NoBits();
    if Agree(x, 0, 32) && Bit(0, x) { SameBits(x, LAST); }
  }

  lemma NoBits()
    ensures Agree(LAST, 0, 32)
  {
    forall i | 1 <= i < 32 ensures Bit(i, LAST) == Bit(i, 0) {
      LowBit(31 - i);
    }
  }

  lemma LowBit(n: nat)
    requires n < 31
    ensures LAST & (1 << n) == 0 && (0 as Key) & (1 << n) == 0
  {
  }

  // ---- the trie property ----

  /** A key under a node that tests bit `b` belongs to the side its bit says, and
      agrees with the other keys there on all earlier bits. */
  ghost predicate Fits(t: Tree, b: int, side: bool, ref: Key) {
    forall e :: e in Leaves(t) ==> Bit(b, e.1) == side && Agree(e.1, ref, b)
  }

  ghost predicate Good(t: Tree) {
    match t
    case Leaf(_, _) => true
    case Inner(_, b, l, r) =>
      && 1 <= b < 32 && Good(l) && Good(r)
      && (l.Inner? ==> b < l.b) && (r.Inner? ==> b < r.b)
      && exists ref :: Fits(l, b, false, ref) && Fits(r, b, true, ref)
  }

  /** The holder a search for `key` ends at. */
  ghost function Find(t: Tree, key: Key): (e: (Node, Key))
    ensures e in Leaves(t)
  {
    match t case Leaf(n, k) => (n, k) case Inner(_, b, l, r) => if Bit(b, key) then Find(r, key) else Find(l, key)
  }

  /** A stored key is found. */
  lemma {:induction false} FindStored(t: Tree, e: (Node, Key))
    requires Good(t) && e in Leaves(t)
    ensures Find(t, e.1) == e
  {
    hide Bit, Agree;
    if t.Inner? {
      var ref :| Fits(t.l, t.b, false, ref) && Fits(t.r, t.b, true, ref);
      if e in Leaves(t.r) { FindStored(t.r, e); } else { FindStored(t.l, e); }
    }
  }

  // ---- insertion ----

  function Fork(t: Tree, n: Node, key: Key, d: int): Tree {
    if Bit(d, key) then Inner(n, d, t, Leaf(n, key)) else Inner(n, d, Leaf(n, key), t)
  }

  /** The tree with `n` put in where bit `d` is looked at. */
  ghost function InsertT(t: Tree, n: Node, key: Key, d: int): Tree {
    if t.Leaf? || t.b >= d then Fork(t, n, key, d)
    else if Bit(t.b, key) then t.(r := InsertT(t.r, n, key, d))
    else t.(l := InsertT(t.l, n, key, d))
  }

  // On the way of `key` down the tree no node tests bit `d`.
  ghost predicate Avoids(t: Tree, key: Key, d: int) {
    match t
    case Leaf(_, _) => true
    case Inner(_, b, l, r) => b != d && (b < d ==> Avoids(if Bit(b, key) then r else l, key, d))
  }

  ghost predicate FirstDiff(x: Key, y: Key, d: int) {
    1 <= d < 32 && Agree(x, y, d) && Bit(d, x) != Bit(d, y)
  }

  lemma {:induction false} InsertNodes(t: Tree, n: Node, key: Key, d: int)
    ensures Inners(InsertT(t, n, key, d)) == Inners(t) + {n}
    ensures Leaves(InsertT(t, n, key, d)) == Leaves(t) + {(n, key)}
    ensures Nodes(InsertT(t, n, key, d)) == Nodes(t) + {n}
  {
    hide Bit;
    if t.Inner? && t.b < d {
      if Bit(t.b, key) { InsertNodes(t.r, n, key, d); } else { InsertNodes(t.l, n, key, d); }
    }
  }

  lemma {:induction false} InsertDistinct(t: Tree, n: Node, key: Key, d: int)
    requires Distinct(t) && n !in Inners(t)
    ensures Distinct(InsertT(t, n, key, d))
  {
    hide Bit;
    if t.Inner? && t.b < d {
      if Bit(t.b, key) {
        InsertDistinct(t.r, n, key, d);
        InsertNodes(t.r, n, key, d);
      } else {
        InsertDistinct(t.l, n, key, d);
        InsertNodes(t.l, n, key, d);
      }
    }
  }

  // All holders under a node agree with each other before the bit it tests.
  lemma AllAgree(t: Tree, e: (Node, Key), e': (Node, Key))
    requires Good(t) && t.Inner? && e in Leaves(t) && e' in Leaves(t)
    ensures Agree(e.1, e'.1, t.b)
  {
    var ref :| Fits(t.l, t.b, false, ref) && Fits(t.r, t.b, true, ref);
    hide Bit;
    assert Agree(e.1, ref, t.b) && Agree(e'.1, ref, t.b);
  }

  // Where the new node goes all holders differ from `key` in bit `d` and agree before.
  lemma ForkFits(t: Tree, key: Key, d: int)
    requires Good(t) && FirstDiff(key, Find(t, key).1, d) && (t.Inner? ==> t.b > d)
    ensures Fits(t, d, !Bit(d, key), key)
  {
    hide Bit;
    var f := Find(t, key);
    forall e | e in Leaves(t) ensures Bit(d, e.1) == !Bit(d, key) && Agree(e.1, key, d) {
      if t.Inner? { AllAgree(t, e, f); }
    }
  }

  lemma {:induction false} FindAvoids(t: Tree, key: Key, d: int)
    requires Good(t) && FirstDiff(key, Find(t, key).1, d)
    ensures Avoids(t, key, d)
  {
    hide Bit, Agree;
    if t.Inner? {
      var ref :| Fits(t.l, t.b, false, ref) && Fits(t.r, t.b, true, ref);
      FindAvoids(if Bit(t.b, key) then t.r else t.l, key, d);
    }
  }

  // The leaf `key` next to the holders of the side it belongs to.
  lemma FitsMore(t: Tree, t': Tree, b: int, side: bool, ref: Key, n: Node, key: Key)
    requires Fits(t, b, side, ref) && Leaves(t') == Leaves(t) + {(n, key)} && Bit(b, key) == side && Agree(key, ref, b)
    ensures Fits(t', b, side, ref)
  {
    hide Bit, Agree;
  }

  /** Insertion keeps the trie property. */
  lemma {:induction false} InsertGood(t: Tree, n: Node, key: Key, d: int)
    requires Good(t) && FirstDiff(key, Find(t, key).1, d)
    ensures Good(InsertT(t, n, key, d))
  {
    hide Bit, Agree;
    FindAvoids(t, key, d);
    if t.Leaf? || t.b >= d {
      ForkFits(t, key, d);
      AgreeSelf(key, d);
      assert Fits(Leaf(n, key), d, Bit(d, key), key);
      assert Good(Leaf(n, key));
    } else {
      var ref :| Fits(t.l, t.b, false, ref) && Fits(t.r, t.b, true, ref);
      var f := Find(t, key);
      InsertNodes(if Bit(t.b, key) then t.r else t.l, n, key, d);
      InsertGood(if Bit(t.b, key) then t.r else t.l, n, key, d);
      FoundAgrees(key, f.1, ref, d, t.b);
      FitsMore(if Bit(t.b, key) then t.r else t.l, InsertT(if Bit(t.b, key) then t.r else t.l, n, key, d), t.b, Bit(t.b, key), ref, n, key);
      assert InsertT(t, n, key, d).b == t.b;
    }
  }

  lemma AgreeSelf(x: Key, d: int)
    ensures Agree(x, x, d)
  {
  }

  lemma FoundAgrees(key: Key, f: Key, ref: Key, d: int, b: int)
    requires Agree(key, f, d) && Agree(f, ref, b) && b <= d
    ensures Agree(key, ref, b)
  {
    hide Bit;
  }

  // ---- the operations ----

  lemma InnersAreNodes(t: Tree)
    ensures Inners(t) <= Nodes(t) && t.n in Nodes(t)
  {
  }

  // A node goes in above `h`.
  method PutFork(h: Node, n: Node, d: int, ghost up: int, ghost t: Tree)
    requires h == t.n && Links(t) && Labels(t, up) && n !in Nodes(t) && up < d < 32 && (t.Inner? ==> d < t.b)
    modifies n`b, n`left, n`right
    ensures var t' := Fork(t, n, n.key, d); n == t'.n && Links(t') && Labels(t', up)
  {
    hide Bit;
    InnersAreNodes(t);
    n.b := d;
    n.left := if Bit(d, n.key) then h else n;
    n.right := if Bit(d, n.key) then n else h;
    assert Links(t) && Labels(t, d) by { LabelsLower(t, up, d); }
  }

  lemma LabelsLower(t: Tree, up: int, d: int)
    requires Labels(t, up) && up < d && (t.Inner? ==> d < t.b)
    ensures Labels(t, d)
  {
  }

  /** Put `n` in below `p`, on the way its key takes, where bit `d` is looked at. */
  method InsertR(h: Node, n: Node, d: int, p: Node, ghost t: Tree) returns (res: Node)
    requires h == t.n && Links(t) && Labels(t, p.b) && Distinct(t) && n !in Nodes(t) && n != p
    requires 1 <= d < 32 && p.b < d && Avoids(t, n.key, d)
    modifies Inners(t)`left, Inners(t)`right, n`b, n`left, n`right
    ensures var t' := InsertT(t, n, n.key, d); res == t'.n && Links(t') && Labels(t', p.b)
    decreases t
  {
    hide Bit;
    InnersAreNodes(t);
    if h.b >= d || h.b <= p.b {
      PutFork(h, n, d, p.b, t);
      res := n;
    } else if Bit(h.b, n.key) {
      res := InsertRight(h, n, d, p.b, t);
    } else {
      res := InsertLeft(h, n, d, p.b, t);
    }
  }

  method InsertRight(h: Node, n: Node, d: int, ghost up: int, ghost t: Tree) returns (res: Node)
    requires t.Inner? && h == t.n && Links(t) && Labels(t, up) && Distinct(t) && n !in Nodes(t)
    requires 1 <= d < 32 && t.b < d && Avoids(t.r, n.key, d)
    modifies Inners(t)`left, Inners(t)`right, n`b, n`left, n`right
    ensures var t' := t.(r := InsertT(t.r, n, n.key, d)); res == t'.n && Links(t') && Labels(t', up)
    decreases t, 0
  {
    hide Bit;
    InnersAreNodes(t.l);
    InnersAreNodes(t.r);
    ghost var r' := InsertT(t.r, n, n.key, d);
    InsertNodes(t.r, n, n.key, d);
    assert allocated(Inners(t.l)) && allocated(Nodes(t.l));
    var c := InsertR(h.right, n, d, h, t.r);
    assert Links(t.l) && Labels(t.l, t.b);
    h.right := c;
    assert Links(r') && Links(t.l);
    res := h;
  }

  method InsertLeft(h: Node, n: Node, d: int, ghost up: int, ghost t: Tree) returns (res: Node)
    requires t.Inner? && h == t.n && Links(t) && Labels(t, up) && Distinct(t) && n !in Nodes(t)
    requires 1 <= d < 32 && t.b < d && Avoids(t.l, n.key, d)
    modifies Inners(t)`left, Inners(t)`right, n`b, n`left, n`right
    ensures var t' := t.(l := InsertT(t.l, n, n.key, d)); res == t'.n && Links(t') && Labels(t', up)
    decreases t, 0
  {
    hide Bit;
    InnersAreNodes(t.l);
    InnersAreNodes(t.r);
    ghost var l' := InsertT(t.l, n, n.key, d);
    InsertNodes(t.l, n, n.key, d);
    assert allocated(Inners(t.r)) && allocated(Nodes(t.r));
    var c := InsertR(h.left, n, d, h, t.l);
    assert Links(t.r) && Labels(t.r, t.b);
    h.left := c;
    assert Links(l') && Links(t.r);
    res := h;
  }

  /** The key of `n` is that of the query under the mask of `n`. */
  predicate Matches(n: Node, key: Key)
    reads n`key, n`masks
  {
    n.key == Masked(key, n.Mask())
  }

  /** The answer of a search below a node: the holder it ends at when that matches,
      and otherwise the last node on the way that does. */
  ghost function Best(t: Tree, key: Key, best: Node?): Node?
    reads Nodes(t)`key, Nodes(t)`masks
  {
    match t
    case Leaf(n, _) => if Matches(n, key) then n else best
    case Inner(n, b, l, r) =>
      var best' := if Matches(n, key) then n else best;
      if Bit(b, key) then Best(r, key, best') else Best(l, key, best')
  }

  /** The keys on one side of the head, and the nodes that hold them. */
  ghost predicate Side(t: Tree, head: Node, side: bool)
    reads Nodes(t)`key, Nodes(t)`b, Inners(t)`left, Inners(t)`right
  {
    && Links(t) && Labels(t, 0) && Distinct(t) && Good(t) && head !in Inners(t)
    && (forall e :: e in Leaves(t) ==> e.0 == head || (e.0 in Inners(t) && Bit(0, e.1) == side))
    && (forall n :: n in Inners(t) + {head} ==> n in Nodes(t) && (n, n.key) in Leaves(t))
  }

  lemma LeafLabels(t: Tree, up: int, e: (Node, Key))
    requires Labels(t, up) && e in Leaves(t)
    ensures e.0 in Nodes(t) && e.0.key == e.1
  {
  }

  lemma NodesOf(t: Tree, n: Node)
    requires n in Nodes(t)
    ensures n in Inners(t) || exists k :: (n, k) in Leaves(t)
  {
    match t
    case Leaf(_, k) => assert (n, k) in Leaves(t);
    case Inner(_, _, l, r) =>
      if n in Nodes(l) { NodesOf(l, n); } else if n in Nodes(r) { NodesOf(r, n); }
  }

  lemma NodesStored(t: Tree, head: Node, side: bool)
    requires Side(t, head, side)
    ensures Nodes(t) <= Inners(t) + {head}
  {
    hide Links, Labels, Distinct, Good, Bit;
    forall n | n in Nodes(t) ensures n in Inners(t) + {head} {
      NodesOf(t, n);
    }
  }

  // ---- what a search answers ----

  // The nodes a search looks at, the holder last.
  ghost function Way(t: Tree, key: Key): seq<Node> {
    match t
    case Leaf(n, _) => [n]
    case Inner(n, b, l, r) => [n] + Way(if Bit(b, key) then r else l, key)
  }

  // The last of the nodes that matches, or `best`.
  ghost function LastMatch(w: seq<Node>, key: Key, best: Node?): (m: Node?)
    reads w
    ensures m == best || (m in w && Matches(m, key))
    ensures m == null ==> forall n :: n in w ==> !Matches(n, key)
  {
    if w == [] then best
    else if Matches(w[|w| - 1], key) then w[|w| - 1]
    else
      assert w == w[..|w| - 1] + [w[|w| - 1]];
      LastMatch(w[..|w| - 1], key, best)
  }

  lemma {:induction false} LastMatchCons(n: Node, w: seq<Node>, key: Key, best: Node?)
    ensures LastMatch([n] + w, key, best) == LastMatch(w, key, if Matches(n, key) then n else best)
    decreases |w|
  {
    hide Matches;
    if w != [] {
      var k := |w| - 1;
      assert ([n] + w)[..|w|] == [n] + w[..k];
      LastMatchCons(n, w[..k], key, best);
    } else {
      assert ([n] + w)[..0] == w;
    }
  }

  /** The answer is the last node on the way that matches. */
  lemma {:induction false} BestIsLast(t: Tree, key: Key, best: Node?)
    ensures forall n :: n in Way(t, key) ==> n in Nodes(t)
    ensures Way(t, key)[|Way(t, key)| - 1] == Find(t, key).0
    ensures Best(t, key, best) == LastMatch(Way(t, key), key, best)
  {
    hide Bit, Matches;
    match t {
      case Leaf(n, _) =>
        LastMatchCons(n, [], key, best);
        assert [n] + [] == [n];
      case Inner(n, b, l, r) =>
        var c := if Bit(b, key) then r else l;
        BestIsLast(c, key, if Matches(n, key) then n else best);
        LastMatchCons(n, Way(c, key), key, best);
    }
  }

  lemma LastIs(w: seq<Node>, n: Node, key: Key, best: Node?)
    requires w != [] && w[|w| - 1] == n && Matches(n, key)
    ensures LastMatch(w, key, best) == n
  {
  }

  method FirstDifference(x: Key, y: Key) returns (i: int)
    ensures 1 <= i <= 32 && Agree(x, y, i)
    ensures i < 32 ==> Bit(i, x) != Bit(i, y)
  {
    hide Bit;
    i := 1;
    while i < 32 && Bit(i, x) == Bit(i, y)
      invariant 1 <= i <= 32 && Agree(x, y, i)
    {
      i := i + 1;
    }
  }

  class Trie {
    const head: Node
    ghost var l: Tree
    ghost var r: Tree
    // the nodes in the trie, the head among them
    ghost var nodes: set<Node>

    ghost predicate Valid()
      reads this, head`key, head`b, head`left, head`right, nodes`key, nodes`masks, nodes`mlen, nodes`b, nodes`left, nodes`right
    {
      Joined(l, r, nodes)
    }

    /** The two sides hang on the head and hold the nodes. */
    ghost predicate Joined(l: Tree, r: Tree, nodes: set<Node>)
      reads head`key, head`b, head`left, head`right, nodes`key, nodes`masks, nodes`mlen, nodes`b, nodes`left, nodes`right
    {
      && nodes == Inners(l) + Inners(r) + {head} && Nodes(l) <= nodes && Nodes(r) <= nodes
      && head.b == 0 && head.key == 0 && head.left == l.n && head.right == r.n
      && Side(l, head, false) && Side(r, head, true) && Inners(l) !! Inners(r)
      && (forall n :: n in nodes ==> n.Kept())
    }

    /** The head alone: both links lead back to it. */
    constructor (mask: Key, data: int)
      ensures Valid() && nodes == {head} && fresh(head) && head.masks == [Entry(mask, data)]
    {
      head := new Node(0, mask, data);
      l, r, nodes := Leaf(head, 0), Leaf(head, 0), {head};
      new;
      head.left, head.right := head, head;
      assert Leaves(l) == {(head, 0)};
    }

    ghost function SideOf(key: Key): Tree
      reads this
    {
      if Bit(0, key) then r else l
    }

    /** A stored key is held by the node a search for it ends at. */
    lemma StoredFound(n: Node)
      requires Valid() && n in nodes
      ensures Find(SideOf(n.key), n.key) == (n, n.key)
    {
      hide Links, Distinct;
      var t := SideOf(n.key);
      TopKey(n.key);
      assert (n, n.key) in Leaves(t);
      hide Bit;
      FindStored(t, (n, n.key));
    }

    /** What a search ends at is stored. */
    lemma FoundStored(key: Key)
      requires Valid()
      ensures var e := Find(SideOf(key), key);
              e.0 in nodes && e.0.key == e.1 && (e.0 == head || Bit(0, e.1) == Bit(0, key))
    {
      hide Links, Distinct, Bit;
      LeafLabels(SideOf(key), 0, Find(SideOf(key), key));
    }

    /** The first bit that differs from the found key is inside the word, but for the
        key with the top bit alone. */
    lemma DiffInWord(key: Key, d: int)
      requires Valid() && key != Find(SideOf(key), key).1
      requires 1 <= d <= 32 && Agree(key, Find(SideOf(key), key).1, d)
      requires d < 32 ==> Bit(d, key) != Bit(d, Find(SideOf(key), key).1)
      ensures d < 32 <==> key != LAST
    {
      hide Links, Distinct;
      var e := Find(SideOf(key), key);
      FoundStored(key);
      TopKey(key);
      if d == 32 {
        assert e.0 == head || Bit(0, key) == Bit(0, e.1);
        if Bit(0, key) == Bit(0, e.1) { SameBits(key, e.1); }
      } else if key == LAST {
        LastFinds(d);
      }
    }

    /** Search for `key`, remembering the last node on the way that matches. */
    method Search(key: Key) returns (res: Node?)
      requires Valid()
      ensures res == Best(SideOf(key), key, if Matches(head, key) then head else null)
      ensures forall n :: n in nodes && n.key == key ==> res == n
      ensures res != null ==> res in nodes && Matches(res, key)
      ensures head.Mask() == 0 ==> res != null
    {
      var p: Node? := null;
      ghost var s := SideOf(key);
      ghost var answer := Best(s, key, if Matches(head, key) then head else null);
      if Matches(head, key) { p := head; }
      var i := head.b;
      var t: Node := if Bit(head.b, key) then head.right else head.left;
      hide Bit, Distinct, Good, Matches;
      while i < t.b
        invariant t == s.n && Links(s) && Labels(s, i)
        invariant Best(s, key, p) == answer
        decreases s
      {
        if Matches(t, key) { p := t; }
        i := t.b;
        s := if Bit(i, key) then s.r else s.l;
        t := if Bit(i, key) then t.right else t.left;
      }
      res := if Matches(t, key) then t else p;
      SearchAnswers(key, res);
    }

    /** The holder that the way of `key` ends at. */
    method FindHolder(key: Key) returns (t: Node)
      requires Valid()
      ensures t == Find(SideOf(key), key).0
    {
      ghost var s := SideOf(key);
      var i := head.b;
      t := if Bit(head.b, key) then head.right else head.left;
      hide Bit;
      while i < t.b
        invariant t == s.n && Links(s) && Labels(s, i)
        invariant Find(s, key) == Find(SideOf(key), key)
        decreases s
      {
        i := t.b;
        s := if Bit(i, key) then s.r else s.l;
        t := if Bit(i, key) then t.right else t.left;
      }
    }

    /** A search for a stored key returns exactly the node that stores it; every answer
        is stored and matches the query under its own mask; and there is an answer when
        the head matches everything. */
    lemma SearchAnswers(key: Key, res: Node?)
      requires Valid() && res == Best(SideOf(key), key, if Matches(head, key) then head else null)
      ensures forall n :: n in nodes && n.key == key ==> res == n
      ensures res != null ==> res in nodes && Matches(res, key)
      ensures head.Mask() == 0 ==> res != null
    {
      hide Links, Labels, Distinct, Good, Bit, Matches;
      var t := SideOf(key);
      var best := if Matches(head, key) then head else null;
      NodesStored(t, head, t == r);
      BestIsLast(t, key, best);
      MaskZero(key);
      forall n | n in nodes && n.key == key ensures res == n {
        StoredFound(n);
        MaskHead(n);
        LastIs(Way(t, key), n, key, best);
      }
    }

    lemma MaskZero(key: Key)
      requires Valid()
      ensures head.Mask() == 0 ==> Matches(head, key)
    {
    }

    lemma MaskHead(n: Node)
      requires Valid() && n in nodes
      ensures Matches(n, n.key)
    {
      hide Side;
    }

    // Put `n` in on one side of the head.
    method InsertIn(h: Node, n: Node, d: int, ghost t: Tree, ghost side: bool) returns (c: Node)
      requires Side(t, head, side) && h == t.n && n !in Nodes(t) && n != head && head.b == 0
      requires FirstDiff(n.key, Find(t, n.key).1, d) && Bit(0, n.key) == side
      modifies Inners(t)`left, Inners(t)`right, n`b, n`left, n`right
      ensures var t' := InsertT(t, n, n.key, d);
              c == t'.n && Side(t', head, side) && Inners(t') == Inners(t) + {n}
    {
      hide Bit, Agree;
      InnersAreNodes(t);
      FindAvoids(t, n.key, d);
      InsertNodes(t, n, n.key, d);
      InsertDistinct(t, n, n.key, d);
      InsertGood(t, n, n.key, d);
      ghost var t' := InsertT(t, n, n.key, d);
      hide Distinct, Good;
      assert allocated(Inners(t));
      c := InsertR(h, n, d, head, t);
      hide Links, Labels, Inners, Leaves, Nodes;
      SideGrown(t, t', n, side);
    }

    lemma SideGrown(t: Tree, t': Tree, n: Node, side: bool)
      requires Links(t') && Labels(t', 0) && Distinct(t') && Good(t') && n != head && head !in Inners(t)
      requires Inners(t') == Inners(t) + {n} && Nodes(t') == Nodes(t) + {n} && Leaves(t') == Leaves(t) + {(n, n.key)}
      requires Bit(0, n.key) == side && forall e :: e in Leaves(t) ==> e.0 == head || (e.0 in Inners(t) && Bit(0, e.1) == side)
      requires forall m :: m in Inners(t) + {head} ==> m in Nodes(t) && (m, m.key) in Leaves(t)
      ensures Side(t', head, side)
    {
      hide Links, Labels, Distinct, Good, Inners, Leaves, Nodes, Bit;
    }

    // What a new node meets.
    lemma HangFacts(n: Node)
      requires Valid() && n !in nodes
      ensures head !in Inners(l) + Inners(r) && n !in Nodes(l) + Nodes(r) + Inners(l) + Inners(r) && n != head
    {
      hide Links, Labels, Distinct, Good, Bit, Masked;
    }

    // Put `n` in on one side; the other side, its nodes and its links are untouched.
    method InsertBeside(n: Node, d: int, side: bool, ghost t: Tree, ghost o: Tree)
      requires Side(t, head, side) && n !in Nodes(t) && n != head && head.b == 0
      requires (if side then head.right else head.left) == t.n
      requires Side(o, head, !side) && Inners(t) !! Inners(o) && n !in Nodes(o) + Inners(o)
      requires FirstDiff(n.key, Find(t, n.key).1, d) && Bit(0, n.key) == side
      modifies Inners(t)`left, Inners(t)`right, head`left, head`right, n`b, n`left, n`right
      ensures var t' := InsertT(t, n, n.key, d);
              && Side(t', head, side) && Inners(t') == Inners(t) + {n} && Nodes(t') == Nodes(t) + {n}
              && (if side then head.right else head.left) == t'.n
      ensures Side(o, head, !side) && (if side then head.left == old(head.left) else head.right == old(head.right))
    {
      hide Agree, Bit, Find, InsertT, FirstDiff, Inners, Nodes, Side;
      assert allocated(Inners(o)) && allocated(Nodes(o));
      InsertNodes(t, n, n.key, d);
      NotInside(t, side);
      NotInside(o, !side);
      ghost var t' := InsertT(t, n, n.key, d);
      var c := InsertIn(if side then head.right else head.left, n, d, t, side);
      if side { head.right := c; } else { head.left := c; }
    }

    lemma NotInside(t: Tree, side: bool)
      requires Side(t, head, side)
      ensures head !in Inners(t)
    {
    }

    // Hang the new node in on the side its key belongs to.
    method Hang(n: Node, d: int)
      requires Valid() && n !in nodes && n.Kept()
      requires FirstDiff(n.key, Find(SideOf(n.key), n.key).1, d)
      modifies this, nodes`left, nodes`right, n`b, n`left, n`right
      ensures Valid() && nodes == old(nodes) + {n}
    {
      hide Agree, Links, Labels, Distinct, Good, Find, InsertT, FirstDiff, Masked, Inners, Nodes, Leaves, Side, Node.Kept;
      HangFacts(n);
      if Bit(head.b, n.key) {
        InsertBeside(n, d, true, r, l);
        Rejoined(l, InsertT(r, n, n.key, d), n);
        r := InsertT(r, n, n.key, d);
      } else {
        InsertBeside(n, d, false, l, r);
        Rejoined(InsertT(l, n, n.key, d), r, n);
        l := InsertT(l, n, n.key, d);
      }
      nodes := nodes + {n};
    }

    // The sides, one of them with the new node, hang on the head.
    lemma Rejoined(l': Tree, r': Tree, n: Node)
      requires head in nodes && nodes == Inners(l) + Inners(r) + {head} && Nodes(l) <= nodes && Nodes(r) <= nodes
      requires Inners(l') + Inners(r') == Inners(l) + Inners(r) + {n} && Inners(l') !! Inners(r')
      requires Nodes(l') <= nodes + {n} && Nodes(r') <= nodes + {n}
      requires head.b == 0 && head.key == 0 && head.left == l'.n && head.right == r'.n
      requires Side(l', head, false) && Side(r', head, true)
      requires forall m :: m in nodes + {n} ==> m.Kept()
      ensures Joined(l', r', nodes + {n})
    {
      hide Side, Masked, Inners, Nodes, Node.Kept;
    }

    /** The key is cut to its mask. */
    method CutKey(n: Node)
      requires Valid() && n !in nodes && |n.masks| == 1 && n.mlen <= 1
      modifies n`key
      ensures Valid() && n.key == Masked(old(n.key), n.Mask()) && n.Kept()
    {
      hide Side, Masked;
      MaskedTwice(n.key, n.Mask());
      n.key := Masked(n.key, n.Mask());
    }

    /** A node of the trie has the key. */
    ghost predicate Has(key: Key)
      reads this, nodes
    {
      exists m :: m in nodes && m.key == key
    }

    lemma HasFound(key: Key)
      requires Valid()
      ensures Has(key) <==> Find(SideOf(key), key).1 == key
    {
      hide Side, Masked, Bit, Find;
      FoundStored(key);
      if m :| m in nodes && m.key == key { StoredFound(m); }
    }

    // The mask of `n` is merged into the node that has the key already.
    method MergeInto(t: Node, n: Node)
      requires Valid() && t in nodes && n !in nodes && n.key == t.key && n.Kept() && |n.masks| == 1
      requires HasMask(t.masks[..t.mlen], n.Mask()) || Ends(t.masks[..t.mlen], n.Mask())
      modifies t`masks, t`mlen
      ensures Valid() && t.mlen <= |t.masks|
      ensures t.masks[..t.mlen] == old(Merged(t.masks[..t.mlen], n.masks[0]))
    {
      hide Side, Inners, Nodes, Masked, Merged, Ascending, Ends, HasMask;
      assert n.masks[0] in n.masks;
      hide Node.Kept;
      t.MergeMask(n.masks[0]);
    }

    /** Insert a node that brings one mask.  Its key is cut to the mask.  When a node with
        that key is there the mask is merged into its list, with the new data; otherwise the
        node joins the trie.  No other node loses its key or masks. */
    method InsertNode(n: Node) returns (res: Node)
      requires Valid() && n !in nodes && |n.masks| == 1 && n.mlen <= 1 && Masked(n.key, n.Mask()) != LAST
      requires forall m :: m in nodes && m.key == Masked(n.key, n.Mask()) ==>
                 m.mlen <= |m.masks| && (HasMask(m.masks[..m.mlen], n.Mask()) || Ends(m.masks[..m.mlen], n.Mask()))
      modifies this, nodes, n
      ensures Valid()
      ensures res.key == Masked(old(n.key), old(n.Mask())) && res.mlen <= |res.masks|
      ensures if old(Has(Masked(n.key, n.Mask()))) then
                nodes == old(nodes) && res in nodes && old(res.mlen <= |res.masks|)
                && res.masks[..res.mlen] == old(Merged(res.masks[..res.mlen], n.masks[0]))
              else nodes == old(nodes) + {n} && res == n && n.masks == old(n.masks) && n.mlen == old(n.mlen)
      ensures forall m :: m in old(nodes) ==>
                m.key == old(m.key) && (m != res ==> m.masks == old(m.masks) && m.mlen == old(m.mlen))
    {
      hide Side, Masked, Find, Has, Agree, Bit, Merged, Ascending, Ends, HasMask, Joined, Node.Kept;
      CutKey(n);
      var t := FindHolder(n.key);
      HasFound(n.key);
      FoundStored(n.key);
      if n.key == t.key {
        MergeInto(t, n);
        return t;
      }
      var i := FirstDifference(n.key, t.key);
      DiffInWord(n.key, i);
      Hang(n, i);
      res := n;
    }

    /** A null node is not inserted. */
    method Insert(n: Node?) returns (res: Node?)
      requires Valid()
      requires n != null ==> n !in nodes && |n.masks| == 1 && n.mlen <= 1 && Masked(n.key, n.Mask()) != LAST
      requires n != null ==> forall m :: m in nodes && m.key == Masked(n.key, n.Mask()) ==>
                 m.mlen <= |m.masks| && (HasMask(m.masks[..m.mlen], n.Mask()) || Ends(m.masks[..m.mlen], n.Mask()))
      modifies this, nodes, if n == null then {} else {n}
      ensures Valid() && (res == null <==> n == null)
      ensures n == null ==> nodes == old(nodes) && forall m :: m in nodes ==> unchanged(m)
      ensures n != null ==> old(nodes) <= nodes <= old(nodes) + {n} && res in nodes && res.key == Masked(old(n.key), old(n.Mask()))
    {
      if n == null { return null; }
      res := InsertNode(n);
    }

    // The key with the top bit alone ends at the head.
    lemma LastFinds(d: int)
      requires Valid()
      ensures Find(SideOf(LAST), LAST).1 == 0
    {
      TopKey(0);
      hide Links, Distinct, Bit;
      assert (head, 0) in Leaves(r);
      SameWay(r, LAST, 0);
      FindStored(r, (head, 0));
    }
  }

  // Keys that agree from bit 1 on take the same way.
  lemma {:induction false} SameWay(t: Tree, x: Key, y: Key)
    requires Good(t) && Agree(x, y, 32)
    ensures Find(t, x) == Find(t, y)
  {
    hide Bit;
    if t.Inner? {
      SameWay(t.l, x, y);
      SameWay(t.r, x, y);
    }
  }
}

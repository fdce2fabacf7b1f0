/** The masks of one node of the Patricia trie: a list in ascending order that an insertion
    merges one more mask into. */
module PatriciaMasks {
  type Key = bv32

  datatype Entry = Entry(mask: Key, data: int)

  const FULL: Key := 0xffff_ffff

  predicate Above(x: Key, y: Key) { x as int > y as int }

  lemma Same(x: Key, y: Key)
    requires x as int == y as int
    ensures x == y
  {
    Back(x);
    Back(y);
  }

  lemma Back(x: Key)
    ensures (x as int) as Key == x
  {
  }

  lemma Largest(x: Key)
    ensures FULL as int == 0xffff_ffff && 0 <= x as int <= 0xffff_ffff
  {
  }

  lemma Ordered(x: Key, y: Key)
    ensures x == y || Above(x, y) || Above(y, x)
    ensures Above(x, y) ==> !Above(y, x) && x != y
    ensures !Above(x, FULL) && (x != FULL ==> Above(FULL, x))
  {
    if x as int == y as int { Same(x, y); }
    if x as int == FULL as int { Same(x, FULL); }
    Largest(x);
  }

  lemma Transitive(x: Key, y: Key, z: Key)
    requires Above(x, y) && Above(y, z)
    ensures Above(x, z)
  {
  }

  ghost predicate Ascending(ms: seq<Entry>) {
    forall i :: 0 <= i < |ms| - 1 ==> Above(ms[i + 1].mask, ms[i].mask)
  }

  ghost predicate HasMask(ms: seq<Entry>, mask: Key) {
    exists i :: 0 <= i < |ms| && ms[i].mask == mask
  }

  /** The list with one more entry: an entry with the same mask gets the new data, or the
      entry goes in before the first greater mask. */
  function Merged(ms: seq<Entry>, x: Entry): seq<Entry> {
    if ms == [] then [x]
    else if ms[0].mask == x.mask then [x] + ms[1..]
    else if Above(x.mask, ms[0].mask) then [ms[0]] + Merged(ms[1..], x)
    else [x] + ms
  }

  lemma {:induction false} AllBelow(ms: seq<Entry>, i: int, j: int)
    requires Ascending(ms) && 0 <= i < j < |ms|
    ensures Above(ms[j].mask, ms[i].mask)
    decreases j - i
  {
    hide Above;
    if i + 1 < j {
      AllBelow(ms, i + 1, j);
      Transitive(ms[j].mask, ms[i + 1].mask, ms[i].mask);
    }
  }

  lemma {:induction false} MergedAt(ms: seq<Entry>, x: Entry, p: nat)
    requires p <= |ms| && (forall j :: 0 <= j < p ==> Above(x.mask, ms[j].mask))
    requires p < |ms| ==> Above(ms[p].mask, x.mask)
    ensures Merged(ms, x) == ms[..p] + [x] + ms[p..]
  {
    hide Above;
    if p > 0 {
      Ordered(x.mask, ms[0].mask);
      MergedAt(ms[1..], x, p - 1);
      assert ms[..p] == [ms[0]] + ms[1..][..p - 1] && ms[p..] == ms[1..][p - 1..];
    } else if ms != [] {
      Ordered(ms[0].mask, x.mask);
    }
  }

  lemma {:induction false} ReplacedAt(ms: seq<Entry>, x: Entry, i: nat)
    requires Ascending(ms) && i < |ms| && ms[i].mask == x.mask
    ensures Merged(ms, x) == ms[i := x]
  {
    hide Above;
    if i > 0 {
      AllBelow(ms, 0, i);
      Ordered(x.mask, ms[0].mask);
      ReplacedAt(ms[1..], x, i - 1);
      assert ms[i := x] == [ms[0]] + ms[1..][i - 1 := x];
    }
  }

  // Where the entry goes.
  lemma {:induction false} Place(ms: seq<Entry>, x: Entry) returns (p: nat)
    requires Ascending(ms) && !HasMask(ms, x.mask)
    ensures p <= |ms| && (forall j :: 0 <= j < p ==> Above(x.mask, ms[j].mask))
    ensures p < |ms| ==> Above(ms[p].mask, x.mask)
  {
    hide Above, Ascending;
    p := 0;
    while p < |ms| && Above(x.mask, ms[p].mask)
      invariant p <= |ms| && forall j :: 0 <= j < p ==> Above(x.mask, ms[j].mask)
    {
      p := p + 1;
    }
    if p < |ms| { Ordered(x.mask, ms[p].mask); }
  }

  /** Merging keeps the order, every other mask with its data, and brings the new one. */
  lemma MergedKeeps(ms: seq<Entry>, x: Entry)
    requires Ascending(ms)
    ensures Ascending(Merged(ms, x)) && x in Merged(ms, x)
    ensures forall e :: e in Merged(ms, x) ==> e == x || (e in ms && e.mask != x.mask)
    ensures forall e :: e in ms && e.mask != x.mask ==> e in Merged(ms, x)
  {
    hide Above, Merged;
    if i :| 0 <= i < |ms| && ms[i].mask == x.mask {
      ReplacedAt(ms, x, i);
      OnlyOne(ms, i);
      var out := ms[i := x];
      assert out[i] == x;
      forall e | e in ms && e.mask != x.mask
        ensures e in out
      {
        var j :| 0 <= j < |ms| && ms[j] == e;
        assert out[j] == e;
      }
    } else {
      var p := Place(ms, x);
      MergedAt(ms, x, p);
      assert (ms[..p] + [x] + ms[p..])[p] == x;
    }
  }

  lemma OnlyOne(ms: seq<Entry>, i: nat)
    requires Ascending(ms) && i < |ms|
    ensures forall j :: 0 <= j < |ms| && j != i ==> ms[j].mask != ms[i].mask
  {
    hide Above;
    forall j | 0 <= j < |ms| && j != i
      ensures ms[j].mask != ms[i].mask
    {
      if j < i { AllBelow(ms, j, i); } else { AllBelow(ms, i, j); }
      Ordered(ms[j].mask, ms[i].mask);
      Ordered(ms[i].mask, ms[j].mask);
    }
  }

  // ---- the loop that merges ----

  /** The merging of a mask comes to an end: the full mask is not in the list, or is the one
      that comes. */
  ghost predicate Ends(ms: seq<Entry>, mask: Key) {
    mask == FULL || !HasMask(ms, FULL)
  }

  // One turn of the loop: an entry of the list is copied, or the new one is, and its mask
  // is then the full one.
  datatype Turn = Turn(i: nat, mask: Key)

  function Next(ms: seq<Entry>, t: Turn): Turn {
    if t.i >= |ms| then t
    else if Above(t.mask, ms[t.i].mask) then Turn(t.i + 1, t.mask)
    else Turn(t.i, FULL)
  }

  function After(ms: seq<Entry>, mask: Key, turns: nat): Turn {
    if turns == 0 then Turn(0, mask) else Next(ms, After(ms, mask, turns - 1))
  }

  lemma {:induction false} Stuck(ms: seq<Entry>, mask: Key, f: nat, turns: nat)
    requires f < |ms| && ms[f].mask == FULL
    ensures After(ms, mask, turns).i <= f
  {
    hide Above;
    if turns > 0 {
      Stuck(ms, mask, f, turns - 1);
      Ordered(After(ms, mask, turns - 1).mask, FULL);
    }
  }

  lemma {:induction false} CopiesAll(ms: seq<Entry>, mask: Key, from: nat, turns: nat)
    requires !HasMask(ms, FULL) && After(ms, mask, turns) == Turn(from, FULL) && from <= |ms|
    ensures After(ms, mask, turns + (|ms| - from)).i == |ms|
    decreases |ms| - from
  {
    hide Above;
    if from < |ms| {
      Ordered(ms[from].mask, FULL);
      CopiesAll(ms, mask, from + 1, turns + 1);
    }
  }

  lemma {:induction false} CopiesBelow(ms: seq<Entry>, mask: Key, p: nat)
    requires p <= |ms| && forall j :: 0 <= j < p ==> Above(mask, ms[j].mask)
    ensures After(ms, mask, p) == Turn(p, mask)
  {
    hide Above;
    if p > 0 { CopiesBelow(ms, mask, p - 1); }
  }

  /** The loop ends exactly when the full mask is not in the list or is the one that comes. */
  lemma EndsExactlyWhen(ms: seq<Entry>, x: Entry)
    requires Ascending(ms) && !HasMask(ms, x.mask)
    ensures (exists turns :: After(ms, x.mask, turns).i >= |ms|) <==> Ends(ms, x.mask)
  {
    hide Above, Ascending;
    if Ends(ms, x.mask) {
      var p := Place(ms, x);
      CopiesBelow(ms, x.mask, p);
      if p < |ms| {
        Ordered(ms[p].mask, x.mask);
        Ordered(x.mask, ms[p].mask);
        assert After(ms, x.mask, p + 1) == Turn(p, FULL);
        CopiesAll(ms, x.mask, p, p + 1);
      }
    } else {
      var f :| 0 <= f < |ms| && ms[f].mask == FULL;
      forall turns: nat ensures After(ms, x.mask, turns).i < |ms| {
        Stuck(ms, x.mask, f, turns);
      }
    }
  }

  /** The entry of a mask that is there already, or the length of the list. */
  method FindMask(ms: seq<Entry>, mask: Key) returns (i: nat)
    ensures i <= |ms| && (i < |ms| ==> ms[i].mask == mask) && (i == |ms| <==> !HasMask(ms, mask))
  {
    i := 0;
    while i < |ms| && ms[i].mask != mask
      invariant i <= |ms| && forall j :: 0 <= j < i ==> ms[j].mask != mask
    {
      i := i + 1;
    }
  }

  /** The new list, built entry by entry; once the new entry is copied its mask is set to the
      full one, so that all that follow are taken from the list. */
  method Merge(ms: seq<Entry>, x: Entry) returns (buf: seq<Entry>)
    requires Ascending(ms) && !HasMask(ms, x.mask) && Ends(ms, x.mask)
    ensures buf == Merged(ms, x)
  {
    hide Above, Ascending, Merged;
    var i, mask, copied := 0, x.mask, false;
    buf := [];
    ghost var p := 0;
    while i < |ms|
      invariant 0 <= p <= i <= |ms| && (forall j :: 0 <= j < p ==> Above(x.mask, ms[j].mask))
      invariant !copied ==> p == i && buf == ms[..i] && mask == x.mask
      invariant copied ==> p < |ms| && Above(ms[p].mask, x.mask) && buf == ms[..p] + [x] + ms[p..i] && mask == FULL && x.mask != FULL
      decreases |ms| - i + if copied then 0 else 1
    {
      Ordered(mask, ms[i].mask);
      Ordered(ms[i].mask, FULL);
      if Above(mask, ms[i].mask) {
        buf := buf + [ms[i]];
        i := i + 1;
        if !copied { p := i; }
      } else {
        buf := buf + [Entry(mask, x.data)];
        mask := FULL;
        copied := true;
      }
    }
    if !copied { buf := buf + [Entry(mask, x.data)]; }
    MergedAt(ms, x, p);
  }
}

/** The digit-by-digit square root of the basic mathematics benchmark, in 32-bit words: what
    it returns, and for exactly which arguments that is the square root it promises. */
module Isqrt {
  const WORD := 0x1_0000_0000
  const TOP := 0x4000_0000    // a quarter of the words: the place of the top two bits

  /** a is the square root of n, rounded down. */
  predicate IsRoot(a: nat, n: nat) { a * a <= n < (a + 1) * (a + 1) }

  function Wrap(n: nat): nat { n % WORD }

  // The variables of the loop: the accumulator, the remainder, and what is left of x.
  datatype Regs = Regs(a: nat, r: nat, x: nat)

  // ---- the algorithm on unbounded numbers ----

  // One round: two more bits of x, and the trial product that decides the next bit.
  function Next(s: Regs): Regs {
    var r, e := 4 * s.r + s.x / TOP, 4 * s.a + 1;
    Regs(if r >= e then 2 * s.a + 1 else 2 * s.a, if r >= e then r - e else r, Wrap(4 * s.x))
  }

  function Ideal(x: nat, n: nat): Regs {
    if n == 0 then Regs(0, 0, x) else Next(Ideal(x, n - 1))
  }

  // The bits consumed so far, as a number.
  function Prefix(x: nat, n: nat): nat {
    if n == 0 then 0 else 4 * Prefix(x, n - 1) + Ideal(x, n - 1).x / TOP
  }

  lemma NextRoot(s: Regs, p: nat)
    requires s.x < WORD && s.a * s.a + s.r == p && s.r <= 2 * s.a
    ensures var t := Next(s); t.x < WORD && t.a * t.a + t.r == 4 * p + s.x / TOP && t.r <= 2 * t.a
  {
    Doubled(s.a);
    assert s.x / TOP <= 3;
  }

  lemma Doubled(a: nat)
    ensures (2 * a) * (2 * a) == 4 * (a * a) && (2 * a + 1) * (2 * a + 1) == 4 * (a * a) + (4 * a + 1)
  {
  }

  // The accumulator is the root of the bits consumed and the remainder what is missing.
  lemma {:induction false} IdealRoot(x: nat, n: nat)
    requires x < WORD
    ensures var s := Ideal(x, n); s.x < WORD && s.a * s.a + s.r == Prefix(x, n) && s.r <= 2 * s.a
  {
    hide Next;
    if n > 0 {
      IdealRoot(x, n - 1);
      NextRoot(Ideal(x, n - 1), Prefix(x, n - 1));
    }
  }

  function Pow4(n: nat): nat { if n == 0 then 1 else 4 * Pow4(n - 1) }

  lemma {:induction false} PrefixShifts(x: nat, n: nat)
    requires x < WORD
    ensures Pow4(n) * x == Prefix(x, n) * WORD + Ideal(x, n).x && Ideal(x, n).x < WORD
  {
    if n > 0 {
      PrefixShifts(x, n - 1);
      Shifted(Pow4(n - 1), x, Prefix(x, n - 1), Ideal(x, n - 1).x);
    }
  }

  lemma Shifted(k: nat, x: nat, p: nat, w: nat)
    requires k * x == p * WORD + w && w < WORD
    ensures (4 * k) * x == (4 * p + w / TOP) * WORD + Wrap(4 * w)
  {
    assert (4 * k) * x == 4 * (k * x);
    Split(w);
  }

  lemma Split(w: nat)
    requires w < WORD
    ensures 4 * w == w / TOP * WORD + Wrap(4 * w)
  {
  }

  lemma {:induction false} Pow4Adds(m: nat, n: nat)
    ensures Pow4(m + n) == Pow4(m) * Pow4(n)
  {
    if m > 0 { Pow4Adds(m - 1, n); }
  }

  lemma Powers()
    ensures Pow4(30) == 0x1000_0000 * WORD && Pow4(31) == TOP * WORD && Pow4(32) == WORD * WORD
  {
    Pow4Adds(2, 2);
    Pow4Adds(4, 4);
    Pow4Adds(8, 8);
    Pow4Adds(16, 8);
    Pow4Adds(24, 4);
    Pow4Adds(28, 2);
    Pow4Adds(30, 1);
    Pow4Adds(31, 1);
  }

  /** On unbounded numbers, 32 rounds give the root of the scaled argument. */
  lemma IdealIsRoot(x: nat)
    requires x < WORD
    ensures IsRoot(Ideal(x, 32).a, x * WORD)
  {
    hide Ideal, Prefix;
    PrefixAt(x);
    IdealRoot(x, 32);
    var a := Ideal(x, 32).a;
    assert (a + 1) * (a + 1) == a * a + 2 * a + 1;
  }

  // The last two rounds take in nothing but zeros.
  lemma PrefixAt(x: nat)
    requires x < WORD
    ensures Prefix(x, 30) == x * 0x1000_0000 && Prefix(x, 31) == x * TOP && Prefix(x, 32) == x * WORD
    ensures Ideal(x, 30).x == 0 && Ideal(x, 31).x == 0
  {
    hide Ideal, Prefix, Pow4;
    Powers();
    PrefixShifts(x, 30);
    PrefixShifts(x, 31);
    PrefixShifts(x, 32);
    Quotient(Prefix(x, 30), x * 0x1000_0000, Ideal(x, 30).x);
    Quotient(Prefix(x, 31), x * TOP, Ideal(x, 31).x);
    Quotient(Prefix(x, 32), x * WORD, Ideal(x, 32).x);
  }

  lemma Quotient(p: nat, q: nat, w: nat)
    requires p * WORD + w == q * WORD && w < WORD
    ensures p == q && w == 0
  {
  }

  // ---- the same in words of 32 bits ----

  function NextWord(s: Regs): Regs {
    var r := Wrap(Wrap(4 * s.r) + s.x / TOP);
    var a := Wrap(2 * s.a);
    var e := Wrap(Wrap(2 * a) + 1);
    Regs(if r >= e then Wrap(a + 1) else a, if r >= e then r - e else r, Wrap(4 * s.x))
  }

  function Words(x: nat, n: nat): Regs {
    if n == 0 then Regs(0, 0, x) else NextWord(Words(x, n - 1))
  }

  lemma Fits(n: nat)
    requires n < WORD
    ensures Wrap(n) == n
  {
  }

  lemma NoWrap(s: Regs)
    requires s.r < TOP && s.a < TOP && s.x < WORD
    ensures NextWord(s) == Next(s)
  {
    hide Wrap;
    Fits(4 * s.r);
    Fits(4 * s.r + s.x / TOP);
    Fits(2 * s.a);
    Fits(4 * s.a);
    Fits(4 * s.a + 1);
    Fits(2 * s.a + 1);
  }

  lemma Below(a: nat, n: nat, k: nat)
    requires a * a <= n < k * k
    ensures a < k
  {
    if a >= k { Squares(k, a); }
  }

  lemma Squares(k: nat, a: nat)
    requires k <= a
    ensures k * k <= a * a
  {
  }

  lemma {:induction false} Grows(x: nat, n: nat, m: nat)
    requires n <= m
    ensures Ideal(x, n).a <= Ideal(x, m).a
  {
    if n < m { Grows(x, n, m - 1); }
  }

  lemma Bounds(x: nat)
    requires x < WORD
    ensures Ideal(x, 29).a < TOP / 2 && Ideal(x, 30).a < TOP && Ideal(x, 31).a < 2 * TOP
    ensures x < TOP ==> Ideal(x, 30).a < TOP / 2 && Ideal(x, 31).a < TOP
    ensures x >= TOP ==> Ideal(x, 31).a >= TOP
  {
    hide Ideal, Prefix;
    PrefixAt(x);
    IdealRoot(x, 30);
    IdealRoot(x, 31);
    var a, b := Ideal(x, 30).a, Ideal(x, 31).a;
    Below(a, x * 0x1000_0000, TOP);
    Below(b, x * TOP, 2 * TOP);
    if x < TOP {
      Below(a, x * 0x1000_0000, TOP / 2);
      Below(b, x * TOP, TOP);
    } else {
      assert (b + 1) * (b + 1) == b * b + 2 * b + 1;
      Below(TOP, x * TOP, b + 1);
    }
    Halved(x);
  }

  lemma Halved(x: nat)
    ensures 2 * Ideal(x, 29).a <= Ideal(x, 30).a
  {
  }

  // No round before the last two wraps around, whatever the argument.
  lemma {:induction false} SameUpTo30(x: nat, n: nat)
    requires x < WORD && n <= 30
    ensures Words(x, n) == Ideal(x, n)
  {
    hide Next, NextWord;
    if n > 0 {
      SameUpTo30(x, n - 1);
      IdealRoot(x, n - 1);
      Bounds(x);
      Grows(x, n - 1, 29);
      NoWrap(Ideal(x, n - 1));
    }
  }

  // When the last bit comes out right although the trial product or the remainder wraps:
  // from a root and what it misses.
  predicate LastFits(a: nat, r: nat) {
    if a < TOP then r < TOP
    else r + TOP <= a || TOP <= r < 2 * TOP || (a + TOP < r < 3 * TOP)
  }

  lemma Wrapped(n: nat, w: nat)
    requires w * WORD <= n < (w + 1) * WORD
    ensures Wrap(n) == n - w * WORD
  {
  }

  lemma LastBit(s: Regs)
    requires s.x == 0 && s.a < 2 * TOP && s.r <= 2 * s.a
    ensures NextWord(s).a == Next(s).a <==> LastFits(s.a, s.r)
  {
    hide Wrap;
    var w := if s.r < TOP then 0 else if s.r < 2 * TOP then 1 else if s.r < 3 * TOP then 2 else 3;
    var v := if s.a < TOP then 0 else 1;
    Wrapped(4 * s.r, w);
    Fits(4 * s.r - w * WORD);
    Fits(2 * s.a);
    Wrapped(4 * s.a, v);
    Fits(4 * s.a - v * WORD + 1);
    Fits(2 * s.a + 1);
  }

  lemma Small(t: Regs)
    requires t.a < 2 * TOP
    ensures NextWord(t).a <= 2 * t.a + 1
  {
    hide Wrap;
    Fits(2 * t.a);
    Fits(2 * t.a + 1);
  }

  lemma WrongBit(s: Regs)
    requires s.x == 0 && s.a < TOP && TOP <= s.r <= 2 * s.a
    ensures NextWord(NextWord(s)).a < Next(Next(s)).a
  {
    hide Wrap;
    Wrapped(4 * s.r, 1);
    Fits(4 * s.r - WORD);
    Fits(2 * s.a);
    Fits(4 * s.a);
    Fits(4 * s.a + 1);
    Small(NextWord(s));
  }

  /** The square root, rounded down. */
  function Root(n: nat): (a: nat)
    ensures IsRoot(a, n)
  {
    if n == 0 then 0
    else
      var a := Root(n / 4);
      Doubled(a);
      RootGrows(a, n);
      if (2 * a + 1) * (2 * a + 1) <= n then 2 * a + 1 else 2 * a
  }

  lemma RootGrows(a: nat, n: nat)
    requires IsRoot(a, n / 4)
    ensures 4 * (a * a) <= n < (2 * a + 2) * (2 * a + 2)
  {
    assert (2 * a + 2) * (2 * a + 2) == 4 * ((a + 1) * (a + 1));
  }

  // What the root falls short of its argument.
  function Missing(n: nat): nat {
    n - Root(n) * Root(n)
  }

  /** For which arguments the result is right, in roots of the argument: what the root of x
      times 2 to the 28th misses fits in 30 bits, and what that of x times 2 to the 30th
      misses fits too, or wraps without changing the comparison it goes into. */
  predicate Exact(x: nat) {
    Missing(x * 0x1000_0000) < TOP && LastFits(Root(x * TOP), Missing(x * TOP))
  }

  lemma IsRootOf(s: Regs, n: nat)
    requires s.a * s.a + s.r == n && s.r <= 2 * s.a
    ensures IsRoot(s.a, n)
  {
    assert (s.a + 1) * (s.a + 1) == s.a * s.a + 2 * s.a + 1;
  }

  lemma RootOf(s: Regs, n: nat)
    requires s.a * s.a + s.r == n && s.r <= 2 * s.a
    ensures Root(n) == s.a && Missing(n) == s.r
  {
    hide Root, IsRoot;
    IsRootOf(s, n);
    RootIsOne(s.a, Root(n), n);
  }

  // The last rounds but two and but one hold these roots and what they miss.
  lemma ExactRegs(x: nat)
    requires x < WORD
    ensures Exact(x) <==> Ideal(x, 30).r < TOP && LastFits(Ideal(x, 31).a, Ideal(x, 31).r)
  {
    hide Ideal, Prefix, Root, Missing, LastFits;
    PrefixAt(x);
    IdealRoot(x, 30);
    IdealRoot(x, 31);
    RootOf(Ideal(x, 30), x * 0x1000_0000);
    RootOf(Ideal(x, 31), x * TOP);
  }

  lemma RootIsOne(a: nat, b: nat, n: nat)
    requires IsRoot(a, n) && IsRoot(b, n)
    ensures a == b
  {
    Below(a, n, b + 1);
    Below(b, n, a + 1);
  }

  lemma Unrolled(x: nat)
    ensures Ideal(x, 31) == Next(Ideal(x, 30)) && Ideal(x, 32) == Next(Ideal(x, 31))
    ensures Words(x, 31) == NextWord(Words(x, 30)) && Words(x, 32) == NextWord(Words(x, 31))
  {
    hide Next, NextWord;
  }

  /** The words compute the promised root, floor(sqrt(x) * 65536), exactly for these
      arguments. */
  lemma RightExactlyWhen(x: nat)
    requires x < WORD
    ensures IsRoot(Words(x, 32).a, x * WORD) <==> Exact(x)
  {
    hide Ideal, Words, Next, NextWord, Prefix, IsRoot, LastFits, Exact;
    IdealIsRoot(x);
    ExactRegs(x);
    if IsRoot(Words(x, 32).a, x * WORD) { RootIsOne(Words(x, 32).a, Ideal(x, 32).a, x * WORD); }
    PrefixAt(x);
    SameUpTo30(x, 30);
    Bounds(x);
    IdealRoot(x, 30);
    IdealRoot(x, 31);
    Unrolled(x);
    if Ideal(x, 30).r < TOP {
      NoWrap(Ideal(x, 30));
      LastBit(Ideal(x, 31));
    } else {
      WrongBit(Ideal(x, 30));
    }
  }

  /** Arguments below 2 to the 28th are all right; below 2 to the 30th the only thing that
      can go wrong is the remainder of the last round but one. */
  lemma SmallAreExact(x: nat)
    requires x < TOP
    ensures Exact(x) <==> Missing(x * TOP) < TOP
    ensures x < 0x1000_0000 ==> Exact(x)
  {
    hide Ideal, Prefix, Root, Missing, Exact;
    ExactRegs(x);
    PrefixAt(x);
    IdealRoot(x, 31);
    RootOf(Ideal(x, 31), x * TOP);
    Bounds(x);
    IdealRoot(x, 30);
    IdealRoot(x, 31);
    if x < 0x1000_0000 {
      Below(Ideal(x, 31).a, x * TOP, TOP / 2);
    }
  }

  /** The first argument that comes out wrong. */
  lemma FirstWrong()
    ensures forall y: nat :: y < 0x1000_0001 ==> Exact(y)
    ensures !Exact(0x1000_0001) && !IsRoot(Words(0x1000_0001, 32).a, 0x1000_0001 * WORD)
  {
    hide Words, IsRoot, Exact, Root, Missing;
    RootOf(Regs(TOP / 2, 0, 0), 0x1000_0000 * TOP);
    RootOf(Regs(TOP / 2, TOP, 0), 0x1000_0001 * TOP);
    forall y: nat | y < 0x1000_0001
      ensures Exact(y)
    {
      SmallAreExact(y);
    }
    SmallAreExact(0x1000_0001);
    RightExactlyWhen(0x1000_0001);
  }

  /** usqrt. */
  method Usqrt(x: nat) returns (root: nat)
    requires x < WORD
    ensures root < WORD && (IsRoot(root, x * WORD) <==> Exact(x))
  {
    hide Words, IsRoot, Exact;
    var a: nat, r: nat, x': nat := 0, 0, x;
    WordsFrom(x);
    var i := 0;
    while i < 32
      invariant 0 <= i <= 32 && Regs(a, r, x') == Words(x, i) && a < WORD
    {
      WordsOn(x, i);
      r := Wrap(Wrap(4 * r) + x' / TOP);
      x' := Wrap(4 * x');
      a := Wrap(2 * a);
      var e := Wrap(Wrap(2 * a) + 1);
      if r >= e {
        r := r - e;
        a := Wrap(a + 1);
      }
      i := i + 1;
    }
    RightExactlyWhen(x);
    root := a;
  }

  lemma WordsFrom(x: nat)
    ensures Words(x, 0) == Regs(0, 0, x)
  {
  }

  lemma WordsOn(x: nat, n: nat)
    ensures Words(x, n + 1) == NextWord(Words(x, n))
  {
  }
}

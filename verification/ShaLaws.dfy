/** What the compression of SHA is made of, in bits and numbers: the functions, the constants
    and the schedule by references of their own, and that no round forgets anything. */
module ShaLaws {
  import opened Basics
  import opened Words
  import opened Sha
  import opened Isqrt
  import N = Numbers

  // ---- the functions (section 4.1.1 of FIPS 180-4) ----

  /** The first quarter takes the second or the third word as the first says, the third the
      majority, the others the parity, bit by bit. */
  lemma FuncBit(i: nat, x: Word, y: Word, z: Word, k: Word)
    requires i < 80 && k < 32
    ensures var a, b, c := N.Bit(x, k), N.Bit(y, k), N.Bit(z, k);
            N.Bit(Func(i, x, y, z), k) ==
              if i < 20 then (if a then b else c)
              else if 40 <= i < 60 then (if a == b then a else c)
              else ((a != b) != c)
  {
    hide N.Bit, F1, F2, F3;
    ChooseBit(x, y, z, k);
    ParityBit(x, y, z, k);
    MajorityBit(x, y, z, k);
  }

  lemma ChooseBit(x: Word, y: Word, z: Word, k: Word)
    requires k < 32
    ensures N.Bit(F1(x, y, z), k) == if N.Bit(x, k) then N.Bit(y, k) else N.Bit(z, k)
  {
    hide N.Bit, AndWord, OrWord, N.Not, F1;
    ChooseIs(x, y, z);
    N.OrBit(AndWord(x, y), AndWord(N.Not(x), z), k);
    N.AndBit(x, y, k);
    N.AndBit(N.Not(x), z, k);
    N.NotBit(x, k);
  }

  lemma ChooseIs(x: Word, y: Word, z: Word)
    ensures F1(x, y, z) == OrWord(AndWord(x, y), AndWord(N.Not(x), z))
  {
  }

  lemma ParityBit(x: Word, y: Word, z: Word, k: Word)
    requires k < 32
    ensures N.Bit(F2(x, y, z), k) == ((N.Bit(x, k) != N.Bit(y, k)) != N.Bit(z, k))
  {
    hide N.Bit, XorWord, F2;
    ParityIs(x, y, z);
    N.XorBit(XorWord(x, y), z, k);
    N.XorBit(x, y, k);
  }

  lemma ParityIs(x: Word, y: Word, z: Word)
    ensures F2(x, y, z) == XorWord(XorWord(x, y), z)
  {
    assert XorWord(x, y) == x ^ y;
    assert XorWord(x ^ y, z) == x ^ y ^ z;
  }

  lemma MajorityBit(x: Word, y: Word, z: Word, k: Word)
    requires k < 32
    ensures N.Bit(F3(x, y, z), k) == if N.Bit(x, k) == N.Bit(y, k) then N.Bit(x, k) else N.Bit(z, k)
  {
    hide N.Bit, AndWord, OrWord, F3;
    MajorityIs(x, y, z);
    N.OrBit(OrWord(AndWord(x, y), AndWord(x, z)), AndWord(y, z), k);
    N.OrBit(AndWord(x, y), AndWord(x, z), k);
    N.AndBit(x, y, k);
    N.AndBit(x, z, k);
    N.AndBit(y, z, k);
  }

  lemma MajorityIs(x: Word, y: Word, z: Word)
    ensures F3(x, y, z) == OrWord(OrWord(AndWord(x, y), AndWord(x, z)), AndWord(y, z))
  {
    hide OrWord;
    assert F3(x, y, z) == (x & y) | (x & z) | (y & z);
    Ors(x & y, x & z, y & z);
    assert AndWord(x, y) == x & y && AndWord(x, z) == x & z && AndWord(y, z) == y & z;
  }

  lemma Ors(a: Word, b: Word, c: Word)
    ensures OrWord(OrWord(a, b), c) == a | b | c
  {
    assert OrWord(a, b) == a | b;
    assert OrWord(a | b, c) == a | b | c;
  }

  /** Bit k of a rotated word is the one n places below it, around the end. */
  lemma RotBit(x: Word, n: Word, k: Word)
    requires 0 < n < 32 && k < 32
    ensures N.Bit(Rot32(x, n), k) == N.Bit(x, if n <= k then k - n else k + (32 - n))
  {
    hide N.Bit, OrWord, ShiftLeft, ShiftRight, Rot32;
    RotIs(x, n);
    N.OrBit(ShiftLeft(x, n), ShiftRight(x, 32 - n), k);
    N.LeftBit(x, n, k);
    N.RightBit(x, 32 - n, k);
  }

  lemma RotIs(x: Word, n: Word)
    requires 0 < n < 32
    ensures Rot32(x, n) == OrWord(ShiftLeft(x, n), ShiftRight(x, 32 - n))
  {
  }

  /** The constants are the square roots of 2, 3, 5 and 10, as far as a word has room. */
  lemma ConstIsRoot(i: nat)
    requires i < 80
    ensures IsRoot(Const(i) as int, (if i < 20 then 2 else if i < 40 then 3 else if i < 60 then 5 else 10) * 0x1000_0000_0000_0000)
  {
  }

  /** The first digest is the bytes 01 23 45 up to ef, the same back down, and f0 e1 d2 c3,
      each word from its lowest byte. */
  lemma InitBytes(k: nat)
    requires k < 4
    ensures ByteAt(INIT.a, 3 - k) as int == 0x01 + 0x22 * k && ByteAt(INIT.b, 3 - k) as int == 0x89 + 0x22 * k
    ensures ByteAt(INIT.c, 3 - k) as int == 0xfe - 0x22 * k && ByteAt(INIT.d, 3 - k) as int == 0x76 - 0x22 * k
    ensures ByteAt(INIT.e, 3 - k) as int == 0xf0 - 0x0f * k
  {
  }

  // ---- one round ----

  /** The new word is a sum of numbers; the others move on by one, the second turned. */
  lemma RoundSum(x: Hash, i: nat, w: Word)
    ensures var y := Round(x, i, w);
            && N.Number(y.a) == (N.Number(Rot32(x.a, 5)) + N.Number(Func(i, x.b, x.c, x.d)) + N.Number(x.e) + N.Number(w) + N.Number(Const(i))) % XLEN_MOD
            && y.b == x.a && y.c == Rot32(x.b, 30) && y.d == x.c && y.e == x.d
  {
    hide N.Number, AddWord, Rot32, Func, Const;
    var a, f, c := Rot32(x.a, 5), Func(i, x.b, x.c, x.d), Const(i);
    N.AddIsSum(a, f);
    SumOn(AddWord(a, f), N.Number(a) + N.Number(f), x.e);
    SumOn(AddWord(AddWord(a, f), x.e), N.Number(a) + N.Number(f) + N.Number(x.e), w);
    SumOn(AddWord(AddWord(AddWord(a, f), x.e), w), N.Number(a) + N.Number(f) + N.Number(x.e) + N.Number(w), c);
  }

  lemma SumOn(s: Word, n: nat, b: Word)
    requires N.Number(s) == n % XLEN_MOD
    ensures N.Number(AddWord(s, b)) == (n + N.Number(b)) % XLEN_MOD
  {
    hide N.Number, AddWord;
    N.AddIsSum(s, b);
    N.Wrapped(n, N.Number(b));
  }

  /** The variables before a round, from those behind it. */
  function Unround(y: Hash, i: nat, w: Word): Hash {
    var b := Rot32(y.c, 2);
    var f := Func(i, b, y.d, y.e);
    Hash(y.b, b, y.d, y.e, SubWord(SubWord(SubWord(SubWord(y.a, Const(i)), w), f), Rot32(y.b, 5)))
  }

  lemma TurnedBack(x: Word)
    ensures Rot32(Rot32(x, 30), 2) == x && Rot32(Rot32(x, 2), 30) == x
  {
  }

  lemma AddUndone(a: Word, b: Word)
    ensures SubWord(AddWord(a, b), b) == a
  {
    hide N.Number, AddWord, SubWord;
    N.AddIsSum(a, b);
    N.SubIsDifference(AddWord(a, b), b);
    N.Wrapped(N.Number(a) + N.Number(b), 0 - N.Number(b) as int);
    Small(a);
    N.SameNumber(SubWord(AddWord(a, b), b), a);
  }

  lemma Small(a: Word)
    ensures N.Number(a) < XLEN_MOD
  {
    N.Pow2Of32();
  }

  lemma SumUndone(a: Word, f: Word, e: Word, w: Word, c: Word)
    ensures SubWord(SubWord(SubWord(SubWord(AddWord(AddWord(AddWord(AddWord(a, f), e), w), c), c), w), f), a) == e
  {
    hide AddWord, SubWord;
    AddUndone(AddWord(AddWord(AddWord(a, f), e), w), c);
    AddUndone(AddWord(AddWord(a, f), e), w);
    N.AddComm(AddWord(a, f), e);
    N.AddComm(a, f);
    N.AddAssoc(e, f, a);
    N.AddComm(f, a);
    N.AddAssoc(e, a, f);
    N.AddAssoc(a, f, e);
    AddUndone(AddWord(e, a), f);
    AddUndone(e, a);
  }

  /** A round forgets nothing. */
  lemma RoundUndone(x: Hash, i: nat, w: Word)
    ensures Unround(Round(x, i, w), i, w) == x
  {
    hide AddWord, SubWord, Rot32, Func, Const;
    TurnedBack(x.b);
    SumUndone(Rot32(x.a, 5), Func(i, x.b, x.c, x.d), x.e, w, Const(i));
  }

  /** The rounds of one block take different digests to different ones. */
  lemma {:induction false} RoundsApart(x: Hash, y: Hash, m: seq<Word>, n: nat)
    requires |m| == 16 && Rounds(x, m, n) == Rounds(y, m, n)
    ensures x == y
    decreases n
  {
    hide Round, Sched, Unround;
    if n > 0 {
      RoundUndone(Rounds(x, m, n - 1), n - 1, Sched(m, n - 1));
      RoundUndone(Rounds(y, m, n - 1), n - 1, Sched(m, n - 1));
      RoundsApart(x, y, m, n - 1);
    }
  }

  // ---- the schedule ----

  /** Every later word, with those 3, 8, 14 and 16 places before it, has an even number of
      ones in each bit. */
  lemma SchedBit(m: seq<Word>, i: nat, k: Word)
    requires |m| == 16 && 16 <= i && k < 32
    ensures N.Bit(Sched(m, i), k)
         == (((N.Bit(Sched(m, i - 3), k) != N.Bit(Sched(m, i - 8), k)) != N.Bit(Sched(m, i - 14), k)) != N.Bit(Sched(m, i - 16), k))
  {
    hide N.Bit, XorWord;
    var a, b, c, d := Sched(m, i - 3), Sched(m, i - 8), Sched(m, i - 14), Sched(m, i - 16);
    N.XorBit(a, b, k);
    N.XorBit(XorWord(a, b), c, k);
    N.XorBit(XorWord(XorWord(a, b), c), d, k);
  }

  lemma LastOf(a: Word, b: Word)
    ensures XorWord(a, XorWord(a, b)) == b
  {
    hide XorWord;
    XorWordTwice(b, a);
    XorWordTwice(a, XorWord(b, a));
    XorWordTwice(XorWord(b, a), a);
  }

  ghost predicate SameFrom(m: seq<Word>, n: seq<Word>, i: nat)
    requires |m| == 16 && |n| == 16
  {
    forall j :: i <= j < i + 16 ==> Sched(m, j) == Sched(n, j)
  }

  /** Any sixteen words of the schedule in a row determine the block. */
  lemma {:induction false} BlockFromWords(m: seq<Word>, n: seq<Word>, i: nat)
    requires |m| == 16 && |n| == 16 && SameFrom(m, n, i)
    ensures m == n
    decreases i
  {
    hide XorWord;
    if i == 0 {
      forall j | 0 <= j < 16
        ensures m[j] == n[j]
      {
        assert Sched(m, j) == Sched(n, j);
      }
    } else {
      var j := i - 1;
      assert Sched(m, j + 13) == Sched(n, j + 13) && Sched(m, j + 8) == Sched(n, j + 8);
      assert Sched(m, j + 2) == Sched(n, j + 2) && Sched(m, j + 16) == Sched(n, j + 16);
      LastOf(XorWord(XorWord(Sched(m, j + 13), Sched(m, j + 8)), Sched(m, j + 2)), Sched(m, j));
      LastOf(XorWord(XorWord(Sched(n, j + 13), Sched(n, j + 8)), Sched(n, j + 2)), Sched(n, j));
      hide Sched;
      BlockFromWords(m, n, j);
    }
  }

  // ---- the length ----

  lemma WordNumber(n: nat)
    requires n < XLEN_MOD
    ensures N.Number(AsWord(n)) == n
  {
    hide N.Number, ToWord;
    N.NumberOfToWord(n);
  }

  /** The eight bytes behind the padding are the length in bits, highest byte first. */
  lemma LengthNumber(bits: nat)
    ensures var b := LengthBytes(bits);
            N.Number(WordOf(b[0], b[1], b[2], b[3])) * XLEN_MOD + N.Number(WordOf(b[4], b[5], b[6], b[7])) == bits % (XLEN_MOD * XLEN_MOD)
  {
    hide N.Number, AsWord, WordOf, ByteAt;
    WordOfBytes(AsWord(High(bits)));
    WordOfBytes(AsWord(Sha.Low(bits)));
    WordNumber(High(bits));
    WordNumber(Sha.Low(bits));
    assert bits / XLEN_MOD % XLEN_MOD * XLEN_MOD + bits % XLEN_MOD == bits % (XLEN_MOD * XLEN_MOD);
  }
}

/** The example of the standard: the digest of "abc", from the padding to the last round. The
    schedule has no rotation, so it is the digest of the standard's first version. */
module ShaExample {
  import opened Basics
  import opened Bytes
  import opened Sha
  import opened Words

  const ABC: seq<Byte> := [0x61, 0x62, 0x63]
  const BLOCK: seq<Word> := [0x61626380, 0, 0, 0, 0, 0, 0, 0, 0, 0, 0, 0, 0, 0, 0, 24]

  // ---- the schedule, eight words at a time ----

  // The eight words behind two lists of eight.
  function Next(u: seq<Word>, v: seq<Word>): (w: seq<Word>)
    requires |u| == |v| == 8
    ensures |w| == 8
  {
    var w0 := XorWord(XorWord(XorWord(v[5], v[0]), u[2]), u[0]);
    var w1 := XorWord(XorWord(XorWord(v[6], v[1]), u[3]), u[1]);
    var w2 := XorWord(XorWord(XorWord(v[7], v[2]), u[4]), u[2]);
    var w3 := XorWord(XorWord(XorWord(w0, v[3]), u[5]), u[3]);
    var w4 := XorWord(XorWord(XorWord(w1, v[4]), u[6]), u[4]);
    var w5 := XorWord(XorWord(XorWord(w2, v[5]), u[7]), u[5]);
    var w6 := XorWord(XorWord(XorWord(w3, v[6]), v[0]), u[6]);
    var w7 := XorWord(XorWord(XorWord(w4, v[7]), v[1]), u[7]);
    [w0, w1, w2, w3, w4, w5, w6, w7]
  }

  ghost predicate Scheduled8(m: seq<Word>, i: nat, v: seq<Word>)
    requires |m| == 16 && |v| == 8
  {
    && Sched(m, i) == v[0] && Sched(m, i + 1) == v[1] && Sched(m, i + 2) == v[2] && Sched(m, i + 3) == v[3]
    && Sched(m, i + 4) == v[4] && Sched(m, i + 5) == v[5] && Sched(m, i + 6) == v[6] && Sched(m, i + 7) == v[7]
  }

  lemma NextScheduled(m: seq<Word>, i: nat, u: seq<Word>, v: seq<Word>)
    requires |m| == 16 && |u| == |v| == 8 && Scheduled8(m, i, u) && Scheduled8(m, i + 8, v)
    ensures Scheduled8(m, i + 16, Next(u, v))
  {
    hide XorWord;
    assert Sched(m, i + 16) == Next(u, v)[0];
    assert Sched(m, i + 17) == Next(u, v)[1];
    assert Sched(m, i + 18) == Next(u, v)[2];
    assert Sched(m, i + 19) == Next(u, v)[3];
    assert Sched(m, i + 20) == Next(u, v)[4];
    assert Sched(m, i + 21) == Next(u, v)[5];
    assert Sched(m, i + 22) == Next(u, v)[6];
    assert Sched(m, i + 23) == Next(u, v)[7];
  }

  const W0: seq<Word> := [0x61626380, 0x00000000, 0x00000000, 0x00000000, 0x00000000, 0x00000000, 0x00000000, 0x00000000]
  const W1: seq<Word> := [0x00000000, 0x00000000, 0x00000000, 0x00000000, 0x00000000, 0x00000000, 0x00000000, 0x00000018]
  const W2: seq<Word> := [0x61626380, 0x00000000, 0x00000018, 0x61626380, 0x00000000, 0x00000018, 0x61626380, 0x00000018]
  const W3: seq<Word> := [0x61626398, 0x61626380, 0x00000000, 0x00000018, 0x61626380, 0x00000000, 0x00000018, 0x61626380]
  const W4: seq<Word> := [0x00000000, 0x00000018, 0x61626398, 0x61626380, 0x00000018, 0x61626398, 0x61626380, 0x00000000]
  const W5: seq<Word> := [0x00000000, 0x00000000, 0x00000018, 0x61626398, 0x61626380, 0x00000000, 0x00000000, 0x00000018]
  const W6: seq<Word> := [0x61626398, 0x61626398, 0x61626380, 0x00000018, 0x61626380, 0x00000018, 0x61626398, 0x61626398]
  const W7: seq<Word> := [0x61626398, 0x61626398, 0x61626380, 0x00000018, 0x61626398, 0x61626380, 0x00000018, 0x61626380]
  const W8: seq<Word> := [0x00000000, 0x00000000, 0x00000000, 0x00000018, 0x61626380, 0x00000000, 0x00000000, 0x00000000]
  const W9: seq<Word> := [0x00000018, 0x61626380, 0x00000018, 0x61626398, 0x61626380, 0x00000018, 0x61626380, 0x00000000]

  lemma NextWords()
    ensures Next(W0, W1) == W2 && Next(W1, W2) == W3 && Next(W2, W3) == W4 && Next(W3, W4) == W5
    ensures Next(W4, W5) == W6 && Next(W5, W6) == W7 && Next(W6, W7) == W8 && Next(W7, W8) == W9
  {
  }

  // The digest after ten stretches of eight rounds.
  const X0: Hash := Hash(0x67452301, 0xefcdab89, 0x98badcfe, 0x10325476, 0xc3d2e1f0)
  const X1: Hash := Hash(0x9e8c07d4, 0x993e30c1, 0x0ff1f290, 0xb3f52677, 0xf3763846)
  const X2: Hash := Hash(0x20bdd62f, 0x196bee77, 0x644a3da5, 0x1181ed99, 0x18c623f9)
  const X3: Hash := Hash(0x775924e6, 0xf7106486, 0x90e64d5c, 0xed353250, 0xff83e792)
  const X4: Hash := Hash(0xd9316f96, 0x669723e2, 0x6e2631a1, 0x8c07a42f, 0xc1c310df)
  const X5: Hash := Hash(0xebbd5233, 0x4bf58dc8, 0xc28cf33d, 0x190cff74, 0x3007318b)
  const X6: Hash := Hash(0x875586d2, 0xf9adf47b, 0xe4faef8f, 0xd5eb549a, 0xff87409c)
  const X7: Hash := Hash(0x236bd48d, 0xc2d477bf, 0x835236e8, 0x5f2e6395, 0x79f43b01)
  const X8: Hash := Hash(0x35d201f8, 0x0708247d, 0xdab08f2f, 0xf0432264, 0xe3fca5b6)
  const X9: Hash := Hash(0x8fa15d5a, 0x564bbed1, 0xca25adc3, 0x70907dd3, 0xee959011)
  const X10: Hash := Hash(0x9a1f95a8, 0x24ff7ed5, 0xdc0a1b01, 0xf7f9f921, 0x2e1b1690)

  function Eight(x: Hash, i: nat, w: seq<Word>): Hash
    requires |w| == 8
  {
    var x := Round(x, i, w[0]);
    var x := Round(x, i + 1, w[1]);
    var x := Round(x, i + 2, w[2]);
    var x := Round(x, i + 3, w[3]);
    var x := Round(x, i + 4, w[4]);
    var x := Round(x, i + 5, w[5]);
    var x := Round(x, i + 6, w[6]);
    Round(x, i + 7, w[7])
  }

  lemma EightRounds(x: Hash, m: seq<Word>, i: nat, w: seq<Word>)
    requires |m| == 16 && |w| == 8 && Scheduled8(m, i, w)
    ensures Rounds(x, m, i + 8) == Eight(Rounds(x, m, i), i, w)
  {
    hide Round, Sched;
    assert Rounds(x, m, i + 1) == Round(Rounds(x, m, i), i, w[0]);
    assert Rounds(x, m, i + 2) == Round(Rounds(x, m, i + 1), i + 1, w[1]);
    assert Rounds(x, m, i + 3) == Round(Rounds(x, m, i + 2), i + 2, w[2]);
    assert Rounds(x, m, i + 4) == Round(Rounds(x, m, i + 3), i + 3, w[3]);
    assert Rounds(x, m, i + 5) == Round(Rounds(x, m, i + 4), i + 4, w[4]);
    assert Rounds(x, m, i + 6) == Round(Rounds(x, m, i + 5), i + 5, w[5]);
    assert Rounds(x, m, i + 7) == Round(Rounds(x, m, i + 6), i + 6, w[6]);
  }

  lemma Stretch0()
    ensures Eight(X0, 0, W0) == X1
  {
  }

  lemma Stretch1()
    ensures Eight(X1, 8, W1) == X2
  {
  }

  lemma Stretch2()
    ensures Eight(X2, 16, W2) == X3
  {
  }

  lemma Stretch3()
    ensures Eight(X3, 24, W3) == X4
  {
  }

  lemma Stretch4()
    ensures Eight(X4, 32, W4) == X5
  {
  }

  lemma Stretch5()
    ensures Eight(X5, 40, W5) == X6
  {
  }

  lemma Stretch6()
    ensures Eight(X6, 48, W6) == X7
  {
  }

  lemma Stretch7()
    ensures Eight(X7, 56, W7) == X8
  {
  }

  lemma Stretch8()
    ensures Eight(X8, 64, W8) == X9
  {
  }

  lemma Stretch9()
    ensures Eight(X9, 72, W9) == X10
  {
  }

  lemma FirstScheduled()
    ensures Scheduled8(BLOCK, 0, W0) && Scheduled8(BLOCK, 8, W1)
  {
  }

  lemma AllScheduled()
    ensures Scheduled8(BLOCK, 0, W0) && Scheduled8(BLOCK, 8, W1) && Scheduled8(BLOCK, 16, W2) && Scheduled8(BLOCK, 24, W3) && Scheduled8(BLOCK, 32, W4)
    ensures Scheduled8(BLOCK, 40, W5) && Scheduled8(BLOCK, 48, W6) && Scheduled8(BLOCK, 56, W7) && Scheduled8(BLOCK, 64, W8) && Scheduled8(BLOCK, 72, W9)
  {
    hide XorWord, Next, Sched, Scheduled8;
    FirstScheduled();
    NextWords();
    NextScheduled(BLOCK, 0, W0, W1);
    NextScheduled(BLOCK, 8, W1, W2);
    NextScheduled(BLOCK, 16, W2, W3);
    NextScheduled(BLOCK, 24, W3, W4);
    NextScheduled(BLOCK, 32, W4, W5);
    NextScheduled(BLOCK, 40, W5, W6);
    NextScheduled(BLOCK, 48, W6, W7);
    NextScheduled(BLOCK, 56, W7, W8);
  }

  lemma AllRounds()
    ensures Rounds(X0, BLOCK, 80) == X10
  {
    hide Eight, Rounds, Scheduled8;
    AllScheduled();
    NoRound();
    EightRounds(X0, BLOCK, 0, W0);
    Stretch0();
    EightRounds(X0, BLOCK, 8, W1);
    Stretch1();
    EightRounds(X0, BLOCK, 16, W2);
    Stretch2();
    EightRounds(X0, BLOCK, 24, W3);
    Stretch3();
    EightRounds(X0, BLOCK, 32, W4);
    Stretch4();
    EightRounds(X0, BLOCK, 40, W5);
    Stretch5();
    EightRounds(X0, BLOCK, 48, W6);
    Stretch6();
    EightRounds(X0, BLOCK, 56, W7);
    Stretch7();
    EightRounds(X0, BLOCK, 64, W8);
    Stretch8();
    EightRounds(X0, BLOCK, 72, W9);
    Stretch9();
  }

  lemma NoRound()
    ensures Rounds(X0, BLOCK, 0) == X0
  {
  }

  lemma Length24()
    ensures LengthBytes(24) == [0, 0, 0, 0, 0, 0, 0, 24]
  {
    assert ToWord(24) == 24;
    assert ToWord(0) == 0;
  }

  lemma PaddedIsBlock()
    ensures |Padded(ABC)| == 64 && BeWords(Padded(ABC)) == BLOCK
  {
    Length24();
    hide LengthBytes, ToWord;
    var p := Padded(ABC);
    assert p == ABC + [0x80] + Zeros(52) + [0, 0, 0, 0, 0, 0, 0, 24];
    assert WordOf(0x61, 0x62, 0x63, 0x80) == 0x61626380 && WordOf(0, 0, 0, 0) == 0 && WordOf(0, 0, 0, 24) == 24;
    hide WordOf;
    forall i | 0 <= i < 16
      ensures BeWords(p)[i] == BLOCK[i]
    {
    }
  }

  /** The digest of "abc". */
  lemma Abc()
    ensures Whole(|Padded(ABC)|) && Digest(Padded(ABC)) == Hash(0x0164b8a9, 0x14cd2a5e, 0x74c4f7ff, 0x082c4d97, 0xf1edf880)
  {
    PaddedIsBlock();
    AllRounds();
    hide Rounds, BeWords, Padded;
    var p := Padded(ABC);
    assert p[..0] == [] && p[0..] == p;
    assert Compress(INIT, BLOCK) == Hash(0x0164b8a9, 0x14cd2a5e, 0x74c4f7ff, 0x082c4d97, 0xf1edf880);
  }
}

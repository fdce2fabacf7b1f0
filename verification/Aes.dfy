/** The AES context of the security benchmark: the key schedules set_key fills in place, and
    block encryption and decryption that alternate between two state arrays. */
module Aes {
  import F = AesField
  import opened AesCipher
  import opened Bytes

  const KS_LENGTH := 64

  // ---- the key schedule (section 5.2 of FIPS 197) ----

  function SubWord(w: Col): Col { Sub(w.b0, w.b1, w.b2, w.b3) }
  function RotWord(w: Col): Col { Col(w.b1, w.b2, w.b3, w.b0) }

  /** The power of {02} that round i of the key expansion adds. */
  function Rcon(i: nat): Byte { if i == 0 then 1 else F.X2(Rcon(i - 1)) }

  function KeyWord(key: seq<Col>, i: nat): Col
    requires |key| > 0
    decreases i
  {
    if i < |key| then key[i]
    else
      var t := KeyWord(key, i - 1);
      var u := if i % |key| == 0 then Plus(SubWord(RotWord(t)), Col(Rcon(i / |key| - 1), 0, 0, 0))
               else if |key| > 6 && i % |key| == 4 then SubWord(t)
               else t;
      Plus(KeyWord(key, i - |key|), u)
  }

  /** The first n words of the array are the first n words of the key's expansion. */
  ghost predicate Expanded(key: seq<Col>, e: seq<Col>, n: nat)
    requires |key| > 0
  {
    n <= |e| && forall j :: 0 <= j < n ==> e[j] == KeyWord(key, j)
  }

  // The four look-ups of the macro ls_box(x,c), whose row r reads byte (r - c) & 3.
  function LsBox(w: Col, c: nat): Col
    requires c == 0 || c == 3
  {
    if c == 0 then FlWord(w.b0, w.b1, w.b2, w.b3) else FlWord(w.b1, w.b2, w.b3, w.b0)
  }

  const RCON_TAB: seq<Byte> := [0x01, 0x02, 0x04, 0x08, 0x10, 0x20, 0x40, 0x80, 0x1b, 0x36,
    0x6c, 0xd8, 0xab, 0x4d, 0x9a, 0x2f, 0x5e, 0xbc, 0x63, 0xc6, 0x97, 0x35, 0x6a, 0xd4, 0xb3, 0x7d, 0xfa, 0xef, 0xc5]

  lemma RconStep0(i: nat)
    requires i < 10
    ensures F.X2(RCON_TAB[i]) == RCON_TAB[i + 1]
  {
  }

  lemma RconStep1(i: nat)
    requires 10 <= i < 20
    ensures F.X2(RCON_TAB[i]) == RCON_TAB[i + 1]
  {
  }

  lemma RconStep2(i: nat)
    requires 20 <= i < 28
    ensures F.X2(RCON_TAB[i]) == RCON_TAB[i + 1]
  {
  }

  lemma {:induction false} RconTable(i: nat)
    requires i < |RCON_TAB|
    ensures RCON_TAB[i] == Rcon(i)
  {
    if i > 0 {
      RconTable(i - 1);
      if i <= 10 { RconStep0(i - 1); } else if i <= 20 { RconStep1(i - 1); } else { RconStep2(i - 1); }
    }
  }

  function RconWord(i: nat): Col
    requires i < |RCON_TAB|
  {
    Col(RCON_TAB[i], 0, 0, 0)
  }

  lemma PlusAssoc(x: Col, y: Col, z: Col)
    ensures Plus(Plus(x, y), z) == Plus(x, Plus(y, z))
  {
    Assoc(x.b0, y.b0, z.b0); Assoc(x.b1, y.b1, z.b1); Assoc(x.b2, y.b2, z.b2); Assoc(x.b3, y.b3, z.b3);
  }

  // How the code computes the word at the start of a stretch of the expansion, in the
  // middle of a stretch of eight, and everywhere else.
  lemma FirstOfStretch(key: seq<Col>, i: nat)
    requires 0 < |key| <= i && i % |key| == 0 && 1 <= i / |key| <= |RCON_TAB|
    ensures KeyWord(key, i) == Plus(Plus(KeyWord(key, i - |key|), LsBox(KeyWord(key, i - 1), 3)), RconWord(i / |key| - 1))
  {
    hide Plus, Sub, FlWord;
    var t := KeyWord(key, i - 1);
    FlIsSub(t.b1, t.b2, t.b3, t.b0);
    RconTable(i / |key| - 1);
    PlusAssoc(KeyWord(key, i - |key|), LsBox(t, 3), RconWord(i / |key| - 1));
  }

  lemma GrowFirst(key: seq<Col>, e: seq<Col>, i: nat)
    requires 0 < |key| <= i < |e| && i % |key| == 0 && 1 <= i / |key| <= |RCON_TAB| && Expanded(key, e, i)
    requires e[i] == Plus(Plus(e[i - |key|], LsBox(e[i - 1], 3)), RconWord(i / |key| - 1))
    ensures Expanded(key, e, i + 1)
  {
    hide Plus, KeyWord, LsBox, RconWord;
    FirstOfStretch(key, i);
  }

  lemma GrowMiddle(key: seq<Col>, e: seq<Col>, i: nat)
    requires 6 < |key| <= i < |e| && i % |key| == 4 && Expanded(key, e, i)
    requires e[i] == Plus(e[i - |key|], LsBox(e[i - 1], 0))
    ensures Expanded(key, e, i + 1)
  {
    hide Plus, Sub, FlWord;
    var t := KeyWord(key, i - 1);
    FlIsSub(t.b0, t.b1, t.b2, t.b3);
  }

  lemma Grow(key: seq<Col>, e: seq<Col>, i: nat)
    requires 0 < |key| <= i < |e| && i % |key| != 0 && (|key| > 6 ==> i % |key| != 4) && Expanded(key, e, i)
    requires e[i] == Plus(e[i - |key|], e[i - 1])
    ensures Expanded(key, e, i + 1)
  {
    hide Plus;
  }

  lemma Stretch4(key: seq<Col>, e: seq<Col>, kf: nat)
    requires |key| == 4 && kf % 4 == 0 && kf / 4 < 10 && kf + 8 <= |e| && Expanded(key, e, kf + 4)
    requires e[kf + 4] == Plus(Plus(e[kf], LsBox(e[kf + 3], 3)), RconWord(kf / 4))
    requires e[kf + 5] == Plus(e[kf + 1], e[kf + 4]) && e[kf + 6] == Plus(e[kf + 2], e[kf + 5])
    requires e[kf + 7] == Plus(e[kf + 3], e[kf + 6])
    ensures Expanded(key, e, kf + 8)
  {
    hide Expanded, Plus, LsBox, RconWord;
    GrowFirst(key, e, kf + 4);
    Grow(key, e, kf + 5); Grow(key, e, kf + 6); Grow(key, e, kf + 7);
  }

  lemma Stretch6(key: seq<Col>, e: seq<Col>, kf: nat)
    requires |key| == 6 && kf % 6 == 0 && kf / 6 < 10 && kf + 12 <= |e| && Expanded(key, e, kf + 6)
    requires e[kf + 6] == Plus(Plus(e[kf], LsBox(e[kf + 5], 3)), RconWord(kf / 6))
    requires e[kf + 7] == Plus(e[kf + 1], e[kf + 6]) && e[kf + 8] == Plus(e[kf + 2], e[kf + 7])
    requires e[kf + 9] == Plus(e[kf + 3], e[kf + 8]) && e[kf + 10] == Plus(e[kf + 4], e[kf + 9])
    requires e[kf + 11] == Plus(e[kf + 5], e[kf + 10])
    ensures Expanded(key, e, kf + 12)
  {
    hide Expanded, Plus, LsBox, RconWord;
    GrowFirst(key, e, kf + 6);
    Grow(key, e, kf + 7); Grow(key, e, kf + 8); Grow(key, e, kf + 9); Grow(key, e, kf + 10); Grow(key, e, kf + 11);
  }

  // A stretch of eight words starts here.
  predicate Stretch(kf: nat) { kf % 8 == 0 }

  lemma IsStretch(kf: nat)
    requires kf % 8 == 0
    ensures Stretch(kf)
  {
  }

  lemma Grow8(key: seq<Col>, e: seq<Col>, kf: nat, j: nat)
    requires |key| == 8 && Stretch(kf) && 0 < j < 8 && j != 4 && kf + 8 + j < |e| && Expanded(key, e, kf + 8 + j)
    requires e[kf + 8 + j] == Plus(e[kf + j], e[kf + 7 + j])
    ensures Expanded(key, e, kf + 9 + j)
  {
    hide Expanded, Plus;
    Grow(key, e, kf + 8 + j);
  }

  lemma GrowMiddle8(key: seq<Col>, e: seq<Col>, kf: nat)
    requires |key| == 8 && Stretch(kf) && kf + 12 < |e| && Expanded(key, e, kf + 12)
    requires e[kf + 12] == Plus(e[kf + 4], LsBox(e[kf + 11], 0))
    ensures Expanded(key, e, kf + 13)
  {
    hide Expanded, Plus, LsBox;
    GrowMiddle(key, e, kf + 12);
  }

  lemma Stretch8(key: seq<Col>, e: seq<Col>, kf: nat)
    requires |key| == 8 && kf % 8 == 0 && kf / 8 < 10 && kf + 16 <= |e| && Expanded(key, e, kf + 8)
    requires e[kf + 8] == Plus(Plus(e[kf], LsBox(e[kf + 7], 3)), RconWord(kf / 8))
    requires e[kf + 9] == Plus(e[kf + 1], e[kf + 8]) && e[kf + 10] == Plus(e[kf + 2], e[kf + 9])
    requires e[kf + 11] == Plus(e[kf + 3], e[kf + 10]) && e[kf + 12] == Plus(e[kf + 4], LsBox(e[kf + 11], 0))
    requires e[kf + 13] == Plus(e[kf + 5], e[kf + 12]) && e[kf + 14] == Plus(e[kf + 6], e[kf + 13])
    requires e[kf + 15] == Plus(e[kf + 7], e[kf + 14])
    ensures Expanded(key, e, kf + 16)
  {
    hide Expanded, Plus, LsBox, RconWord, Stretch;
    IsStretch(kf);
    GrowFirst(key, e, kf + 8);
    Grow8(key, e, kf, 1); Grow8(key, e, kf, 2); Grow8(key, e, kf, 3);
    GrowMiddle8(key, e, kf);
    Grow8(key, e, kf, 5); Grow8(key, e, kf, 6); Grow8(key, e, kf, 7);
  }

  // ---- the cipher under a key of four, six or eight words ----

  function Nr(nk: nat): nat { if nk > 4 then nk + 6 else 10 }

  ghost function Schedule(key: seq<Col>): (w: seq<Col>)
    requires |key| > 0
    ensures |w| == 4 * Nr(|key|) + 4 && Expanded(key, w, |w|)
  {
    seq(4 * Nr(|key|) + 4, i requires 0 <= i => KeyWord(key, i))
  }

  ghost function Encrypted(key: seq<Col>, x: State): State
    requires |key| > 0
  {
    Cipher(Schedule(key), x, Nr(|key|))
  }

  ghost function Decrypted(key: seq<Col>, y: State): State
    requires |key| > 0
  {
    InvCipher(Schedule(key), y, Nr(|key|))
  }

  /** Decryption inverts encryption, for every key and every block. */
  lemma Inverts(key: seq<Col>, x: State)
    requires |key| > 0
    ensures Decrypted(key, Encrypted(key, x)) == x
  {
    hide Cipher, InvCipher;
    CipherUndone(Schedule(key), Nr(|key|), x);
  }

  // The arrays of a context stand for the cipher under its key.
  lemma ArraysSuffice(key: seq<Col>, e: seq<Col>, x: State)
    requires |key| > 0 && Expanded(key, e, 4 * Nr(|key|) + 4)
    ensures Cipher(e, x, Nr(|key|)) == Encrypted(key, x) && InvCipher(e, x, Nr(|key|)) == Decrypted(key, x)
  {
    hide Cipher, InvCipher, KeyWord;
    assert e[..4 * Nr(|key|) + 4] == Schedule(key);
    SameCipher(Schedule(key), e, x, Nr(|key|));
  }

  lemma DualSuffices(key: seq<Col>, e: seq<Col>, d: seq<Col>, y: State)
    requires |key| > 0 && Expanded(key, e, 4 * Nr(|key|) + 4) && 4 * Nr(|key|) + 4 <= |d| && Dual(e, d, Nr(|key|))
    ensures EquivCipher(d, y, Nr(|key|)) == Decrypted(key, y)
  {
    hide EquivCipher, Cipher, InvCipher, Encrypted, Decrypted, KeyWord, Dual;
    EquivIsInverse(e, d, Nr(|key|), y);
    ArraysSuffice(key, e, y);
  }

  // ---- words and blocks in arrays of bytes, lowest byte first ----

  function WordIn(b: seq<Byte>, i: nat): Col
    requires i + 4 <= |b|
  {
    Col(b[i], b[i + 1], b[i + 2], b[i + 3])
  }

  function KeyIn(b: seq<Byte>, nk: nat): (key: seq<Col>)
    requires 4 * nk <= |b|
    ensures |key| == nk && forall j :: 0 <= j < nk ==> key[j] == WordIn(b, 4 * j)
  {
    seq(nk, i requires 0 <= i < nk => WordIn(b, 4 * i))
  }

  function Block(b: seq<Byte>): State
    requires |b| >= 16
  {
    State(WordIn(b, 0), WordIn(b, 4), WordIn(b, 8), WordIn(b, 12))
  }

  // ---- the state arrays and the rounds on them ----

  ghost function Held(b: array<Col>): State
    requires b.Length == 4
    reads b
  {
    State(b[0], b[1], b[2], b[3])
  }

  // One full round: the columns of y from those of x, by the tables of the main rounds.
  method FwdRnd(y: array<Col>, x: array<Col>, k: array<Col>, kp: nat, ghost n: nat)
    requires y.Length == 4 && x.Length == 4 && y != x && y != k && kp == 4 * n && kp + 4 <= k.Length
    modifies y
    ensures Held(y) == Round(Held(x), KeyAt(k[..], n))
  {
    hide FtWord, Plus, Mix, Sub;
    y[0] := Plus(k[kp], FtWord(x[0].b0, x[1].b1, x[2].b2, x[3].b3));
    y[1] := Plus(k[kp + 1], FtWord(x[1].b0, x[2].b1, x[3].b2, x[0].b3));
    y[2] := Plus(k[kp + 2], FtWord(x[2].b0, x[3].b1, x[0].b2, x[1].b3));
    y[3] := Plus(k[kp + 3], FtWord(x[3].b0, x[0].b1, x[1].b2, x[2].b3));
    FtIsMix(x[0].b0, x[1].b1, x[2].b2, x[3].b3); FtIsMix(x[1].b0, x[2].b1, x[3].b2, x[0].b3);
    FtIsMix(x[2].b0, x[3].b1, x[0].b2, x[1].b3); FtIsMix(x[3].b0, x[0].b1, x[1].b2, x[2].b3);
    AddedEitherWay(MixAll(SubShift(Held(x))), KeyAt(k[..], n));
  }

  method FwdLRnd(y: array<Col>, x: array<Col>, k: array<Col>, kp: nat, ghost n: nat)
    requires y.Length == 4 && x.Length == 4 && y != x && y != k && kp == 4 * n && kp + 4 <= k.Length
    modifies y
    ensures Held(y) == LastRound(Held(x), KeyAt(k[..], n))
  {
    hide FlWord, Plus, Sub;
    y[0] := Plus(k[kp], FlWord(x[0].b0, x[1].b1, x[2].b2, x[3].b3));
    y[1] := Plus(k[kp + 1], FlWord(x[1].b0, x[2].b1, x[3].b2, x[0].b3));
    y[2] := Plus(k[kp + 2], FlWord(x[2].b0, x[3].b1, x[0].b2, x[1].b3));
    y[3] := Plus(k[kp + 3], FlWord(x[3].b0, x[0].b1, x[1].b2, x[2].b3));
    FlIsSub(x[0].b0, x[1].b1, x[2].b2, x[3].b3); FlIsSub(x[1].b0, x[2].b1, x[3].b2, x[0].b3);
    FlIsSub(x[2].b0, x[3].b1, x[0].b2, x[1].b3); FlIsSub(x[3].b0, x[0].b1, x[1].b2, x[2].b3);
    AddedEitherWay(SubShift(Held(x)), KeyAt(k[..], n));
  }

  method InvRnd(y: array<Col>, x: array<Col>, k: array<Col>, kp: nat, ghost n: nat)
    requires y.Length == 4 && x.Length == 4 && y != x && y != k && kp == 4 * n && kp + 4 <= k.Length
    modifies y
    ensures Held(y) == InvRound(Held(x), KeyAt(k[..], n))
  {
    hide ItWord, Plus, InvMix, InvSub;
    y[0] := Plus(k[kp], ItWord(x[0].b0, x[3].b1, x[2].b2, x[1].b3));
    y[1] := Plus(k[kp + 1], ItWord(x[1].b0, x[0].b1, x[3].b2, x[2].b3));
    y[2] := Plus(k[kp + 2], ItWord(x[2].b0, x[1].b1, x[0].b2, x[3].b3));
    y[3] := Plus(k[kp + 3], ItWord(x[3].b0, x[2].b1, x[1].b2, x[0].b3));
    ItIsInvMix(x[0].b0, x[3].b1, x[2].b2, x[1].b3); ItIsInvMix(x[1].b0, x[0].b1, x[3].b2, x[2].b3);
    ItIsInvMix(x[2].b0, x[1].b1, x[0].b2, x[3].b3); ItIsInvMix(x[3].b0, x[2].b1, x[1].b2, x[0].b3);
    AddedEitherWay(InvMixAll(InvSubShift(Held(x))), KeyAt(k[..], n));
  }

  method InvLRnd(y: array<Col>, x: array<Col>, k: array<Col>, kp: nat, ghost n: nat)
    requires y.Length == 4 && x.Length == 4 && y != x && y != k && kp == 4 * n && kp + 4 <= k.Length
    modifies y
    ensures Held(y) == InvLastRound(Held(x), KeyAt(k[..], n))
  {
    hide IlWord, Plus, InvSub;
    y[0] := Plus(k[kp], IlWord(x[0].b0, x[3].b1, x[2].b2, x[1].b3));
    y[1] := Plus(k[kp + 1], IlWord(x[1].b0, x[0].b1, x[3].b2, x[2].b3));
    y[2] := Plus(k[kp + 2], IlWord(x[2].b0, x[1].b1, x[0].b2, x[3].b3));
    y[3] := Plus(k[kp + 3], IlWord(x[3].b0, x[2].b1, x[1].b2, x[0].b3));
    IlIsInvSub(x[0].b0, x[3].b1, x[2].b2, x[1].b3); IlIsInvSub(x[1].b0, x[0].b1, x[3].b2, x[2].b3);
    IlIsInvSub(x[2].b0, x[1].b1, x[0].b2, x[3].b3); IlIsInvSub(x[3].b0, x[2].b1, x[1].b2, x[0].b3);
    AddedEitherWay(InvSubShift(Held(x)), KeyAt(k[..], n));
  }

  lemma AddedEitherWay(x: State, k: State)
    ensures AddKey(k, x) == AddKey(x, k)
  {
    hide Plus;
    PlusTwice(x.c0, k.c0); PlusTwice(x.c1, k.c1); PlusTwice(x.c2, k.c2); PlusTwice(x.c3, k.c3);
  }

  // The input block and the first round key.
  method StateIn(y: array<Col>, x: seq<Byte>, k: array<Col>)
    requires y.Length == 4 && |x| >= 16 && y != k && k.Length >= 4
    modifies y
    ensures Held(y) == AddKey(Block(x), KeyAt(k[..], 0))
  {
    hide Plus;
    y[0] := Plus(WordIn(x, 0), k[0]);
    y[1] := Plus(WordIn(x, 4), k[1]);
    y[2] := Plus(WordIn(x, 8), k[2]);
    y[3] := Plus(WordIn(x, 12), k[3]);
  }

  method WordOut(y: array<Byte>, i: nat, w: Col)
    requires i + 4 <= y.Length
    modifies y
    ensures WordIn(y[..], i) == w
    ensures forall j :: 0 <= j < y.Length && !(i <= j < i + 4) ==> y[j] == old(y[j])
  {
    y[i], y[i + 1], y[i + 2], y[i + 3] := w.b0, w.b1, w.b2, w.b3;
  }

  method StateOut(y: array<Byte>, x: array<Col>)
    requires x.Length == 4 && y.Length >= 16
    modifies y
    ensures Block(y[..]) == Held(x)
    ensures y[16..] == old(y[16..])
  {
    WordOut(y, 0, x[0]);
    WordOut(y, 4, x[1]);
    WordOut(y, 8, x[2]);
    WordOut(y, 12, x[3]);
  }

  lemma RoundsFrom(w: seq<Col>, x: State)
    requires 4 <= |w|
    ensures Rounds(w, x, 0) == AddKey(x, KeyAt(w, 0))
  {
  }

  lemma RoundsNext(w: seq<Col>, x: State, n: nat)
    requires 4 * n + 8 <= |w|
    ensures Rounds(w, x, n + 1) == Round(Rounds(w, x, n), KeyAt(w, n + 1))
  {
  }

  // Two rounds, from one state array to the other and back.
  method FwdPair(b0: array<Col>, b1: array<Col>, k: array<Col>, kp: nat, ghost n: nat, ghost x: State)
    requires b0.Length == 4 && b1.Length == 4 && b0 != b1 && b0 != k && b1 != k
    requires kp == 4 * n + 4 && kp + 8 <= k.Length && Held(b0) == Rounds(k[..], x, n)
    modifies b0, b1
    ensures Held(b0) == Rounds(k[..], x, n + 2)
  {
    hide Rounds, Round, KeyAt, Held;
    FwdRnd(b1, b0, k, kp, n + 1);
    FwdRnd(b0, b1, k, kp + 4, n + 2);
    RoundsNext(k[..], x, n);
    RoundsNext(k[..], x, n + 1);
  }

  lemma EquivRoundsFrom(w: seq<Col>, x: State)
    requires 4 <= |w|
    ensures EquivRounds(w, x, 0) == AddKey(x, KeyAt(w, 0))
  {
  }

  lemma EquivRoundsNext(w: seq<Col>, x: State, n: nat)
    requires 4 * n + 8 <= |w|
    ensures EquivRounds(w, x, n + 1) == InvRound(EquivRounds(w, x, n), KeyAt(w, n + 1))
  {
  }

  // Two rounds, from one state array to the other and back.
  method InvPair(b0: array<Col>, b1: array<Col>, k: array<Col>, kp: nat, ghost n: nat, ghost x: State)
    requires b0.Length == 4 && b1.Length == 4 && b0 != b1 && b0 != k && b1 != k
    requires kp == 4 * n + 4 && kp + 8 <= k.Length && Held(b0) == EquivRounds(k[..], x, n)
    modifies b0, b1
    ensures Held(b0) == EquivRounds(k[..], x, n + 2)
  {
    hide EquivRounds, InvRound, KeyAt, Held;
    InvRnd(b1, b0, k, kp, n + 1);
    InvRnd(b0, b1, k, kp + 4, n + 2);
    EquivRoundsNext(k[..], x, n);
    EquivRoundsNext(k[..], x, n + 1);
  }

  // ---- the context ----

  const ENC: Byte := 1
  const DEC: Byte := 2
  const BAD := 0
  const GOOD := 1

  function Encrypts(mode: Byte): bool { mode & ENC != 0 }
  function Decrypts(mode: Byte): bool { mode & DEC != 0 }

  predicate Legal(nBytes: nat, f: Byte) {
    nBytes % 8 == 0 && 16 <= nBytes <= 32 && (Encrypts(f) || Decrypts(f))
  }

  function Cleared(mode: Byte): Byte { mode & 0xfc }
  function LowBits(f: Byte): Byte { f & 3 }
  function SetMode(mode: Byte, f: Byte): Byte { Cleared(mode) | LowBits(f) }

  lemma ModeBits(mode: Byte, f: Byte)
    ensures Encrypts(SetMode(mode, f)) == Encrypts(f) && Decrypts(SetMode(mode, f)) == Decrypts(f)
    ensures !Encrypts(Cleared(mode)) && !Decrypts(Cleared(mode))
    ensures Decrypts(f) ==> LowBits(f) != ENC
  {
  }

  class Context {
    var nkey: nat
    var nrnd: nat
    const eKey: array<Col>
    const dKey: array<Col>
    var mode: Byte
    ghost var key: seq<Col>

    ghost function Arrays(): set<object> { {eKey, dKey} }

    ghost predicate Valid()
      reads this, eKey, dKey
    {
      && eKey.Length == KS_LENGTH && dKey.Length == KS_LENGTH && eKey != dKey
      && (Encrypts(mode) || Decrypts(mode) ==>
            && |key| == nkey && nkey in {4, 6, 8} && nrnd == Nr(nkey)
            && Expanded(key, eKey[..], 4 * nrnd + 4)
            && (Decrypts(mode) ==> Dual(eKey[..], dKey[..], nrnd)))
    }

    constructor ()
      ensures Valid() && !Encrypts(mode) && !Decrypts(mode) && fresh(eKey) && fresh(dKey)
    {
      eKey := new Col[KS_LENGTH];
      dKey := new Col[KS_LENGTH];
      mode, nkey, nrnd, key := 0, 0, 0, [];
    }

    // The keys of set_key for four, six and eight words: each turn of the loop writes one
    // stretch of the schedule from the stretch before it.
    method Expand4()
      requires eKey.Length == KS_LENGTH && |key| == 4 && Expanded(key, eKey[..], 4)
      modifies eKey
      ensures Expanded(key, eKey[..], 44)
    {
      hide Expanded, Plus, LsBox, RconWord;
      var kf, kt, rci := 0, 40, 0;
      while true
        invariant 0 <= kf < kt && kf % 4 == 0 && rci == kf / 4
        invariant Expanded(key, eKey[..], kf + 4)
        decreases kt - kf
      {
        ghost var e := eKey[..];
        eKey[kf + 4] := Plus(Plus(eKey[kf], LsBox(eKey[kf + 3], 3)), RconWord(rci));
        rci := rci + 1;
        eKey[kf + 5] := Plus(eKey[kf + 1], eKey[kf + 4]);
        eKey[kf + 6] := Plus(eKey[kf + 2], eKey[kf + 5]);
        eKey[kf + 7] := Plus(eKey[kf + 3], eKey[kf + 6]);
        Kept(key, e, eKey[..], kf + 4);
        Stretch4(key, eKey[..], kf);
        kf := kf + 4;
        if kf >= kt { break; }
      }
    }

    method Expand6()
      requires eKey.Length == KS_LENGTH && |key| == 6 && Expanded(key, eKey[..], 6)
      modifies eKey
      ensures Expanded(key, eKey[..], 52)
    {
      hide Expanded, Plus, LsBox, RconWord;
      var kf, kt, rci := 0, 46, 0;
      while true
        invariant 0 <= kf < kt && kf % 6 == 0 && rci == kf / 6
        invariant Expanded(key, eKey[..], kf + 6)
        decreases kt - kf
      {
        ghost var e := eKey[..];
        eKey[kf + 6] := Plus(Plus(eKey[kf], LsBox(eKey[kf + 5], 3)), RconWord(rci));
        rci := rci + 1;
        eKey[kf + 7] := Plus(eKey[kf + 1], eKey[kf + 6]);
        eKey[kf + 8] := Plus(eKey[kf + 2], eKey[kf + 7]);
        eKey[kf + 9] := Plus(eKey[kf + 3], eKey[kf + 8]);
        eKey[kf + 10] := Plus(eKey[kf + 4], eKey[kf + 9]);
        eKey[kf + 11] := Plus(eKey[kf + 5], eKey[kf + 10]);
        Kept(key, e, eKey[..], kf + 6);
        Stretch6(key, eKey[..], kf);
        kf := kf + 6;
        if kf >= kt { break; }
      }
      Fewer(key, eKey[..], kf + 6, 52);
    }

    method Expand8()
      requires eKey.Length == KS_LENGTH && |key| == 8 && Expanded(key, eKey[..], 8)
      modifies eKey
      ensures Expanded(key, eKey[..], 60)
    {
      hide Expanded, Plus, LsBox, RconWord;
      var kf, kt, rci := 0, 52, 0;
      while true
        invariant 0 <= kf < kt && kf % 8 == 0 && rci == kf / 8
        invariant Expanded(key, eKey[..], kf + 8)
        decreases kt - kf
      {
        ghost var e := eKey[..];
        eKey[kf + 8] := Plus(Plus(eKey[kf], LsBox(eKey[kf + 7], 3)), RconWord(rci));
        rci := rci + 1;
        eKey[kf + 9] := Plus(eKey[kf + 1], eKey[kf + 8]);
        eKey[kf + 10] := Plus(eKey[kf + 2], eKey[kf + 9]);
        eKey[kf + 11] := Plus(eKey[kf + 3], eKey[kf + 10]);
        eKey[kf + 12] := Plus(eKey[kf + 4], LsBox(eKey[kf + 11], 0));
        eKey[kf + 13] := Plus(eKey[kf + 5], eKey[kf + 12]);
        eKey[kf + 14] := Plus(eKey[kf + 6], eKey[kf + 13]);
        eKey[kf + 15] := Plus(eKey[kf + 7], eKey[kf + 14]);
        Kept(key, e, eKey[..], kf + 8);
        Stretch8(key, eKey[..], kf);
        kf := kf + 8;
        if kf >= kt { break; }
      }
      Fewer(key, eKey[..], kf + 8, 60);
    }

    // The macros cpy and mix: four words moved from one schedule to the other.
    method Cpy(kt: nat, kf: nat, ghost t: nat, ghost i: nat)
      requires eKey.Length == KS_LENGTH && dKey.Length == KS_LENGTH && eKey != dKey
      requires kt == 4 * t && kf == 4 * i && kt + 4 <= KS_LENGTH && kf + 4 <= KS_LENGTH
      modifies dKey
      ensures KeyAt(dKey[..], t) == KeyAt(eKey[..], i)
      ensures forall j :: 0 <= j < KS_LENGTH && !(kt <= j < kt + 4) ==> dKey[j] == old(dKey[j])
    {
      dKey[kt], dKey[kt + 1], dKey[kt + 2], dKey[kt + 3] := eKey[kf], eKey[kf + 1], eKey[kf + 2], eKey[kf + 3];
    }

    method MixKeys(kt: nat, kf: nat, ghost t: nat, ghost i: nat)
      requires eKey.Length == KS_LENGTH && dKey.Length == KS_LENGTH && eKey != dKey
      requires kt == 4 * t && kf == 4 * i && kt + 4 <= KS_LENGTH && kf + 4 <= KS_LENGTH
      modifies dKey
      ensures KeyAt(dKey[..], t) == InvMixAll(KeyAt(eKey[..], i))
      ensures forall j :: 0 <= j < KS_LENGTH && !(kt <= j < kt + 4) ==> dKey[j] == old(dKey[j])
    {
      hide InvMix, InvMcol;
      InvMcolIsInvMix(eKey[kf]); InvMcolIsInvMix(eKey[kf + 1]); InvMcolIsInvMix(eKey[kf + 2]); InvMcolIsInvMix(eKey[kf + 3]);
      dKey[kt], dKey[kt + 1], dKey[kt + 2], dKey[kt + 3] :=
        InvMcol(eKey[kf]), InvMcol(eKey[kf + 1]), InvMcol(eKey[kf + 2]), InvMcol(eKey[kf + 3]);
    }

    // The decryption schedule, written from its end to its start.
    method Reverse()
      requires eKey.Length == KS_LENGTH && dKey.Length == KS_LENGTH && eKey != dKey && 0 < nrnd && 4 * nrnd + 4 <= KS_LENGTH
      modifies dKey
      ensures Dual(eKey[..], dKey[..], nrnd)
    {
      hide InvMixAll, KeyAt;
      var kt, kf := 4 * nrnd, 0;
      Cpy(kt, kf, nrnd, 0);
      kt, kf := kt + 4 - 8, kf + 4;
      var i := 1;
      while i < nrnd
        invariant 1 <= i <= nrnd && kt == 4 * (nrnd - i) && kf == 4 * i
        invariant forall p :: nrnd - i < p <= nrnd ==> KeyAt(dKey[..], p) == DualAt(eKey[..], nrnd, p)
      {
        ghost var d := dKey[..];
        MixKeys(kt, kf, nrnd - i, i);
        Untouched(d, dKey[..], kt, nrnd - i, nrnd);
        kt, kf := kt + 4 - 8, kf + 4;
        i := i + 1;
      }
      ghost var d := dKey[..];
      Cpy(kt, kf, 0, nrnd);
      Untouched(d, dKey[..], kt, 0, nrnd);
    }

    // The switch over the length of the key.
    method Expand()
      requires eKey.Length == KS_LENGTH && |key| == nkey && nkey in {4, 6, 8} && Expanded(key, eKey[..], nkey)
      modifies eKey
      ensures Expanded(key, eKey[..], 4 * Nr(nkey) + 4)
    {
      hide Expanded;
      if nkey == 4 { Expand4(); } else if nkey == 6 { Expand6(); } else { Expand8(); }
    }

    method Install(inKey: seq<Byte>, nBytes: nat, f: Byte)
      requires Valid() && Legal(nBytes, f) && nBytes <= |inKey|
      modifies this, eKey, dKey
      ensures Valid() && key == KeyIn(inKey, nBytes / 4)
      ensures Encrypts(mode) == Encrypts(f) && Decrypts(mode) == Decrypts(f)
    {
      hide Expanded, Dual, WordIn, Encrypts, Decrypts, KeyIn, SetMode, Cleared, LowBits;
      ModeBits(mode, f);
      mode := SetMode(mode, f);
      nkey := nBytes / 4;
      nrnd := Nr(nkey);
      key := KeyIn(inKey, nkey);
      LoadKey(inKey);
      Expand();
      if LowBits(f) != ENC { Reverse(); }
    }

    /** set_key: a legal call installs the key, a call with no bytes reports the length of
        the key in use, and any other call leaves the context without one. */
    method SetKey(inKey: seq<Byte>, nBytes: nat, f: Byte) returns (r: int)
      requires Valid() && (Legal(nBytes, f) ==> nBytes <= |inKey|)
      modifies this, eKey, dKey
      ensures Valid()
      ensures Legal(nBytes, f) ==> r == GOOD && key == KeyIn(inKey, nBytes / 4)
      ensures Legal(nBytes, f) ==> Encrypts(mode) == Encrypts(f) && Decrypts(mode) == Decrypts(f)
      ensures !Legal(nBytes, f) && nBytes != 0 ==> r == BAD && !Encrypts(mode) && !Decrypts(mode)
      ensures nBytes == 0 ==> r == 4 * old(nkey) && mode == old(mode) && key == old(key)
      ensures !Legal(nBytes, f) ==> eKey[..] == old(eKey[..]) && dKey[..] == old(dKey[..])
    {
      hide Expanded, Dual, WordIn, Encrypts, Decrypts, KeyIn, Cleared;
      if nBytes % 8 != 0 || nBytes < 16 || nBytes > 32 || !(Encrypts(f) || Decrypts(f)) {
        ModeBits(mode, f);
        if nBytes != 0 { mode := Cleared(mode); return BAD; }
        return 4 * nkey;
      }
      Install(inKey, nBytes, f);
      return GOOD;
    }

    /** encrypt: one block under the key in use. */
    method Encrypt(inBlk: seq<Byte>, outBlk: array<Byte>) returns (r: int)
      requires Valid() && |inBlk| == 16 && outBlk.Length == 16
      modifies outBlk
      ensures r == if Encrypts(mode) then GOOD else BAD
      ensures r == GOOD ==> Block(outBlk[..]) == Encrypted(key, Block(inBlk))
      ensures r == BAD ==> outBlk[..] == old(outBlk[..])
    {
      hide Rounds, Round, LastRound, AddKey, KeyAt, Expanded, Dual, Encrypts, Decrypts, Held, Block, Encrypted, Decrypted, InvCipher;
      if !Encrypts(mode) { return BAD; }
      var b0, b1 := new Col[4], new Col[4];
      ghost var x := Block(inBlk);
      StateIn(b0, inBlk, eKey);
      RoundsFrom(eKey[..], x);
      var kp := 4;
      ghost var n := 0;
      if nrnd == 14 {
        FwdPair(b0, b1, eKey, kp, n, x);
        kp, n := kp + 8, n + 2;
      }
      if nrnd == 14 || nrnd == 12 {
        FwdPair(b0, b1, eKey, kp, n, x);
        kp, n := kp + 8, n + 2;
      }
      if nrnd == 14 || nrnd == 12 || nrnd == 10 {
        FwdPair(b0, b1, eKey, kp, n, x);
        FwdPair(b0, b1, eKey, kp + 8, n + 2, x);
        FwdPair(b0, b1, eKey, kp + 16, n + 4, x);
        FwdPair(b0, b1, eKey, kp + 24, n + 6, x);
        FwdRnd(b1, b0, eKey, kp + 32, n + 9);
        RoundsNext(eKey[..], x, n + 8);
        FwdLRnd(b0, b1, eKey, kp + 36, n + 10);
      }
      StateOut(outBlk, b0);
      ArraysSuffice(key, eKey[..], x);
      return GOOD;
    }

    /** decrypt: the same shape of rounds over the reversed schedule. */
    method Decrypt(inBlk: seq<Byte>, outBlk: array<Byte>) returns (r: int)
      requires Valid() && |inBlk| == 16 && outBlk.Length == 16
      modifies outBlk
      ensures r == if Decrypts(mode) then GOOD else BAD
      ensures r == GOOD ==> Block(outBlk[..]) == Decrypted(key, Block(inBlk))
      ensures r == BAD ==> outBlk[..] == old(outBlk[..])
    {
      hide EquivRounds, InvRound, InvLastRound, AddKey, KeyAt, Expanded, Dual, Encrypts, Decrypts, Held, Block, Encrypted, Decrypted, InvCipher;
      if !Decrypts(mode) { return BAD; }
      var b0, b1 := new Col[4], new Col[4];
      ghost var x := Block(inBlk);
      StateIn(b0, inBlk, dKey);
      EquivRoundsFrom(dKey[..], x);
      var kp := 4;
      ghost var n := 0;
      if nrnd == 14 {
        InvPair(b0, b1, dKey, kp, n, x);
        kp, n := kp + 8, n + 2;
      }
      if nrnd == 14 || nrnd == 12 {
        InvPair(b0, b1, dKey, kp, n, x);
        kp, n := kp + 8, n + 2;
      }
      if nrnd == 14 || nrnd == 12 || nrnd == 10 {
        InvPair(b0, b1, dKey, kp, n, x);
        InvPair(b0, b1, dKey, kp + 8, n + 2, x);
        InvPair(b0, b1, dKey, kp + 16, n + 4, x);
        InvPair(b0, b1, dKey, kp + 24, n + 6, x);
        InvRnd(b1, b0, dKey, kp + 32, n + 9);
        EquivRoundsNext(dKey[..], x, n + 8);
        InvLRnd(b0, b1, dKey, kp + 36, n + 10);
      }
      StateOut(outBlk, b0);
      DualSuffices(key, eKey[..], dKey[..], x);
      return GOOD;
    }

    method LoadKey(inKey: seq<Byte>)
      requires eKey.Length == KS_LENGTH && nkey in {4, 6, 8} && 4 * nkey <= |inKey| && key == KeyIn(inKey, nkey)
      modifies eKey
      ensures Expanded(key, eKey[..], nkey)
    {
      hide WordIn, Expanded, KeyIn;
      eKey[0] := WordIn(inKey, 0);
      eKey[1] := WordIn(inKey, 4);
      eKey[2] := WordIn(inKey, 8);
      eKey[3] := WordIn(inKey, 12);
      if nkey >= 6 {
        eKey[4] := WordIn(inKey, 16);
        eKey[5] := WordIn(inKey, 20);
      }
      if nkey == 8 {
        eKey[6] := WordIn(inKey, 24);
        eKey[7] := WordIn(inKey, 28);
      }
      assert forall j :: 0 <= j < nkey ==> eKey[j] == WordIn(inKey, 4 * j);
      Loaded(key, eKey[..]);
    }
  }

  lemma Loaded(key: seq<Col>, e: seq<Col>)
    requires 4 <= |key| <= |e| && forall j :: 0 <= j < |key| ==> e[j] == key[j]
    ensures Expanded(key, e, |key|)
  {
  }

  lemma Kept(key: seq<Col>, e0: seq<Col>, e1: seq<Col>, n: nat)
    requires |key| > 0 && Expanded(key, e0, n) && n <= |e1| && forall j :: 0 <= j < n ==> e1[j] == e0[j]
    ensures Expanded(key, e1, n)
  {
    hide KeyWord;
  }

  lemma Fewer(key: seq<Col>, e: seq<Col>, n: nat, m: nat)
    requires |key| > 0 && Expanded(key, e, n) && m <= n
    ensures Expanded(key, e, m)
  {
    hide KeyWord;
  }

  lemma Untouched(d0: seq<Col>, d1: seq<Col>, kt: nat, i: nat, nr: nat)
    requires |d0| == |d1| == KS_LENGTH && kt == 4 * i && i <= nr && 4 * nr + 4 <= KS_LENGTH
    requires forall j :: 0 <= j < KS_LENGTH && !(kt <= j < kt + 4) ==> d1[j] == d0[j]
    ensures forall p :: i < p <= nr ==> KeyAt(d1, p) == KeyAt(d0, p)
  {
  }
}

/** What the round function of Blowfish is, by how it answers to changes in its tables, and
    what the network does apart from it. */
module BlowfishLaws {
  import opened Basics
  import opened Blowfish
  import opened BlowfishModes
  import opened Words
  import opened Bytes
  import N = Numbers

  // The places of the four entries that the bytes of a word name, highest byte first.
  function Place(x: Word, t: nat): (j: nat)
    requires t < 4
    ensures j < 4 * 256
  {
    256 * t + ByteAt(x, t) as nat
  }

  lemma PlacesApart(x: Word)
    ensures Place(x, 0) < 256 <= Place(x, 1) < 512 <= Place(x, 2) < 768 <= Place(x, 3)
  {
    hide ByteAt;
  }

  // F as the four entries make it up.
  lemma FromEntries(S: seq<Word>, x: Word)
    requires |S| == 4 * 256
    ensures F(S, x) == AddWord(XorWord(AddWord(S[Place(x, 0)], S[Place(x, 1)]), S[Place(x, 2)]), S[Place(x, 3)])
  {
    hide ByteAt, AddWord, XorWord;
  }

  lemma XorZero(a: Word)
    ensures XorWord(a, 0) == a && XorWord(0, a) == a && AddWord(a, 0) == a && AddWord(0, a) == a
  {
  }

  /** Tables of zeros give zero. */
  lemma OfZeros(S: seq<Word>, x: Word)
    requires |S| == 4 * 256 && forall j :: 0 <= j < |S| ==> S[j] == 0
    ensures F(S, x) == 0
  {
    hide F, Place, AddWord, XorWord;
    FromEntries(S, x);
    XorZero(0);
  }

  /** Only the entries that the four bytes name count. */
  lemma OnlyNamed(S: seq<Word>, x: Word, j: nat, w: Word)
    requires |S| == 4 * 256 && j < |S| && forall t: nat :: t < 4 ==> j != Place(x, t)
    ensures F(S[j := w], x) == F(S, x)
  {
    hide F, Place, AddWord, XorWord;
    FromEntries(S, x);
    FromEntries(S[j := w], x);
  }

  /** What is added to the entry of the fourth table is added to F. */
  lemma FourthAdds(S: seq<Word>, x: Word, d: Word)
    requires |S| == 4 * 256
    ensures var j := Place(x, 3); F(S[j := AddWord(S[j], d)], x) == AddWord(F(S, x), d)
  {
    hide F, Place, AddWord, XorWord;
    var j := Place(x, 3);
    PlacesApart(x);
    FromEntries(S, x);
    FromEntries(S[j := AddWord(S[j], d)], x);
    N.AddAssoc(XorWord(AddWord(S[Place(x, 0)], S[Place(x, 1)]), S[Place(x, 2)]), S[j], d);
  }

  /** Before that, what is added bit by bit to the entry of the third is added so to F. */
  lemma ThirdXors(S: seq<Word>, x: Word, d: Word)
    requires |S| == 4 * 256 && S[Place(x, 3)] == 0
    ensures var j := Place(x, 2); F(S[j := XorWord(S[j], d)], x) == XorWord(F(S, x), d)
  {
    hide F, Place, AddWord, XorWord;
    var j := Place(x, 2);
    PlacesApart(x);
    FromEntries(S, x);
    FromEntries(S[j := XorWord(S[j], d)], x);
    var s := AddWord(S[Place(x, 0)], S[Place(x, 1)]);
    XorWordAssoc(s, S[j], d);
    XorZero(XorWord(s, S[j]));
    XorZero(XorWord(s, XorWord(S[j], d)));
  }

  /** And before that, the entries of the first and the second are added. */
  lemma FirstAdds(S: seq<Word>, x: Word, d: Word, t: nat)
    requires |S| == 4 * 256 && t < 2 && S[Place(x, 2)] == 0 && S[Place(x, 3)] == 0
    ensures var j := Place(x, t); F(S[j := AddWord(S[j], d)], x) == AddWord(F(S, x), d)
  {
    hide F, Place, AddWord, XorWord;
    var j := Place(x, t);
    PlacesApart(x);
    var a, b := S[Place(x, 0)], S[Place(x, 1)];
    var s, s' := AddWord(a, b), if t == 0 then AddWord(AddWord(a, d), b) else AddWord(a, AddWord(b, d));
    FromEntries(S, x);
    FromEntries(S[j := AddWord(S[j], d)], x);
    XorZero(s);
    XorZero(s');
    N.AddAssoc(a, d, b);
    N.AddComm(d, b);
    N.AddAssoc(a, b, d);
  }

  // ---- the network when its round function is zero ----

  // Every second of the first n round keys, added bit by bit: the even ones or the odd.
  function Every(P: seq<Word>, odd: bool, n: nat): Word
    requires n <= |P|
  {
    if n == 0 then 0
    else if ((n - 1) % 2 == 1) == odd then XorWord(Every(P, odd, n - 1), P[n - 1])
    else Every(P, odd, n - 1)
  }

  lemma {:induction false} ZeroRounds(P: seq<Word>, S: seq<Word>, x: Pair, n: nat)
    requires n <= |P| && |S| == 4 * 256 && forall j :: 0 <= j < |S| ==> S[j] == 0
    ensures var l, r := XorWord(x.l, Every(P, false, n)), XorWord(x.r, Every(P, true, n));
            Rounds(P, S, x, n) == if n % 2 == 0 then Pair(l, r) else Pair(r, l)
  {
    hide F, XorWord;
    if n == 0 {
      XorZero(x.l);
      XorZero(x.r);
    } else {
      ZeroRounds(P, S, x, n - 1);
      var y := Rounds(P, S, x, n - 1);
      OfZeros(S, XorWord(y.l, P[n - 1]));
      XorZero(y.r);
      XorWordAssoc(if n % 2 == 1 then x.l else x.r, Every(P, n % 2 == 0, n - 1), P[n - 1]);
    }
  }

  /** With tables of zeros the cipher exchanges the halves and adds to the one that was left
      all even round keys, to the other all odd ones. */
  lemma ZeroTables(key: Key, x: Pair)
    requires key.Valid() && forall j :: 0 <= j < |key.S| ==> key.S[j] == 0
    ensures Encrypted(key, x) == Pair(XorWord(x.r, Every(key.P, true, ROUNDS + 2)), XorWord(x.l, Every(key.P, false, ROUNDS + 2)))
  {
    hide XorWord;
    ZeroRounds(key.P, key.S, x, ROUNDS);
    var e, o := Every(key.P, false, ROUNDS), Every(key.P, true, ROUNDS);
    assert Every(key.P, false, ROUNDS + 2) == XorWord(e, key.P[ROUNDS]);
    assert Every(key.P, true, ROUNDS + 2) == XorWord(o, key.P[ROUNDS + 1]);
    hide Rounds, Every;
    XorWordAssoc(x.l, e, key.P[ROUNDS]);
    XorWordAssoc(x.r, o, key.P[ROUNDS + 1]);
  }

  // ---- blocks of the modes ----

  /** A block is its eight bytes in order, the highest of each half first. */
  lemma BlockBytes(b: seq<Byte>, k: nat)
    requires |b| == 8 && k < 4
    ensures ByteAt(BlockOf(b).l, k) == b[k] && ByteAt(BlockOf(b).r, k) == b[4 + k]
    ensures BytesOf(BlockOf(b))[k] == b[k] && BytesOf(BlockOf(b))[4 + k] == b[4 + k]
  {
    hide ByteAt, WordOf;
    BytesOfWord(b[0], b[1], b[2], b[3]);
    BytesOfWord(b[4], b[5], b[6], b[7]);
  }

  /** Chaining adds the vector to the block bit by bit. */
  lemma ChainedBit(x: Pair, y: Pair, k: Word)
    requires k < 32
    ensures N.Bit(PXor(x, y).l, k) == (N.Bit(x.l, k) != N.Bit(y.l, k))
    ensures N.Bit(PXor(x, y).r, k) == (N.Bit(x.r, k) != N.Bit(y.r, k))
  {
    hide N.Bit, XorWord;
    N.XorBit(x.l, y.l, k);
    N.XorBit(x.r, y.r, k);
  }
}

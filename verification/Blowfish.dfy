/** The Blowfish block cipher of the security benchmark, proved equal to the published
    algorithm and undone by running it with the round keys reversed. */
module Blowfish {
  import opened Basics
  import opened Words

  // ---- the published algorithm ----

  const ROUNDS := 16

  // Key-dependent tables: the round keys and four tables of 256 words, one after the other.
  datatype Key = Key(P: seq<Word>, S: seq<Word>) {
    predicate Valid() { |P| == ROUNDS + 2 && |S| == 4 * 256 }
  }

  datatype Pair = Pair(l: Word, r: Word)

  function F(S: seq<Word>, x: Word): Word
    requires |S| == 4 * 256
  {
    AddWord(XorWord(AddWord(S[ByteAt(x, 0) as nat], S[256 + ByteAt(x, 1) as nat]), S[512 + ByteAt(x, 2) as nat]), S[768 + ByteAt(x, 3) as nat])
  }

  /** The halves after n rounds, exchanged after each. */
  function Rounds(P: seq<Word>, S: seq<Word>, x: Pair, n: nat): Pair
    requires n <= |P| && |S| == 4 * 256
  {
    if n == 0 then x
    else
      var y := Rounds(P, S, x, n - 1);
      var l := XorWord(y.l, P[n - 1]);
      Pair(XorWord(y.r, F(S, l)), l)
  }

  /** Sixteen rounds, the last exchange taken back, and the last two round keys added. */
  function Feistel(P: seq<Word>, S: seq<Word>, x: Pair): Pair
    requires |P| == ROUNDS + 2 && |S| == 4 * 256
  {
    var y := Rounds(P, S, x, ROUNDS);
    Pair(XorWord(y.r, P[ROUNDS + 1]), XorWord(y.l, P[ROUNDS]))
  }

  function Reversed(P: seq<Word>): (Q: seq<Word>)
    ensures |Q| == |P|
  {
    seq(|P|, i requires 0 <= i < |P| => P[|P| - 1 - i])
  }

  function Encrypted(key: Key, x: Pair): Pair
    requires key.Valid()
  {
    Feistel(key.P, key.S, x)
  }

  function Decrypted(key: Key, y: Pair): Pair
    requires key.Valid()
  {
    Feistel(Reversed(key.P), key.S, y)
  }

  // One round of the reversed run, from the state it must be in.
  lemma RoundBack(zl: Word, zr: Word, p0: Word, p1: Word, p2: Word, f: Word)
    ensures XorWord(XorWord(XorWord(zl, p1), p2), p2) == XorWord(zl, p1)
    ensures XorWord(XorWord(XorWord(zr, f), p0), f) == XorWord(zr, p0)
  {
    hide XorWord;
    XorWordTwice(XorWord(zl, p1), p2);
    XorWordAssoc(zr, f, p0);
    XorWordTwice(f, p0);
    XorWordAssoc(zr, p0, f);
    XorWordTwice(XorWord(zr, p0), f);
  }

  // After j rounds of the reversed run, the halves are those before the last j rounds,
  // exchanged and with the round keys in between added.
  lemma {:induction false} RunBack(P: seq<Word>, S: seq<Word>, x: Pair, j: nat)
    requires |P| == ROUNDS + 2 && |S| == 4 * 256 && j <= ROUNDS
    ensures var z := Rounds(P, S, x, ROUNDS - j);
            Rounds(Reversed(P), S, Feistel(P, S, x), j) == Pair(XorWord(z.r, P[ROUNDS + 1 - j]), XorWord(z.l, P[ROUNDS - j]))
  {
    hide XorWord, F;
    if j > 0 {
      RunBack(P, S, x, j - 1);
      var y := Rounds(P, S, x, ROUNDS - j);
      var l := XorWord(y.l, P[ROUNDS - j]);
      RoundBack(y.l, y.r, P[ROUNDS - j + 1], P[ROUNDS - j], P[ROUNDS - j + 2], F(S, l));
    }
  }

  /** Running with the round keys reversed undoes the cipher, whatever the tables hold. */
  lemma Undone(key: Key, x: Pair)
    requires key.Valid()
    ensures Decrypted(key, Encrypted(key, x)) == x
  {
    hide XorWord, F;
    RunBack(key.P, key.S, x, ROUNDS);
    XorWordTwice(x.l, key.P[0]);
    XorWordTwice(x.r, key.P[1]);
  }

  lemma ReversedAt(P: seq<Word>)
    ensures forall k :: 0 <= k < |P| ==> Reversed(P)[k] == P[|P| - 1 - k]
  {
  }

  lemma ReversedTwice(P: seq<Word>)
    ensures Reversed(Reversed(P)) == P
  {
  }

  lemma UndoneBack(key: Key, y: Pair)
    requires key.Valid()
    ensures Encrypted(key, Decrypted(key, y)) == y
  {
    ReversedTwice(key.P);
    Undone(Key(Reversed(key.P), key.S), y);
  }

  // ---- the unrolled code ----

  // The macro BF_ENC: the new value of its first argument.
  function Enc(ll: Word, r: Word, S: seq<Word>, p: Word): Word
    requires |S| == 4 * 256
  {
    XorWord(XorWord(ll, p), F(S, r))
  }

  // The variables of the code after its k-th line: the half just changed and the other.
  function Lines(P: seq<Word>, S: seq<Word>, x: Pair, k: nat): Pair
    requires k < |P| && |S| == 4 * 256
  {
    var z := Rounds(P, S, x, k);
    Pair(XorWord(z.l, P[k]), z.r)
  }

  // BF_ENC as the k-th of the code's lines.
  method BfEnc(ll: Word, r: Word, S: seq<Word>, p: Word, ghost P: seq<Word>, ghost x: Pair, ghost k: nat) returns (changed: Word)
    requires 0 < k < |P| && |S| == 4 * 256 && p == P[k] && Lines(P, S, x, k - 1) == Pair(r, ll)
    ensures Lines(P, S, x, k) == Pair(changed, r)
  {
    hide XorWord, F;
    changed := Enc(ll, r, S, p);
    ghost var z := Rounds(P, S, x, k - 1);
    ghost var f := F(S, XorWord(z.l, P[k - 1]));
    XorWordAssoc(z.r, f, P[k]);
    XorWordTwice(f, P[k]);
    XorWordAssoc(z.r, P[k], f);
  }

  /** The lines with the round keys in order. */
  method Forward(data: Pair, p: seq<Word>, S: seq<Word>) returns (l: Word, r: Word)
    requires |p| == ROUNDS + 2 && |S| == 4 * 256
    ensures Pair(r, l) == Feistel(p, S, data)
  {
    hide XorWord, F, Lines, Enc, Rounds, Feistel;
    ghost var x := data;
    FirstAndLast(p, S, x);
    l, r := XorWord(data.l, p[0]), data.r;
    r := BfEnc(r, l, S, p[1], p, x, 1);
    l := BfEnc(l, r, S, p[2], p, x, 2);
    r := BfEnc(r, l, S, p[3], p, x, 3);
    l := BfEnc(l, r, S, p[4], p, x, 4);
    r := BfEnc(r, l, S, p[5], p, x, 5);
    l := BfEnc(l, r, S, p[6], p, x, 6);
    r := BfEnc(r, l, S, p[7], p, x, 7);
    l := BfEnc(l, r, S, p[8], p, x, 8);
    r := BfEnc(r, l, S, p[9], p, x, 9);
    l := BfEnc(l, r, S, p[10], p, x, 10);
    r := BfEnc(r, l, S, p[11], p, x, 11);
    l := BfEnc(l, r, S, p[12], p, x, 12);
    r := BfEnc(r, l, S, p[13], p, x, 13);
    l := BfEnc(l, r, S, p[14], p, x, 14);
    r := BfEnc(r, l, S, p[15], p, x, 15);
    l := BfEnc(l, r, S, p[16], p, x, 16);
    r := XorWord(r, p[ROUNDS + 1]);
  }

  /** The lines with the round keys in reverse order. */
  method Backward(data: Pair, p: seq<Word>, S: seq<Word>) returns (l: Word, r: Word)
    requires |p| == ROUNDS + 2 && |S| == 4 * 256
    ensures Pair(r, l) == Feistel(Reversed(p), S, data)
  {
    hide XorWord, F, Lines, Enc, Rounds, Feistel, Reversed;
    ghost var x, q := data, Reversed(p);
    FirstAndLast(q, S, x);
    ReversedAt(p);
    l, r := XorWord(data.l, p[ROUNDS + 1]), data.r;
    r := BfEnc(r, l, S, p[16], q, x, 1);
    l := BfEnc(l, r, S, p[15], q, x, 2);
    r := BfEnc(r, l, S, p[14], q, x, 3);
    l := BfEnc(l, r, S, p[13], q, x, 4);
    r := BfEnc(r, l, S, p[12], q, x, 5);
    l := BfEnc(l, r, S, p[11], q, x, 6);
    r := BfEnc(r, l, S, p[10], q, x, 7);
    l := BfEnc(l, r, S, p[9], q, x, 8);
    r := BfEnc(r, l, S, p[8], q, x, 9);
    l := BfEnc(l, r, S, p[7], q, x, 10);
    r := BfEnc(r, l, S, p[6], q, x, 11);
    l := BfEnc(l, r, S, p[5], q, x, 12);
    r := BfEnc(r, l, S, p[4], q, x, 13);
    l := BfEnc(l, r, S, p[3], q, x, 14);
    r := BfEnc(r, l, S, p[2], q, x, 15);
    l := BfEnc(l, r, S, p[1], q, x, 16);
    r := XorWord(r, p[0]);
  }

  /** BF_encrypt: sixteen unrolled lines that change the two halves in turn, with the round
      keys in one order or the other. */
  method Encrypt(data: array<Word>, key: Key, encrypt: bool)
    requires data.Length == 2 && key.Valid()
    modifies data
    ensures Pair(data[0], data[1])
         == if encrypt then Encrypted(key, old(Pair(data[0], data[1]))) else Decrypted(key, old(Pair(data[0], data[1])))
  {
    hide Feistel;
    var l, r;
    if encrypt {
      l, r := Forward(Pair(data[0], data[1]), key.P, key.S);
    } else {
      l, r := Backward(Pair(data[0], data[1]), key.P, key.S);
    }
    data[1] := l;
    data[0] := r;
  }

  lemma FirstAndLast(P: seq<Word>, S: seq<Word>, x: Pair)
    requires |P| == ROUNDS + 2 && |S| == 4 * 256
    ensures Lines(P, S, x, 0) == Pair(XorWord(x.l, P[0]), x.r)
    ensures Feistel(P, S, x) == Pair(XorWord(Lines(P, S, x, ROUNDS).r, P[ROUNDS + 1]), Lines(P, S, x, ROUNDS).l)
  {
  }
}

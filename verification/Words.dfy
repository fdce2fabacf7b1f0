/** Words of 32 bits and their four bytes. */
module Words {
  import opened Basics
  import opened Bytes

  // Byte k of a word, the highest being byte 0.
  function ByteAt(w: Word, k: nat): Byte
    requires k < 4
  {
    if k == 0 then ((w >> 24) & 0xff) as Byte
    else if k == 1 then ((w >> 16) & 0xff) as Byte
    else if k == 2 then ((w >> 8) & 0xff) as Byte
    else (w & 0xff) as Byte
  }

  function WordOf(b0: Byte, b1: Byte, b2: Byte, b3: Byte): Word {
    ((b0 as Word) << 24) | ((b1 as Word) << 16) | ((b2 as Word) << 8) | (b3 as Word)
  }

  lemma XorWordTwice(a: Word, b: Word)
    ensures XorWord(XorWord(a, b), b) == a && XorWord(a, b) == XorWord(b, a)
  {
  }

  lemma XorWordAssoc(a: Word, b: Word, c: Word)
    ensures XorWord(XorWord(a, b), c) == XorWord(a, XorWord(b, c))
  {
    assert XorWord(a, b) == a ^ b && XorWord(b, c) == b ^ c;
    assert XorWord(a ^ b, c) == a ^ b ^ c && XorWord(a, b ^ c) == a ^ b ^ c;
  }

  lemma BytesOfWord(b0: Byte, b1: Byte, b2: Byte, b3: Byte)
    ensures var w := WordOf(b0, b1, b2, b3);
            ByteAt(w, 0) == b0 && ByteAt(w, 1) == b1 && ByteAt(w, 2) == b2 && ByteAt(w, 3) == b3
  {
  }

  lemma WordOfBytes(w: Word)
    ensures WordOf(ByteAt(w, 0), ByteAt(w, 1), ByteAt(w, 2), ByteAt(w, 3)) == w
  {
  }
}

/** The bytes of a word by its bits, the highest byte first. */
module WordLaws {
  import opened Basics
  import opened Bytes
  import opened Numbers
  import opened Words

  lemma ByteBits(w: Word, k: nat, j: Word)
    requires k < 4 && j < 8
    ensures Bit(ByteAt(w, k) as Word, j) == Bit(w, (if k == 0 then 24 else if k == 1 then 16 else if k == 2 then 8 else 0) + j)
  {
  }

  lemma WordBits(b0: Byte, b1: Byte, b2: Byte, b3: Byte, j: Word)
    requires j < 8
    ensures var w := WordOf(b0, b1, b2, b3);
            && Bit(w, j) == Bit(b3 as Word, j) && Bit(w, 8 + j) == Bit(b2 as Word, j)
            && Bit(w, 16 + j) == Bit(b1 as Word, j) && Bit(w, 24 + j) == Bit(b0 as Word, j)
  {
  }
}

/** The bits of a key and of a masked key, counted from the top. */
module PatriciaLaws {
  import opened Patricia
  import opened PatriciaMasks

  lemma FirstBit(key: Key)
    ensures Bit(0, key) <==> key >= 0x8000_0000
  {
  }

  lemma Moved(key: Key, p: Key)
    requires p & 0x8000_0000 == 0
    ensures key & p != 0 <==> (key << 1) & (p << 1) != 0
  {
  }

  function Place(i: int): Key
    requires 0 <= i < 32
  {
    1 << (31 - i)
  }

  lemma UpperPlaces(i: int)
    requires 0 <= i < 16
    ensures Place(i) == Place(i + 1) << 1 && Place(i + 1) & 0x8000_0000 == 0
  {
  }

  lemma LowerPlaces(i: int)
    requires 16 <= i < 31
    ensures Place(i) == Place(i + 1) << 1 && Place(i + 1) & 0x8000_0000 == 0
  {
  }

  /** The bit behind bit i is bit i of the key moved up by one. */
  lemma NextBit(i: int, key: Key)
    requires 0 <= i < 31
    ensures Bit(i + 1, key) == Bit(i, key << 1)
  {
    if i < 16 { UpperPlaces(i); } else { LowerPlaces(i); }
    Moved(key, Place(i + 1));
  }

  lemma FirstMasked(key: Key, mask: Key)
    ensures Bit(0, Masked(key, mask)) == (Bit(0, key) && Bit(0, mask))
  {
  }

  lemma MaskedMoves(key: Key, mask: Key)
    ensures Masked(key, mask) << 1 == Masked(key << 1, mask << 1)
  {
  }

  /** A mask keeps the bits it has. */
  lemma {:induction false} MaskedBit(i: int, key: Key, mask: Key)
    requires 0 <= i < 32
    ensures Bit(i, Masked(key, mask)) == (Bit(i, key) && Bit(i, mask))
    decreases i
  {
    hide Bit, Masked;
    if i == 0 {
      FirstMasked(key, mask);
    } else {
      NextBit(i - 1, key);
      NextBit(i - 1, mask);
      NextBit(i - 1, Masked(key, mask));
      MaskedMoves(key, mask);
      MaskedBit(i - 1, key << 1, mask << 1);
    }
  }
}

/** Words and their arithmetic, and optional values. */
module Basics {
  type Word = bv32

  const XLEN_MOD := 0x1_0000_0000
  const INSTRUCTION_SIZE := 4

  function AddWord(a: Word, b: Word): Word { a + b }
  function SubWord(a: Word, b: Word): Word { a - b }
  function AndWord(a: Word, b: Word): Word { a & b }
  function OrWord(a: Word, b: Word): Word { a | b }
  function XorWord(a: Word, b: Word): Word { a ^ b }

  predicate UnsignedLess(a: Word, b: Word) {
    a < b
  }

  function ShiftLeft(a: Word, n: Word): Word
    requires n < 32
  {
    a << n
  }

  function ShiftRight(a: Word, n: Word): Word
    requires n < 32
  {
    a >> n
  }

  function Doubled(w: Word, odd: bool): Word {
    (w << 1) | (if odd then 1 else 0)
  }

  // The word whose bits are the lowest of a number.
  function ToWord(n: nat): Word {
    if n == 0 then 0 else Doubled(ToWord(n / 2), n % 2 == 1)
  }

  datatype Option<+T> = None | Some(value: T)
}

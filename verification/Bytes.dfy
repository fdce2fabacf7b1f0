/** Bytes, their exclusive or, runs of zeros, and messages in pieces. */
module Bytes {
  type Byte = bv8

  // So many zeros.
  function Zeros(n: nat): (z: seq<Byte>)
    ensures |z| == n && forall j :: 0 <= j < n ==> z[j] == 0
  {
    seq(n, i => 0)
  }

  function Joined(pieces: seq<seq<Byte>>): seq<Byte> {
    if pieces == [] then [] else pieces[0] + Joined(pieces[1..])
  }

  function Xor(a: Byte, b: Byte): Byte { a ^ b }

  lemma Cancel(a: Byte, b: Byte)
    ensures Xor(Xor(a, b), b) == a && Xor(a, a) == 0
  {
  }

  lemma Zero(a: Byte)
    ensures Xor(a, 0) == a && Xor(0, a) == a
  {
  }

  lemma Comm(a: Byte, b: Byte)
    ensures Xor(a, b) == Xor(b, a)
  {
  }

  lemma Assoc(a: Byte, b: Byte, c: Byte)
    ensures Xor(Xor(a, b), c) == Xor(a, Xor(b, c))
  {
    assert Xor(a, b) == a ^ b && Xor(b, c) == b ^ c;
    assert Xor(a ^ b, c) == a ^ b ^ c && Xor(a, b ^ c) == a ^ b ^ c;
  }
}

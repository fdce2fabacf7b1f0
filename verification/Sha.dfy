/** The SHA digest of the security benchmark: blocks compressed as they arrive, and the
    padding of section 5.1.1 of FIPS 180-4 at the end. The message schedule has no
    rotation, as in the first version of the standard. */
module Sha {
  import opened Basics
  import opened Bytes
  import opened Words
  import opened Files

  // ---- the digest of a message ----

  datatype Hash = Hash(a: Word, b: Word, c: Word, d: Word, e: Word)

  const INIT := Hash(0x67452301, 0xefcdab89, 0x98badcfe, 0x10325476, 0xc3d2e1f0)

  function Rot32(x: Word, n: Word): Word
    requires 0 < n < 32
  {
    (x << n) | (x >> (32 - n))
  }

  function F1(x: Word, y: Word, z: Word): Word { (x & y) | (!x & z) }
  function F2(x: Word, y: Word, z: Word): Word { x ^ y ^ z }
  function F3(x: Word, y: Word, z: Word): Word { (x & y) | (x & z) | (y & z) }

  // The function and the constant of each quarter of the eighty rounds.
  function Func(i: nat, x: Word, y: Word, z: Word): Word {
    if i < 20 then F1(x, y, z) else if i < 40 then F2(x, y, z) else if i < 60 then F3(x, y, z) else F2(x, y, z)
  }

  function Const(i: nat): Word {
    if i < 20 then 0x5a827999 else if i < 40 then 0x6ed9eba1 else if i < 60 then 0x8f1bbcdc else 0xca62c1d6
  }

  /** The message schedule: sixteen words of the block and combinations of earlier ones. */
  function Sched(m: seq<Word>, i: nat): Word
    requires |m| == 16
  {
    if i < 16 then m[i]
    else XorWord(XorWord(XorWord(Sched(m, i - 3), Sched(m, i - 8)), Sched(m, i - 14)), Sched(m, i - 16))
  }

  function Round(x: Hash, i: nat, w: Word): Hash {
    Hash(AddWord(AddWord(AddWord(AddWord(Rot32(x.a, 5), Func(i, x.b, x.c, x.d)), x.e), w), Const(i)), x.a, Rot32(x.b, 30), x.c, x.d)
  }

  function Rounds(x: Hash, m: seq<Word>, n: nat): Hash
    requires |m| == 16
  {
    if n == 0 then x else Round(Rounds(x, m, n - 1), n - 1, Sched(m, n - 1))
  }

  function Compress(x: Hash, m: seq<Word>): Hash
    requires |m| == 16
  {
    var y := Rounds(x, m, 80);
    Hash(AddWord(x.a, y.a), AddWord(x.b, y.b), AddWord(x.c, y.c), AddWord(x.d, y.d), AddWord(x.e, y.e))
  }

  function BeWords(b: seq<Byte>): (m: seq<Word>)
    requires |b| == 64
    ensures |m| == 16
  {
    seq(16, i requires 0 <= i < 16 => WordOf(b[4 * i], b[4 * i + 1], b[4 * i + 2], b[4 * i + 3]))
  }

  // The words of the buffer as a little-endian machine reads them.
  function LeWords(b: seq<Byte>): (m: seq<Word>)
    requires |b| == 64
    ensures |m| == 16
  {
    seq(16, i requires 0 <= i < 16 => WordOf(b[4 * i + 3], b[4 * i + 2], b[4 * i + 1], b[4 * i]))
  }

  predicate Whole(n: nat) { n % 64 == 0 }

  /** All blocks of a message compressed, one after the other. */
  function Digest(m: seq<Byte>): Hash
    requires Whole(|m|)
  {
    if |m| < 64 then INIT
    else
      WholeLess(|m|);
      Compress(Digest(m[..|m| - 64]), BeWords(m[|m| - 64..]))
  }

  lemma WholeLess(n: nat)
    requires Whole(n) && n >= 64
    ensures Whole(n - 64)
  {
  }

  lemma DigestNext(m: seq<Byte>, b: seq<Byte>)
    requires Whole(|m|) && |b| == 64
    ensures Whole(|m + b|) && Digest(m + b) == Compress(Digest(m), BeWords(b))
  {
    hide Compress, BeWords;
    assert (m + b)[..|m|] == m && (m + b)[|m|..] == b;
  }

  // ---- padding ----

  const WORD := 0x1_0000_0000

  function AsWord(n: nat): Word
    requires n < WORD
  {
    ToWord(n)
  }

  function Low(bits: nat): (n: nat)
    ensures n < WORD
  {
    bits % WORD
  }

  function High(bits: nat): (n: nat)
    ensures n < WORD
  {
    bits / WORD % WORD
  }

  function BeBytes(w: Word): (b: seq<Byte>)
    ensures |b| == 4
  {
    [ByteAt(w, 0), ByteAt(w, 1), ByteAt(w, 2), ByteAt(w, 3)]
  }

  // The number of bits of a message, modulo 2 to the 64th, highest byte first.
  function LengthBytes(bits: nat): (b: seq<Byte>)
    ensures |b| == 8
  {
    BeBytes(AsWord(High(bits))) + BeBytes(AsWord(Low(bits)))
  }

  // Bytes of a message after its last whole block.
  function Rest(n: nat): (r: nat)
    ensures r < 64 && r <= n && Whole(n - r)
  {
    n % 64
  }

  lemma RestIs(n: nat, c: nat)
    requires Whole(n) && c < 64
    ensures Rest(n + c) == c
  {
  }

  /** Bytes, a one bit, zeros, and the length `n`, up to a whole number of blocks. */
  function PaddedAs(m: seq<Byte>, n: nat): (p: seq<Byte>)
    ensures Whole(|p|)
  {
    var r := Rest(|m|);
    WholeSum(|m| - r);
    m + [0x80] + Zeros(if r < 56 then 55 - r else 119 - r) + LengthBytes(8 * n)
  }

  /** The padding of a message, with its own length. */
  function Padded(m: seq<Byte>): (p: seq<Byte>)
    ensures Whole(|p|)
  {
    PaddedAs(m, |m|)
  }

  /** What is hashed for a message is its padding if and only if no byte of it is lost: the
      blocks compressed and the bytes kept make up the message. */
  lemma PaddedExactly(done: seq<Byte>, tail: seq<Byte>, m: seq<Byte>)
    requires Whole(|done|) && |tail| == Rest(|m|)
    ensures PaddedAs(done + tail, |m|) == Padded(m) <==> done + tail == m
  {
    hide Whole, Rest, LengthBytes;
    RestIs(|done|, |tail|);
    var p, q := PaddedAs(done + tail, |m|), Padded(m);
    if p == q {
      assert |p| - |done + tail| == |q| - |m|;
      assert p[..|m|] == done + tail && q[..|m|] == m;
    }
  }

  lemma WholeSum(n: nat)
    requires Whole(n)
    ensures Whole(n + 64) && Whole(n + 128)
  {
  }

  // ---- the context ----

  ghost function Held(d: array<Word>): Hash
    requires d.Length == 5
    reads d
  {
    Hash(d[0], d[1], d[2], d[3], d[4])
  }

  // The words W[0..n] are those of the schedule.
  ghost predicate Scheduled(w: seq<Word>, m: seq<Word>, n: nat)
    requires |m| == 16
  {
    n <= |w| && forall j :: 0 <= j < n ==> w[j] == Sched(m, j)
  }

  // Where the byte that is swapped into place j of its word comes from.
  function Mirror(j: nat): (k: nat)
    ensures j < 64 ==> k < 64
  {
    j + 3 - 2 * (j % 4)
  }

  lemma MirrorOf(i: nat)
    ensures Mirror(4 * i) == 4 * i + 3 && Mirror(4 * i + 1) == 4 * i + 2
    ensures Mirror(4 * i + 2) == 4 * i + 1 && Mirror(4 * i + 3) == 4 * i
  {
  }

  ghost predicate Mirrored(a: seq<Byte>, b: seq<Byte>) {
    |a| == 64 && |b| == 64 && forall j :: 0 <= j < 64 ==> a[j] == b[Mirror(j)]
  }

  lemma LeOfMirror(a: seq<Byte>, b: seq<Byte>)
    requires Mirrored(a, b)
    ensures LeWords(a) == BeWords(b)
  {
    hide WordOf, Mirror;
    forall i | 0 <= i < 16
      ensures LeWords(a)[i] == BeWords(b)[i]
    {
      MirrorOf(i);
    }
  }

  // ---- the state over several calls ----

  /** The blocks compressed, the block kept, and all bytes given. */
  datatype State = State(done: seq<Byte>, data: seq<Byte>, msg: seq<Byte>)

  function Swapped(b: seq<Byte>): (a: seq<Byte>)
    requires |b| == 64
    ensures Mirrored(a, b)
  {
    seq(64, j requires 0 <= j < 64 => b[Mirror(j)])
  }

  lemma IsSwapped(a: seq<Byte>, b: seq<Byte>)
    requires Mirrored(a, b)
    ensures |b| == 64 && a == Swapped(b)
  {
    hide Mirror;
  }

  // Bytes of n that make up whole blocks.
  function Front(n: nat): (i: nat)
    ensures i <= n < i + 64 && Whole(i) && (i == 0 || i >= 64)
  {
    n - Rest(n)
  }

  /** The block kept after a call: the bytes behind the last whole block of the buffer, over
      that block with its bytes mirrored, or over what was there. */
  function Kept(data: seq<Byte>, b: seq<Byte>): (d: seq<Byte>)
    requires |data| == 64
    ensures |d| == 64
  {
    var i := Front(|b|);
    b[i..] + (if i == 0 then data else Swapped(b[i - 64..i]))[|b| - i..]
  }

  function After(s: State, b: seq<Byte>): (t: State)
    requires |s.data| == 64
    ensures |t.data| == 64
  {
    State(s.done + b[..Front(|b|)], Kept(s.data, b), s.msg + b)
  }

  /** One call for each chunk. */
  function Fed(s: State, chunks: seq<seq<Byte>>): (t: State)
    requires |s.data| == 64
    ensures |t.data| == 64
    decreases |chunks|
  {
    if chunks == [] then s else Fed(After(s, chunks[0]), chunks[1..])
  }

  /** The state from which all calls start; the block kept holds anything. */
  function Fresh(data: seq<Byte>): State { State([], data, []) }

  /** The blocks compressed and the bytes kept make up the message. */
  predicate InStep(s: State)
    requires |s.data| == 64
  {
    s.done + s.data[..Rest(|s.msg|)] == s.msg
  }

  /** What is hashed in the end. */
  function Hashed(s: State): seq<Byte>
    requires |s.data| == 64
  {
    PaddedAs(s.done + s.data[..Rest(|s.msg|)], |s.msg|)
  }

  lemma {:induction false} FedMessage(s: State, chunks: seq<seq<Byte>>)
    requires |s.data| == 64 && Whole(|s.done|)
    ensures Fed(s, chunks).msg == s.msg + Joined(chunks) && Whole(|Fed(s, chunks).done|)
    decreases |chunks|
  {
    hide Whole, Kept;
    if chunks == [] {
      assert s.msg + [] == s.msg;
    } else {
      WholeAdds(|s.done|, Front(|chunks[0]|));
      FedMessage(After(s, chunks[0]), chunks[1..]);
      assert s.msg + chunks[0] + Joined(chunks[1..]) == s.msg + (chunks[0] + Joined(chunks[1..]));
    }
  }

  lemma WholeAdds(n: nat, m: nat)
    requires Whole(n)
    ensures Whole(n + m) <==> Whole(m)
  {
  }

  // ---- which lengths keep the state in step ----

  function Lengths(chunks: seq<seq<Byte>>): (l: seq<nat>)
    ensures |l| == |chunks| && forall k :: 0 <= k < |l| ==> l[k] == |chunks[k]|
  {
    seq(|chunks|, k requires 0 <= k < |chunks| => |chunks[k]|)
  }

  /** Every length is a number of whole blocks, but for the last one that is not zero. */
  ghost predicate WholeButLast(l: seq<nat>) {
    forall i, j :: 0 <= i < j < |l| && l[j] > 0 ==> Whole(l[i])
  }

  ghost predicate SomeLeft(l: seq<nat>) { exists j :: 0 <= j < |l| && l[j] > 0 }

  lemma WholeButLastRest(l: seq<nat>)
    requires l != []
    ensures WholeButLast(l) <==> WholeButLast(l[1..]) && (SomeLeft(l[1..]) ==> Whole(l[0]))
    ensures SomeLeft(l) <==> l[0] > 0 || SomeLeft(l[1..])
  {
    hide Whole;
    if WholeButLast(l[1..]) && (SomeLeft(l[1..]) ==> Whole(l[0])) {
      forall i, j | 0 <= i < j < |l| && l[j] > 0
        ensures Whole(l[i])
      {
        assert l[1..][j - 1] > 0;
        if i > 0 { assert Whole(l[1..][i - 1]); }
      }
    }
    if WholeButLast(l) {
      forall i, j | 0 <= i < j < |l[1..]| && l[1..][j] > 0
        ensures Whole(l[1..][i])
      {
        assert l[j + 1] > 0 && Whole(l[i + 1]);
      }
    }
    if SomeLeft(l) {
      var j :| 0 <= j < |l| && l[j] > 0;
      if j > 0 { assert l[1..][j - 1] > 0; }
    }
  }

  lemma LengthsRest(chunks: seq<seq<Byte>>)
    requires chunks != []
    ensures Lengths(chunks)[1..] == Lengths(chunks[1..])
  {
  }

  // A call without bytes changes nothing.
  lemma AfterNothing(s: State)
    requires |s.data| == 64
    ensures After(s, []) == s
  {
    assert s.done + [] == s.done && s.msg + [] == s.msg && [] + s.data[0..] == s.data;
  }

  // A call when no bytes are left over.
  lemma AfterWhole(s: State, b: seq<Byte>)
    requires |s.data| == 64 && InStep(s) && Whole(|s.msg|)
    ensures InStep(After(s, b)) && (Whole(|After(s, b).msg|) <==> Whole(|b|))
  {
    hide Whole, Swapped;
    RestIs(|s.msg|, 0);
    assert s.done + [] == s.done;
    var i := Front(|b|);
    WholeAdds(|s.msg|, |b|);
    WholeAdds(|s.msg|, i);
    RestIs(|s.msg| + i, |b| - i);
    assert b[..i] + b[i..] == b;
    assert s.done + b[..i] + b[i..] == s.done + b;
  }

  /** Whole blocks in every call but the last keep the state in step. */
  lemma {:induction false} StaysInStep(s: State, chunks: seq<seq<Byte>>)
    requires |s.data| == 64 && InStep(s) && WholeButLast(Lengths(chunks)) && (SomeLeft(Lengths(chunks)) ==> Whole(|s.msg|))
    ensures InStep(Fed(s, chunks))
    decreases |chunks|
  {
    hide Whole, InStep, WholeButLast, SomeLeft, After;
    if chunks != [] {
      LengthsRest(chunks);
      WholeButLastRest(Lengths(chunks));
      if chunks[0] == [] { AfterNothing(s); } else { AfterWhole(s, chunks[0]); }
      StaysInStep(After(s, chunks[0]), chunks[1..]);
    }
  }

  function Ones(n: nat): (b: seq<Byte>)
    ensures |b| == n && forall j :: 0 <= j < n ==> b[j] == 1
  {
    seq(n, i => 1)
  }

  function ZeroChunks(l: seq<nat>): (chunks: seq<seq<Byte>>)
    ensures |chunks| == |l| && Lengths(chunks) == l
  {
    seq(|l|, k requires 0 <= k < |l| => Zeros(l[k]))
  }

  // The byte given at place `at` was a one, and a zero has gone over it.
  ghost predicate Lost(s: State, at: nat)
    requires |s.data| == 64
  {
    && at < |s.msg| && s.msg[at] == 1
    && if |s.done| > at then s.done[at] == 0 else |s.done| == at && s.data[0] == 0
  }

  lemma LostNotInStep(s: State, at: nat)
    requires |s.data| == 64 && Lost(s, at)
    ensures !InStep(s)
  {
    hide Rest;
  }

  // The bytes kept by a call that does not end a block start with a one.
  ghost predicate OneKept(s: State, at: nat)
    requires |s.data| == 64
  {
    |s.done| == at < |s.msg| && s.msg[at] == 1
  }

  lemma ZerosLose(s: State, at: nat, n: nat)
    requires |s.data| == 64 && (Lost(s, at) || (OneKept(s, at) && n > 0))
    ensures Lost(After(s, Zeros(n)), at)
  {
    hide Whole, Swapped, Rest;
    var b, i := Zeros(n), Front(n);
    if n == 0 {
      assert b == [];
      AfterNothing(s);
    } else if i == 0 {
      assert Kept(s.data, b)[0] == b[i..][0];
    }
  }

  lemma ZerosKeep(s: State)
    requires |s.data| == 64
    ensures After(s, Zeros(0)) == s
  {
    assert Zeros(0) == [];
    AfterNothing(s);
  }

  lemma {:induction false} AllLost(s: State, at: nat, l: seq<nat>)
    requires |s.data| == 64 && (Lost(s, at) || (OneKept(s, at) && SomeLeft(l)))
    ensures Lost(Fed(s, ZeroChunks(l)), at)
    decreases |l|
  {
    hide Lost, OneKept, After, WholeButLast, Whole;
    if l != [] {
      WholeButLastRest(l);
      assert ZeroChunks(l)[0] == Zeros(l[0]) && ZeroChunks(l)[1..] == ZeroChunks(l[1..]);
      if Lost(s, at) || l[0] > 0 {
        ZerosLose(s, at, l[0]);
      } else {
        ZerosKeep(s);
      }
      AllLost(After(s, Zeros(l[0])), at, l[1..]);
    }
  }

  lemma OnesKept(s: State, n: nat)
    requires |s.data| == 64 && InStep(s) && Whole(|s.msg|) && !Whole(n)
    ensures OneKept(After(s, Ones(n)), |s.msg| + Front(n))
  {
    hide Swapped, Kept;
    RestIs(|s.msg|, 0);
    assert s.done + [] == s.done;
    assert Rest(n) > 0;
  }

  /** Other lengths lose bytes of some message: ones in the call that does not end a block,
      zeros in all others. */
  lemma {:induction false} FallsOut(s: State, l: seq<nat>) returns (chunks: seq<seq<Byte>>)
    requires |s.data| == 64 && InStep(s) && Whole(|s.msg|) && !WholeButLast(l)
    ensures Lengths(chunks) == l && !InStep(Fed(s, chunks))
    decreases |l|
  {
    hide Whole, InStep, WholeButLast, SomeLeft, After, Lost, OneKept;
    WholeButLastEmpty();
    WholeButLastRest(l);
    if Whole(l[0]) {
      AfterWhole(s, Zeros(l[0]));
      var rest := FallsOut(After(s, Zeros(l[0])), l[1..]);
      chunks := [Zeros(l[0])] + rest;
      assert chunks[1..] == rest;
    } else {
      var rest := ZeroChunks(l[1..]);
      chunks := [Ones(l[0])] + rest;
      assert chunks[1..] == rest;
      if !SomeLeft(l[1..]) { NoneLeft(l[1..]); }
      OnesKept(s, l[0]);
      AllLost(After(s, Ones(l[0])), |s.msg| + Front(l[0]), l[1..]);
      LostNotInStep(Fed(s, chunks), |s.msg| + Front(l[0]));
    }
    assert Lengths(chunks) == [l[0]] + l[1..] by {
      LengthsRest(chunks);
    }
  }

  lemma WholeButLastEmpty()
    ensures WholeButLast([])
  {
  }

  lemma NoneLeft(l: seq<nat>)
    requires !SomeLeft(l)
    ensures WholeButLast(l)
  {
  }

  lemma FreshInStep(data: seq<Byte>)
    requires |data| == 64
    ensures InStep(Fresh(data)) && Whole(|Fresh(data).msg|) && Whole(|Fresh(data).done|)
  {
    RestIs(0, 0);
  }

  lemma HashedIs(s: State, tail: seq<Byte>)
    requires |s.data| == 64 && tail == s.data[..Rest(|s.msg|)]
    ensures Hashed(s) == PaddedAs(s.done + tail, |s.msg|)
  {
  }

  lemma HashedInStep(s: State)
    requires |s.data| == 64 && InStep(s)
    ensures Hashed(s) == Padded(s.msg)
  {
  }

  lemma HashedExactly(data: seq<Byte>, chunks: seq<seq<Byte>>)
    requires |data| == 64
    ensures var s := Fed(Fresh(data), chunks); Hashed(s) == Padded(Joined(chunks)) <==> InStep(s)
  {
    hide Whole, Fed, Rest, PaddedAs;
    var s := Fed(Fresh(data), chunks);
    FreshInStep(data);
    FedMessage(Fresh(data), chunks);
    assert [] + Joined(chunks) == Joined(chunks);
    PaddedExactly(s.done, s.data[..Rest(|s.msg|)], s.msg);
  }

  lemma FedOn(s: State, chunks: seq<seq<Byte>>)
    requires |s.data| == 64
    ensures Fed(s, chunks) == if chunks == [] then s else Fed(After(s, chunks[0]), chunks[1..])
  {
  }

  lemma CallsHash(data: seq<Byte>, chunks: seq<seq<Byte>>)
    requires |data| == 64
    ensures |Fresh(data).data| == 64
    ensures WholeButLast(Lengths(chunks)) ==> Hashed(Fed(Fresh(data), chunks)) == Padded(Joined(chunks))
  {
    hide Whole, Hashed, Padded, InStep, WholeButLast, Fed;
    FreshInStep(data);
    HashedExactly(data, chunks);
    if WholeButLast(Lengths(chunks)) { StaysInStep(Fresh(data), chunks); }
  }

  /** Calls of given lengths hash every message they can bring if and only if every length
      but the last one that is not zero is a number of whole blocks. */
  lemma RightExactlyWhen(data: seq<Byte>, l: seq<nat>)
    requires |data| == 64
    ensures (forall chunks :: Lengths(chunks) == l ==> Hashed(Fed(Fresh(data), chunks)) == Padded(Joined(chunks))) <==> WholeButLast(l)
  {
    hide Whole, Hashed, Padded, InStep, WholeButLast, SomeLeft, Fed;
    FreshInStep(data);
    if WholeButLast(l) {
      forall chunks | Lengths(chunks) == l
        ensures Hashed(Fed(Fresh(data), chunks)) == Padded(Joined(chunks))
      {
        CallsHash(data, chunks);
      }
    } else {
      var chunks := FallsOut(Fresh(data), l);
      HashedExactly(data, chunks);
    }
  }

  /** Two calls with one byte each lose the first. */
  lemma TwoBytes(data: seq<Byte>)
    requires |data| == 64
    ensures var s := Fed(Fresh(data), [[1], [0]]); s.msg == [1, 0] && s.done == [] && s.data[0] == 0 && !InStep(s)
  {
    hide Swapped, Rest;
    FreshInStep(data);
    RestIs(0, 1);
    var s1 := After(Fresh(data), [1]);
    OnesKept(Fresh(data), 1);
    assert Ones(1) == [1] && Zeros(1) == [0] && Front(1) == 0;
    ZerosLose(s1, 0, 1);
    var s := After(s1, [0]);
    LostNotInStep(s, 0);
    var chunks: seq<seq<Byte>> := [[1], [0]];
    assert chunks[1..] == [[0]] && chunks[1..][1..] == [];
    assert Fed(s, []) == s && Fed(s1, chunks[1..]) == Fed(s, []);
  }

  lemma CountUp(n: nat, c: nat)
    ensures var (lo, add) := (Low(8 * n), 8 * c % WORD);
            var lo' := (lo + add) % WORD;
            Low(8 * (n + c)) == lo' && High(8 * (n + c)) == (High(8 * n) + (if lo' < lo then 1 else 0) + c / 0x2000_0000) % WORD
  {
    var q, h := 8 * n / WORD, c / 0x2000_0000;
    var lo, add := 8 * n % WORD, 8 * c % WORD;
    Parts(8 * c, h, 8 * (c % 0x2000_0000));
    var carry := if lo + add >= WORD then 1 else 0;
    Parts(lo + add, carry, lo + add - carry * WORD);
    Parts(8 * (n + c), q + h + carry, lo + add - carry * WORD);
    ModOut(q, carry + h);
  }

  lemma Parts(x: nat, q: nat, r: nat)
    requires x == q * WORD + r && r < WORD
    ensures x / WORD == q && x % WORD == r
  {
  }

  lemma ModOut(q: nat, k: nat)
    ensures (q % WORD + k) % WORD == (q + k) % WORD
  {
    var d := q / WORD;
    assert q == d * WORD + q % WORD;
    var e := (q % WORD + k) / WORD;
    Parts(q + k, d + e, (q % WORD + k) % WORD);
  }

  lemma ModTwice(hi: nat, c: nat)
    ensures ((hi + 1) % WORD + c) % WORD == (hi + 1 + c) % WORD
  {
    assert hi + 1 == (hi + 1) / WORD * WORD + (hi + 1) % WORD;
  }

  lemma CountRest(n: nat)
    ensures Low(8 * n) / 8 % 64 == Rest(n)
  {
    var q := 8 * n / WORD;
    var m := n - 0x2000_0000 * q;
    assert Low(8 * n) == 8 * m;
    assert n == m + 64 * (0x80_0000 * q);
    SameRest(m, 0x80_0000 * q);
  }

  lemma SameRest(m: nat, k: nat)
    ensures (m + 64 * k) % 64 == m % 64
  {
  }

  class Info {
    const digest: array<Word>
    const data: array<Byte>
    var countLo: nat
    var countHi: nat
    ghost var msg: seq<Byte>
    ghost var done: seq<Byte>

    /** The count is that of all bytes given so far, the digest that of the blocks compressed. */
    ghost predicate Valid()
      reads this, digest, data
    {
      && digest.Length == 5 && data.Length == 64
      && countLo == Low(8 * |msg|) && countHi == High(8 * |msg|)
      && Whole(|done|) && Held(digest) == Digest(done)
    }

    ghost function Now(): State
      reads this, data
    {
      State(done, data[..], msg)
    }

    constructor ()
      ensures digest.Length == 5 && data.Length == 64 && fresh(digest) && fresh(data)
    {
      digest := new Word[5];
      data := new Byte[64];
    }

    /** sha_init. */
    method Init()
      requires digest.Length == 5 && data.Length == 64
      modifies this, digest
      ensures Valid() && Now() == Fresh(old(data[..])) && msg == []
    {
      digest[0], digest[1], digest[2], digest[3], digest[4] := INIT.a, INIT.b, INIT.c, INIT.d, INIT.e;
      countLo, countHi, msg, done := 0, 0, [], [];
    }

    // byte_reverse, over the whole buffer.
    method ByteReverse()
      requires data.Length == 64
      modifies data
      ensures Mirrored(data[..], old(data[..]))
    {
      hide Mirror;
      ghost var was := data[..];
      var i := 0;
      while i < 16
        invariant 0 <= i <= 16
        invariant forall j :: 0 <= j < 4 * i ==> data[j] == was[Mirror(j)]
        invariant forall j :: 4 * i <= j < 64 ==> data[j] == was[j]
      {
        MirrorOf(i);
        var ct0, ct1, ct2, ct3 := data[4 * i], data[4 * i + 1], data[4 * i + 2], data[4 * i + 3];
        data[4 * i] := ct3;
        data[4 * i + 1] := ct2;
        data[4 * i + 2] := ct1;
        data[4 * i + 3] := ct0;
        i := i + 1;
      }
    }

    // One block: copied in, reversed in place, and compressed.
    method TransformBlock(ghost m: seq<Byte>, ghost b: seq<Byte>)
      requires digest.Length == 5 && data.Length == 64 && |b| == 64 && b == data[..]
      requires Whole(|m|) && Held(digest) == Digest(m)
      modifies data, digest
      ensures Whole(|m + b|) && Held(digest) == Digest(m + b) && Mirrored(data[..], b)
    {
      hide Digest, Held, Compress, LeWords, BeWords, Whole;
      ByteReverse();
      ghost var r := data[..];
      LeOfMirror(r, b);
      Transform();
      DigestNext(m, b);
    }

    // sha_transform, on the words of the buffer.
    method Transform()
      requires digest.Length == 5 && data.Length == 64
      modifies digest
      ensures Held(digest) == Compress(old(Held(digest)), LeWords(data[..]))
    {
      hide LeWords, XorWord, Rounds, Sched, AddWord, Scheduled;
      ghost var m, h := LeWords(data[..]), Held(digest);
      var w := Schedule();
      var x := Work(w, Hash(digest[0], digest[1], digest[2], digest[3], digest[4]), m);
      digest[0] := AddWord(digest[0], x.a);
      digest[1] := AddWord(digest[1], x.b);
      digest[2] := AddWord(digest[2], x.c);
      digest[3] := AddWord(digest[3], x.d);
      digest[4] := AddWord(digest[4], x.e);
    }

    method Schedule() returns (w: array<Word>)
      requires data.Length == 64
      ensures fresh(w) && w.Length == 80 && Scheduled(w[..], LeWords(data[..]), 80)
    {
      hide XorWord;
      w := new Word[80];
      ghost var m := LeWords(data[..]);
      var i := 0;
      while i < 16
        invariant 0 <= i <= 16 && Scheduled(w[..], m, i)
      {
        w[i] := WordOf(data[4 * i + 3], data[4 * i + 2], data[4 * i + 1], data[4 * i]);
        i := i + 1;
      }
      while i < 80
        invariant 16 <= i <= 80 && Scheduled(w[..], m, i)
      {
        w[i] := XorWord(XorWord(XorWord(w[i - 3], w[i - 8]), w[i - 14]), w[i - 16]);
        i := i + 1;
      }
    }

    // The bit count, with the carry seen by the low word getting smaller.
    method AddCount(count: nat)
      requires countLo == Low(8 * |msg|) && countHi == High(8 * |msg|)
      modifies `countLo, `countHi
      ensures countLo == Low(8 * (|msg| + count)) && countHi == High(8 * (|msg| + count))
    {
      hide Low, High;
      CountUp(|msg|, count);
      ModTwice(countHi, count / 0x2000_0000);
      if (countLo + 8 * count % WORD) % WORD < countLo {
        countHi := (countHi + 1) % WORD;
      }
      countLo := (countLo + 8 * count % WORD) % WORD;
      countHi := (countHi + count / 0x2000_0000) % WORD;
    }

    // The loop of sha_update.
    method Blocks(buffer: seq<Byte>) returns (i: nat)
      requires digest.Length == 5 && data.Length == 64 && Whole(|done|) && Held(digest) == Digest(done)
      modifies digest, data
      ensures i <= |buffer| < i + 64 && Whole(i) && (i == 0 || i >= 64)
      ensures Whole(|done| + i) && Held(digest) == Digest(done + buffer[..i])
      ensures if i == 0 then data[..] == old(data[..]) else Mirrored(data[..], buffer[i - 64..i])
    {
      hide Digest, Held, Whole, Mirrored;
      var count := |buffer|;
      i := 0;
      assert done + buffer[..0] == done;
      WholeBuffer(0);
      while count >= 64
        invariant 0 <= i <= |buffer| && count == |buffer| - i && Whole(i) && Whole(|done| + i) && (i == 0 || i >= 64)
        invariant Held(digest) == Digest(done + buffer[..i])
        invariant if i == 0 then data[..] == old(data[..]) else Mirrored(data[..], buffer[i - 64..i])
      {
        forall j | 0 <= j < 64 { data[j] := buffer[i + j]; }
        assert data[..] == buffer[i..i + 64];
        TransformBlock(done + buffer[..i], buffer[i..i + 64]);
        assert done + buffer[..i] + buffer[i..i + 64] == done + buffer[..i + 64];
        WholeSum(i);
        i := i + 64;
        count := count - 64;
      }
    }

    /** sha_update: every whole block of the buffer is compressed and what is left over is
        put at the start of the block kept, over what an earlier call left there. */
    method Update(buffer: seq<Byte>)
      requires Valid() && |buffer| < 0x8000_0000
      modifies this, digest, data
      ensures Valid() && Now() == After(old(Now()), buffer)
    {
      hide Digest, Held, Whole, Low, High, Rest, Mirrored, Swapped;
      AddCount(|buffer|);
      var i := Blocks(buffer);
      RestIs(i, |buffer| - i);
      if i > 0 { IsSwapped(data[..], buffer[i - 64..i]); }
      ghost var block := data[..];
      forall j | 0 <= j < |buffer| - i { data[j] := buffer[i + j]; }
      assert data[..] == buffer[i..] + block[|buffer| - i..];
      done, msg := done + buffer[..i], msg + buffer;
    }

    // A word of the buffer, stored as a little-endian machine stores it.
    method SetWord(i: nat, w: Word)
      requires data.Length == 64 && i < 16
      modifies data
      ensures data[4 * i] == ByteAt(w, 3) && data[4 * i + 1] == ByteAt(w, 2)
      ensures data[4 * i + 2] == ByteAt(w, 1) && data[4 * i + 3] == ByteAt(w, 0)
      ensures forall j :: 0 <= j < 64 && !(4 * i <= j < 4 * i + 4) ==> data[j] == old(data[j])
    {
      data[4 * i], data[4 * i + 1], data[4 * i + 2], data[4 * i + 3] := ByteAt(w, 3), ByteAt(w, 2), ByteAt(w, 1), ByteAt(w, 0);
    }

    method Clear(from: nat, to: nat)
      requires data.Length == 64 && from <= to <= 64
      modifies data
      ensures forall j :: 0 <= j < 64 ==> data[j] == if from <= j < to then 0 else old(data[j])
    {
      forall j | from <= j < to { data[j] := 0; }
    }

    // The buffer reversed, and the length put into its last two words.
    method EndWith(hi: Word, lo: Word)
      requires data.Length == 64
      modifies data
      ensures LeWords(data[..]) == BeWords(old(data[..56]) + BeBytes(hi) + BeBytes(lo))
    {
      hide LeWords, BeWords, Mirrored, ByteAt, BeBytes, EndsIn;
      ghost var d := data[..];
      ByteReverse();
      ghost var r := data[..];
      SetWord(14, hi);
      SetWord(15, lo);
      Ends(d, hi, lo);
      LastMirrored(data[..], r, d, hi, lo, d[..56] + BeBytes(hi) + BeBytes(lo));
      LeOfMirror(data[..], d[..56] + BeBytes(hi) + BeBytes(lo));
    }

    // The last block: what is in the buffer up to byte 56, and the length.
    method LastBlock(ghost m: seq<Byte>, hi: Word, lo: Word)
      requires digest.Length == 5 && data.Length == 64 && Whole(|m|) && Held(digest) == Digest(m)
      modifies data, digest
      ensures var b := old(data[..56]) + BeBytes(hi) + BeBytes(lo);
              Whole(|m + b|) && Held(digest) == Digest(m + b)
    {
      hide Digest, Held, Compress, LeWords, BeWords, Whole, BeBytes;
      ghost var b := data[..56] + BeBytes(hi) + BeBytes(lo);
      EndWith(hi, lo);
      Transform();
      DigestNext(m, b);
    }

    // The bytes kept, marked at their end, before the padding is filled in.
    ghost predicate Marked(tail: seq<Byte>)
      reads this, digest, data
    {
      && digest.Length == 5 && data.Length == 64 && Whole(|done|) && Held(digest) == Digest(done)
      && |tail| == Rest(|msg|) && data[..|tail|] == tail && data[|tail|] == 0x80
    }

    // The length does not fit behind the bytes kept.
    method LongEnd(count: nat, hiBits: nat, loBits: nat, ghost tail: seq<Byte>)
      requires Marked(tail) && count == |tail| + 1 > 56 && hiBits == High(8 * |msg|) && loBits == Low(8 * |msg|)
      modifies digest, data
      ensures digest.Length == 5 && Held(digest) == Digest(PaddedAs(done + tail, |msg|))
    {
      hide Digest, Held, Whole, Low, High, Rest, AsWord, PaddedAs, Mirrored;
      Clear(count, 64);
      ghost var b := data[..];
      assert b[..|tail|] == tail;
      TransformBlock(done, b);
      Clear(0, 56);
      ghost var z := data[..56];
      LastBlock(done + b, AsWord(hiBits), AsWord(loBits));
      PaddedLong(done, tail, |msg|, b, z);
    }

    method ShortEnd(count: nat, hiBits: nat, loBits: nat, ghost tail: seq<Byte>)
      requires Marked(tail) && count == |tail| + 1 <= 56 && hiBits == High(8 * |msg|) && loBits == Low(8 * |msg|)
      modifies digest, data
      ensures digest.Length == 5 && Held(digest) == Digest(PaddedAs(done + tail, |msg|))
    {
      hide Digest, Held, Whole, Low, High, Rest, AsWord, PaddedAs, Mirrored;
      Clear(count, 56);
      ghost var b := data[..56];
      assert b[..|tail|] == tail;
      LastBlock(done, AsWord(hiBits), AsWord(loBits));
      PaddedShort(done, tail, |msg|, b);
    }

    /** sha_final: the digest of the blocks compressed and the bytes kept, padded with the
        length of the message. */
    method Final()
      requires Valid()
      modifies this, digest, data
      ensures digest.Length == 5 && Held(digest) == Digest(Hashed(old(Now())))
    {
      hide Digest, Held, Whole, Low, High, Rest, AsWord, PaddedAs, Hashed;
      var hiBits, loBits := countHi, countLo;
      CountRest(|msg|);
      var count := loBits / 8 % 64;
      ghost var tail := data[..count];
      HashedIs(Now(), tail);
      data[count] := 0x80;
      count := count + 1;
      if count > 56 {
        LongEnd(count, hiBits, loBits, tail);
      } else {
        ShortEnd(count, hiBits, loBits, tail);
      }
    }

    /** A message in any number of calls: the digest of the message when every call but the
        last one with bytes brings whole blocks. */
    method Calls(chunks: seq<seq<Byte>>)
      requires digest.Length == 5 && data.Length == 64 && forall k :: 0 <= k < |chunks| ==> |chunks[k]| < 0x8000_0000
      modifies this, digest, data
      ensures Held(digest) == Digest(Hashed(Fed(Fresh(old(data[..])), chunks)))
      ensures WholeButLast(Lengths(chunks)) ==> Held(digest) == Digest(Padded(Joined(chunks)))
    {
      hide Digest, Held, Whole, Padded, Valid, InStep, Hashed, Fresh, Fed, After, WholeButLast;
      ghost var s := Fresh(data[..]);
      FreshInStep(data[..]);
      CallsHash(data[..], chunks);
      Init();
      assert chunks[0..] == chunks;
      for k := 0 to |chunks|
        invariant Valid() && data.Length == 64 && |s.data| == 64 && Fed(Now(), chunks[k..]) == Fed(s, chunks)
      {
        FedOn(Now(), chunks[k..]);
        assert chunks[k..][1..] == chunks[k + 1..];
        Update(chunks[k]);
      }
      FedOn(Now(), chunks[|chunks|..]);
      Final();
    }

    // The bytes of the file before the chunk in the buffer have been taken in.
    ghost predicate Reading(fin: InFile, buffer: array<Byte>, i: nat, from: nat)
      reads this, digest, data, fin, buffer
    {
      && data.Length == 64 && Valid() && InStep(Now()) && buffer.Length == 8192 && from <= fin.pos - i <= fin.pos <= |fin.data| && i <= 8192
      && msg == fin.data[from..fin.pos - i] && buffer[..i] == fin.data[fin.pos - i..fin.pos]
      && (i > 0 ==> Whole(|msg|)) && (i < 8192 ==> fin.pos == |fin.data|)
    }

    // The next chunk, after all of the file up to its place has been taken in.
    method ReadChunk(fin: InFile, buffer: array<Byte>, ghost from: nat) returns (j: nat)
      requires buffer != data && buffer.Length == 8192 && data.Length == 64 && Valid() && InStep(Now()) && from <= fin.pos <= |fin.data|
      requires msg == fin.data[from..fin.pos] && (Whole(|msg|) || fin.pos == |fin.data|)
      modifies fin, buffer
      ensures Reading(fin, buffer, j, from) && fin.pos - j == old(fin.pos)
    {
      hide Digest, Held, Whole, Rest, Valid, InStep;
      j := fin.Read(buffer, 0, 8192);
      assert buffer[..j] == fin.data[old(fin.pos)..fin.pos];
    }

    method Chunk(fin: InFile, buffer: array<Byte>, i: nat, ghost from: nat) returns (j: nat)
      requires buffer != data && i > 0 && Reading(fin, buffer, i, from)
      modifies this, digest, data, fin, buffer
      ensures Reading(fin, buffer, j, from) && |fin.data| - fin.pos + j == |fin.data| - old(fin.pos)
    {
      hide Digest, Held, Whole, Rest, Valid, InStep, Kept, Front;
      WholeBuffer(|msg|);
      Extends(fin.data, from, fin.pos - i, fin.pos);
      AfterWhole(Now(), buffer[..i]);
      Update(buffer[..i]);
      assert msg == fin.data[from..fin.pos];
      j := ReadChunk(fin, buffer, from);
    }

    /** sha_stream: the digest of what is left of the file, read 8192 bytes at a time. */
    method Stream(fin: InFile)
      requires digest.Length == 5 && data.Length == 64 && fin.pos <= |fin.data|
      modifies this, digest, data, fin
      ensures Held(digest) == Digest(Padded(fin.data[old(fin.pos)..]))
    {
      hide Digest, Held, Whole, Padded, Valid, InStep, Hashed, Fresh;
      ghost var from := fin.pos;
      var buffer := new Byte[8192];
      FreshInStep(data[..]);
      Init();
      WholeBuffer(0);
      var i := ReadChunk(fin, buffer, from);
      while i > 0
        invariant Reading(fin, buffer, i, from)
        decreases |fin.data| - fin.pos + i
      {
        i := Chunk(fin, buffer, i, from);
      }
      assert msg == fin.data[from..];
      HashedInStep(Now());
      Final();
    }
  }

  lemma Extends(d: seq<Byte>, a: nat, b: nat, c: nat)
    requires a <= b <= c <= |d|
    ensures d[a..b] + d[b..c] == d[a..c]
  {
  }

  lemma WholeBuffer(n: nat)
    ensures Whole(0) && (Whole(n) ==> Whole(n + 8192))
  {
  }

  /** The two words of the count are the number of bits, modulo 2 to the 64th. */
  lemma CountIsLength(n: nat)
    ensures High(8 * n) * WORD + Low(8 * n) == 8 * n % (WORD * WORD)
  {
    var q, lo := 8 * n / WORD, 8 * n % WORD;
    var d, hi := q / WORD, q % WORD;
    assert 8 * n == (d * WORD + hi) * WORD + lo;
    Unique(8 * n, d, hi * WORD + lo);
  }

  lemma Unique(x: nat, d: nat, r: nat)
    requires x == d * (WORD * WORD) + r && r < WORD * WORD
    ensures x % (WORD * WORD) == r
  {
  }

  lemma PaddedLong(done: seq<Byte>, tail: seq<Byte>, n: nat, b: seq<Byte>, z: seq<Byte>)
    requires Whole(|done|) && |tail| == Rest(n) && 56 <= |tail| && |b| == 64 && |z| == 56
    requires b[..|tail|] == tail && b[|tail|] == 0x80 && forall j :: |tail| < j < 64 ==> b[j] == 0
    requires forall j :: 0 <= j < 56 ==> z[j] == 0
    ensures done + b + (z + BeBytes(AsWord(High(8 * n))) + BeBytes(AsWord(Low(8 * n)))) == PaddedAs(done + tail, n)
  {
    hide AsWord, Low, High, BeBytes, Whole, Rest;
    var r := |tail|;
    RestIs(|done|, r);
    assert b == tail + [0x80] + Zeros(63 - r);
    assert z == Zeros(56);
    assert Zeros(63 - r) + Zeros(56) == Zeros(119 - r);
  }

  lemma PaddedShort(done: seq<Byte>, tail: seq<Byte>, n: nat, b: seq<Byte>)
    requires Whole(|done|) && |tail| == Rest(n) && |tail| < 56 && |b| == 56
    requires b[..|tail|] == tail && b[|tail|] == 0x80 && forall j :: |tail| < j < 56 ==> b[j] == 0
    ensures done + (b + BeBytes(AsWord(High(8 * n))) + BeBytes(AsWord(Low(8 * n)))) == PaddedAs(done + tail, n)
  {
    hide AsWord, Low, High, BeBytes, Whole, Rest;
    RestIs(|done|, |tail|);
    assert b == tail + [0x80] + Zeros(55 - |tail|);
  }

  // Facts about a block that ends in two words, and about its mirror image.
  ghost predicate EndsIn(b: seq<Byte>, d: seq<Byte>, hi: Word, lo: Word) {
    && |b| == 64 && |d| == 64 && (forall j :: 0 <= j < 56 ==> b[j] == d[j])
    && b[56] == ByteAt(hi, 0) && b[57] == ByteAt(hi, 1) && b[58] == ByteAt(hi, 2) && b[59] == ByteAt(hi, 3)
    && b[60] == ByteAt(lo, 0) && b[61] == ByteAt(lo, 1) && b[62] == ByteAt(lo, 2) && b[63] == ByteAt(lo, 3)
  }

  // The same two words as a little-endian machine stores them.
  ghost predicate EndsInLe(a: seq<Byte>, d: seq<Byte>, hi: Word, lo: Word) {
    && |a| == 64 && |d| == 64 && a[..56] == d[..56]
    && a[56] == ByteAt(hi, 3) && a[57] == ByteAt(hi, 2) && a[58] == ByteAt(hi, 1) && a[59] == ByteAt(hi, 0)
    && a[60] == ByteAt(lo, 3) && a[61] == ByteAt(lo, 2) && a[62] == ByteAt(lo, 1) && a[63] == ByteAt(lo, 0)
  }

  lemma Ends(d: seq<Byte>, hi: Word, lo: Word)
    requires |d| == 64
    ensures EndsIn(d[..56] + BeBytes(hi) + BeBytes(lo), d, hi, lo)
  {
    hide ByteAt;
  }

  lemma LastMirrored(a: seq<Byte>, r: seq<Byte>, d: seq<Byte>, hi: Word, lo: Word, b: seq<Byte>)
    requires EndsIn(b, d, hi, lo) && EndsInLe(a, r, hi, lo) && Mirrored(r, d)
    ensures Mirrored(a, b)
  {
    hide Mirror, ByteAt;
    MirrorLow();
    MirrorOf(14);
    MirrorOf(15);
    forall j | 0 <= j < 64
      ensures a[j] == b[Mirror(j)]
    {
      if j < 56 {
        assert a[j] == a[..56][j] == r[j];
      } else {
        assert j == 56 || j == 57 || j == 58 || j == 59 || j == 60 || j == 61 || j == 62 || j == 63;
      }
    }
  }

  lemma MirrorLow()
    ensures forall j :: 0 <= j < 56 ==> 0 <= Mirror(j) < 56
  {
  }

  // The macro FUNC: the five working variables after one round.
  method FuncStep(x: Hash, i: nat, w: Word, f: Word, k: Word, ghost h: Hash, ghost m: seq<Word>) returns (y: Hash)
    requires |m| == 16 && x == Rounds(h, m, i) && w == Sched(m, i) && f == Func(i, x.b, x.c, x.d) && k == Const(i)
    ensures y == Rounds(h, m, i + 1)
  {
    hide AddWord, Rot32, Func, Const, Sched;
    var temp := AddWord(AddWord(AddWord(AddWord(Rot32(x.a, 5), f), x.e), w), k);
    y := Hash(temp, x.a, Rot32(x.b, 30), x.c, x.d);
  }

  // The eighty rounds, twenty to a loop.
  method Work(w: array<Word>, h: Hash, ghost m: seq<Word>) returns (x: Hash)
    requires w.Length == 80 && |m| == 16 && Scheduled(w[..], m, 80)
    ensures x == Rounds(h, m, 80)
  {
    hide Rounds, Sched, F1, F2, F3;
    x := h;
    RoundsFrom(h, m);
    var i := 0;
    while i < 20
      invariant 0 <= i <= 20 && x == Rounds(h, m, i)
    {
      x := FuncStep(x, i, w[i], F1(x.b, x.c, x.d), 0x5a827999, h, m);
      i := i + 1;
    }
    while i < 40
      invariant 20 <= i <= 40 && x == Rounds(h, m, i)
    {
      x := FuncStep(x, i, w[i], F2(x.b, x.c, x.d), 0x6ed9eba1, h, m);
      i := i + 1;
    }
    while i < 60
      invariant 40 <= i <= 60 && x == Rounds(h, m, i)
    {
      x := FuncStep(x, i, w[i], F3(x.b, x.c, x.d), 0x8f1bbcdc, h, m);
      i := i + 1;
    }
    while i < 80
      invariant 60 <= i <= 80 && x == Rounds(h, m, i)
    {
      x := FuncStep(x, i, w[i], F2(x.b, x.c, x.d), 0xca62c1d6, h, m);
      i := i + 1;
    }
  }

  lemma RoundsFrom(h: Hash, m: seq<Word>)
    requires |m| == 16
    ensures Rounds(h, m, 0) == h
  {
  }
}

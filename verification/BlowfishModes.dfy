/** The chaining modes of the Blowfish benchmark over blocks of eight bytes: CBC with a
    short last block, and the two stream modes that carry their place in a block from one
    call to the next. */
module BlowfishModes {
  import opened Basics
  import opened Bytes
  import opened Blowfish
  import opened Words

  // ---- blocks (the macros n2l, l2n, n2ln and l2nn) ----

  function BlockOf(b: seq<Byte>): Pair
    requires |b| == 8
  {
    Pair(WordOf(b[0], b[1], b[2], b[3]), WordOf(b[4], b[5], b[6], b[7]))
  }

  function BytesOf(x: Pair): (b: seq<Byte>)
    ensures |b| == 8
  {
    [ByteAt(x.l, 0), ByteAt(x.l, 1), ByteAt(x.l, 2), ByteAt(x.l, 3), ByteAt(x.r, 0), ByteAt(x.r, 1), ByteAt(x.r, 2), ByteAt(x.r, 3)]
  }

  lemma BytesOfBlock(b: seq<Byte>)
    requires |b| == 8
    ensures BytesOf(BlockOf(b)) == b
  {
    hide WordOf, ByteAt;
    BytesOfWord(b[0], b[1], b[2], b[3]);
    BytesOfWord(b[4], b[5], b[6], b[7]);
  }

  lemma BlockOfBytes(x: Pair)
    ensures BlockOf(BytesOf(x)) == x
  {
    hide WordOf, ByteAt;
    WordOfBytes(x.l);
    WordOfBytes(x.r);
  }

  // The first n bytes, the others taken as zero.
  function Filled(b: seq<Byte>): (f: seq<Byte>)
    requires |b| <= 8
    ensures |f| == 8
  {
    b + seq(8 - |b|, i => 0)
  }

  function PXor(x: Pair, y: Pair): Pair { Pair(XorWord(x.l, y.l), XorWord(x.r, y.r)) }

  lemma PXorTwice(x: Pair, y: Pair)
    ensures PXor(PXor(x, y), y) == x
  {
    hide XorWord;
    XorWordTwice(x.l, y.l);
    XorWordTwice(x.r, y.r);
  }

  // ---- CBC ----

  datatype Cbc = Cbc(out: seq<Byte>, iv: Pair)

  predicate Whole(n: nat) { n % 8 == 0 }

  function Min(a: nat, b: nat): nat { if a < b then a else b }

  /** Whole blocks out, the last one filled up, and the vector for the next call. */
  function CbcEncrypted(key: Key, iv: Pair, data: seq<Byte>): (c: Cbc)
    requires key.Valid()
    decreases |data|
  {
    if data == [] then Cbc([], iv)
    else
      var n := Min(8, |data|);
      var y := Encrypted(key, PXor(BlockOf(Filled(data[..n])), iv));
      var rest := CbcEncrypted(key, y, data[n..]);
      Cbc(BytesOf(y) + rest.out, rest.iv)
  }

  /** As many bytes out as the length says, from blocks that are whole. */
  function CbcDecrypted(key: Key, iv: Pair, data: seq<Byte>, length: nat): (c: Cbc)
    requires key.Valid() && length <= |data| && Whole(|data|)
    decreases length
  {
    if length == 0 then Cbc([], iv)
    else
      var n := Min(8, length);
      var y := BlockOf(data[..8]);
      var rest := CbcDecrypted(key, y, data[8..], length - n);
      Cbc(BytesOf(PXor(Decrypted(key, y), iv))[..n] + rest.out, rest.iv)
  }

  lemma {:induction false} CbcLength(key: Key, iv: Pair, data: seq<Byte>)
    requires key.Valid()
    ensures var c := CbcEncrypted(key, iv, data).out; Whole(|c|) && |data| <= |c| < |data| + 8
    decreases |data|
  {
    hide Encrypted, PXor, BytesOf, BlockOf, Filled;
    if data != [] {
      var n := Min(8, |data|);
      CbcLength(key, Encrypted(key, PXor(BlockOf(Filled(data[..n])), iv)), data[n..]);
    }
  }

  /** Decrypting with the original length gives the message back, whatever its length, and
      leaves the same vector for the next call. */
  lemma {:induction false} CbcRoundTrip(key: Key, iv: Pair, data: seq<Byte>)
    requires key.Valid()
    ensures var c := CbcEncrypted(key, iv, data);
            |data| <= |c.out| && Whole(|c.out|) && CbcDecrypted(key, iv, c.out, |data|) == Cbc(data, c.iv)
    decreases |data|
  {
    hide Encrypted, Decrypted, PXor, BytesOf, BlockOf;
    CbcLength(key, iv, data);
    if data != [] {
      var n := Min(8, |data|);
      var x := BlockOf(Filled(data[..n]));
      var y := Encrypted(key, PXor(x, iv));
      var rest := CbcEncrypted(key, y, data[n..]);
      CbcRoundTrip(key, y, data[n..]);
      var c := BytesOf(y) + rest.out;
      assert c[..8] == BytesOf(y) && c[8..] == rest.out;
      BlockOfBytes(y);
      Undone(key, PXor(x, iv));
      PXorTwice(x, iv);
      BytesOfBlock(Filled(data[..n]));
      assert Filled(data[..n])[..n] == data[..n];
      assert data == data[..n] + data[n..];
    }
  }

  // ---- the stream modes ----

  // The feedback register and the number of its bytes already used.
  datatype Stream = Stream(out: seq<Byte>, iv: seq<Byte>, n: nat)

  function Refreshed(key: Key, iv: seq<Byte>, n: nat): (k: seq<Byte>)
    requires key.Valid() && |iv| == 8
    ensures |k| == 8
  {
    if n == 0 then BytesOf(Encrypted(key, BlockOf(iv))) else iv
  }

  /** Cipher feedback: each cipher byte replaces the register byte it was made with. */
  function CfbEncrypted(key: Key, iv: seq<Byte>, n: nat, data: seq<Byte>): (c: Stream)
    requires key.Valid() && |iv| == 8 && n < 8
    ensures |c.out| == |data| && |c.iv| == 8 && c.n < 8
    decreases |data|
  {
    if data == [] then Stream([], iv, n)
    else
      var k := Refreshed(key, iv, n);
      var c := Xor(data[0], k[n]);
      var rest := CfbEncrypted(key, k[n := c], (n + 1) % 8, data[1..]);
      Stream([c] + rest.out, rest.iv, rest.n)
  }

  function CfbDecrypted(key: Key, iv: seq<Byte>, n: nat, data: seq<Byte>): (c: Stream)
    requires key.Valid() && |iv| == 8 && n < 8
    ensures |c.out| == |data| && |c.iv| == 8 && c.n < 8
    decreases |data|
  {
    if data == [] then Stream([], iv, n)
    else
      var k := Refreshed(key, iv, n);
      var rest := CfbDecrypted(key, k[n := data[0]], (n + 1) % 8, data[1..]);
      Stream([Xor(k[n], data[0])] + rest.out, rest.iv, rest.n)
  }

  /** Output feedback: the register runs on by itself. */
  function OfbEncrypted(key: Key, iv: seq<Byte>, n: nat, data: seq<Byte>): (c: Stream)
    requires key.Valid() && |iv| == 8 && n < 8
    ensures |c.out| == |data| && |c.iv| == 8 && c.n < 8
    decreases |data|
  {
    if data == [] then Stream([], iv, n)
    else
      var k := Refreshed(key, iv, n);
      var rest := OfbEncrypted(key, k, (n + 1) % 8, data[1..]);
      Stream([Xor(data[0], k[n])] + rest.out, rest.iv, rest.n)
  }

  /** The decrypting side follows the encrypting side byte for byte. */
  lemma {:induction false} CfbRoundTrip(key: Key, iv: seq<Byte>, n: nat, data: seq<Byte>)
    requires key.Valid() && |iv| == 8 && n < 8
    ensures var c := CfbEncrypted(key, iv, n, data);
            CfbDecrypted(key, iv, n, c.out) == Stream(data, c.iv, c.n)
    decreases |data|
  {
    hide Refreshed, Xor;
    if data != [] {
      var k := Refreshed(key, iv, n);
      var c := Xor(data[0], k[n]);
      CfbRoundTrip(key, k[n := c], (n + 1) % 8, data[1..]);
      Cancel(data[0], k[n]);
      Comm(k[n], c);
    }
  }

  lemma {:induction false} OfbRoundTrip(key: Key, iv: seq<Byte>, n: nat, data: seq<Byte>)
    requires key.Valid() && |iv| == 8 && n < 8
    ensures var c := OfbEncrypted(key, iv, n, data);
            OfbEncrypted(key, iv, n, c.out) == Stream(data, c.iv, c.n)
    decreases |data|
  {
    hide Refreshed, Xor;
    if data != [] {
      var k := Refreshed(key, iv, n);
      OfbRoundTrip(key, k, (n + 1) % 8, data[1..]);
      Cancel(data[0], k[n]);
    }
  }

  datatype Mode = CfbOut | CfbIn | Ofb

  function Run(mode: Mode, key: Key, iv: seq<Byte>, n: nat, data: seq<Byte>): (c: Stream)
    requires key.Valid() && |iv| == 8 && n < 8
    ensures |c.out| == |data| && |c.iv| == 8 && c.n < 8
  {
    match mode
    case CfbOut => CfbEncrypted(key, iv, n, data)
    case CfbIn => CfbDecrypted(key, iv, n, data)
    case Ofb => OfbEncrypted(key, iv, n, data)
  }

  // The register after one byte.
  function Next(mode: Mode, k: seq<Byte>, n: nat, d: Byte): (iv: seq<Byte>)
    requires |k| == 8 && n < 8
    ensures |iv| == 8
  {
    match mode
    case CfbOut => k[n := Xor(d, k[n])]
    case CfbIn => k[n := d]
    case Ofb => k
  }

  lemma {:induction false} Cut(mode: Mode, key: Key, iv: seq<Byte>, n: nat, a: seq<Byte>, b: seq<Byte>)
    requires key.Valid() && |iv| == 8 && n < 8
    ensures var c := Run(mode, key, iv, n, a);
            var d := Run(mode, key, c.iv, c.n, b);
            Run(mode, key, iv, n, a + b) == Stream(c.out + d.out, d.iv, d.n)
    decreases |a|
  {
    hide Refreshed, Xor;
    if a == [] {
      assert a + b == b;
    } else {
      var k := Refreshed(key, iv, n);
      Cut(mode, key, Next(mode, k, n, a[0]), (n + 1) % 8, a[1..], b);
      assert (a + b)[1..] == a[1..] + b;
    }
  }

  // One call per piece, the register and the count handed on.
  function Calls(mode: Mode, key: Key, iv: seq<Byte>, n: nat, pieces: seq<seq<Byte>>): (c: Stream)
    requires key.Valid() && |iv| == 8 && n < 8
    decreases |pieces|
  {
    if pieces == [] then Stream([], iv, n)
    else
      var c := Run(mode, key, iv, n, pieces[0]);
      var rest := Calls(mode, key, c.iv, c.n, pieces[1..]);
      Stream(c.out + rest.out, rest.iv, rest.n)
  }

  /** However a message is cut into calls, the bytes, the register and the count come out as
      from one call. */
  lemma {:induction false} AnyCutting(mode: Mode, key: Key, iv: seq<Byte>, n: nat, pieces: seq<seq<Byte>>)
    requires key.Valid() && |iv| == 8 && n < 8
    ensures Calls(mode, key, iv, n, pieces) == Run(mode, key, iv, n, Joined(pieces))
    decreases |pieces|
  {
    hide Refreshed, Run;
    if pieces == [] {
      RunNothing(mode, key, iv, n);
    } else {
      var c := Run(mode, key, iv, n, pieces[0]);
      AnyCutting(mode, key, c.iv, c.n, pieces[1..]);
      Cut(mode, key, iv, n, pieces[0], Joined(pieces[1..]));
    }
  }

  lemma RunNothing(mode: Mode, key: Key, iv: seq<Byte>, n: nat)
    requires key.Valid() && |iv| == 8 && n < 8
    ensures Run(mode, key, iv, n, []) == Stream([], iv, n)
  {
  }

  // ---- what the stream modes are, block by block ----

  function XorBytes(a: seq<Byte>, b: seq<Byte>): (c: seq<Byte>)
    requires |a| == |b|
    ensures |c| == |a|
  {
    seq(|a|, i requires 0 <= i < |a| => Xor(a[i], b[i]))
  }

  lemma XorCons(a: seq<Byte>, b: seq<Byte>)
    requires |a| == |b| > 0
    ensures XorBytes(a, b) == [Xor(a[0], b[0])] + XorBytes(a[1..], b[1..])
  {
    hide Xor;
  }

  lemma Spliced(k: seq<Byte>, n: nat, m: nat, c: Byte, rest: seq<Byte>)
    requires n < m <= |k|
    ensures k[n := c][n + 1..m] == k[n..m][1..]
    ensures k[n := c][..n + 1] + rest + k[n := c][m..] == k[..n] + ([c] + rest) + k[m..]
  {
  }

  lemma CfbStep(key: Key, k: seq<Byte>, n: nat, data: seq<Byte>)
    requires key.Valid() && |k| == 8 && 0 < n < 8 && data != []
    ensures var c := Xor(data[0], k[n]);
            var rest := CfbEncrypted(key, k[n := c], (n + 1) % 8, data[1..]);
            CfbEncrypted(key, k, n, data) == Stream([c] + rest.out, rest.iv, rest.n)
  {
    hide Xor;
  }

  lemma OfbStep(key: Key, k: seq<Byte>, n: nat, data: seq<Byte>)
    requires key.Valid() && |k| == 8 && 0 < n < 8 && data != []
    ensures var rest := OfbEncrypted(key, k, (n + 1) % 8, data[1..]);
            OfbEncrypted(key, k, n, data) == Stream([Xor(data[0], k[n])] + rest.out, rest.iv, rest.n)
  {
    hide Xor;
  }

  lemma Nothing(key: Key, k: seq<Byte>, n: nat)
    requires key.Valid() && |k| == 8 && 0 < n <= 8
    ensures CfbEncrypted(key, k, n % 8, []) == Stream(XorBytes([], k[n..n]), k[..n] + XorBytes([], k[n..n]) + k[n..], n % 8)
    ensures OfbEncrypted(key, k, n % 8, []) == Stream(XorBytes([], k[n..n]), k, n % 8)
  {
    assert k[..n] + [] + k[n..] == k;
  }

  // Within a block the register is used byte by byte from its place on.
  lemma {:induction false} CfbWithin(key: Key, k: seq<Byte>, n: nat, data: seq<Byte>)
    requires key.Valid() && |k| == 8 && 0 < n && n + |data| <= 8
    ensures var out := XorBytes(data, k[n..n + |data|]);
            CfbEncrypted(key, k, n % 8, data) == Stream(out, k[..n] + out + k[n + |data|..], (n + |data|) % 8)
    decreases |data|
  {
    hide Xor, XorBytes, CfbEncrypted;
    if data == [] {
      Nothing(key, k, n);
    } else {
      CfbStep(key, k, n, data);
      var m, c := n + |data|, Xor(data[0], k[n]);
      var k' := k[n := c];
      CfbWithin(key, k', n + 1, data[1..]);
      Spliced(k, n, m, c, XorBytes(data[1..], k'[n + 1..m]));
      XorCons(data, k[n..m]);
    }
  }

  lemma {:induction false} OfbWithin(key: Key, k: seq<Byte>, n: nat, data: seq<Byte>)
    requires key.Valid() && |k| == 8 && 0 < n && n + |data| <= 8
    ensures OfbEncrypted(key, k, n % 8, data) == Stream(XorBytes(data, k[n..n + |data|]), k, (n + |data|) % 8)
    decreases |data|
  {
    hide Xor, XorBytes, OfbEncrypted;
    if data == [] {
      Nothing(key, k, n);
    } else {
      OfbStep(key, k, n, data);
      OfbWithin(key, k, n + 1, data[1..]);
      Spliced(k, n, n + |data|, k[n], []);
      XorCons(data, k[n..n + |data|]);
    }
  }

  /** A whole block of cipher feedback is the message block added to the encrypted register,
      and is the next register. */
  lemma CfbBlock(key: Key, iv: seq<Byte>, data: seq<Byte>)
    requires key.Valid() && |iv| == 8 && |data| == 8
    ensures var out := XorBytes(data, BytesOf(Encrypted(key, BlockOf(iv))));
            CfbEncrypted(key, iv, 0, data) == Stream(out, out, 0)
  {
    hide Xor, BytesOf, Encrypted, BlockOf;
    var e := BytesOf(Encrypted(key, BlockOf(iv)));
    var c := Xor(data[0], e[0]);
    var k := e[0 := c];
    CfbWithin(key, k, 1, data[1..]);
    var rest := XorBytes(data[1..], k[1..8]);
    assert XorBytes(data, e) == [c] + rest;
    assert k[..1] + rest + k[8..] == [c] + rest;
  }

  /** A whole block of output feedback is the message block added to the encrypted register,
      which is the next register. */
  lemma OfbBlock(key: Key, iv: seq<Byte>, data: seq<Byte>)
    requires key.Valid() && |iv| == 8 && |data| == 8
    ensures var e := BytesOf(Encrypted(key, BlockOf(iv)));
            OfbEncrypted(key, iv, 0, data) == Stream(XorBytes(data, e), e, 0)
  {
    hide Xor, BytesOf, Encrypted, BlockOf;
    var e := BytesOf(Encrypted(key, BlockOf(iv)));
    OfbWithin(key, e, 1, data[1..]);
    assert XorBytes(data, e) == [Xor(data[0], e[0])] + XorBytes(data[1..], e[1..8]);
  }

  // ---- the loops ----

  method Put(out: array<Byte>, o: nat, b: seq<Byte>)
    requires o + |b| <= out.Length && |b| <= 8
    modifies out
    ensures out[o..o + |b|] == b && out[..o + |b|] == old(out[..o]) + b
    ensures forall j :: 0 <= j < out.Length && !(o <= j < o + |b|) ==> out[j] == old(out[j])
  {
    forall j | o <= j < o + |b| { out[j] := b[j - o]; }
    assert out[..o] == old(out[..o]);
  }

  // One block through BF_encrypt, in the two words of a local array.
  method Cipher(x: Pair, key: Key, encrypt: bool) returns (y: Pair)
    requires key.Valid()
    ensures y == if encrypt then Encrypted(key, x) else Decrypted(key, x)
  {
    hide Encrypted, Decrypted;
    var tin := new Word[2];
    tin[0] := x.l;
    tin[1] := x.r;
    Encrypt(tin, key, encrypt);
    y := Pair(tin[0], tin[1]);
  }

  // The result wanted is what is done, followed by what the rest comes to.
  predicate Ahead(c: Cbc, done: seq<Byte>, rest: Cbc) { c == Cbc(done + rest.out, rest.iv) }

  lemma AheadOn(c: Cbc, done: seq<Byte>, b: seq<Byte>, rest: Cbc)
    requires Ahead(c, done, Cbc(b + rest.out, rest.iv))
    ensures Ahead(c, done + b, rest) && |done| + |b| <= |c.out|
  {
    assert done + (b + rest.out) == done + b + rest.out;
  }

  lemma CbcEncStep(key: Key, iv: Pair, data: seq<Byte>, i: nat, n: nat, c: Cbc, done: seq<Byte>)
    requires key.Valid() && i < |data| && n == Min(8, |data| - i) && Ahead(c, done, CbcEncrypted(key, iv, data[i..]))
    ensures |done| + 8 <= |c.out|
    ensures var y := Encrypted(key, PXor(BlockOf(Filled(data[i..i + n])), iv));
            Ahead(c, done + BytesOf(y), CbcEncrypted(key, y, data[i + n..]))
  {
    hide Encrypted, PXor, BlockOf, Filled, BytesOf, Ahead;
    assert data[i..][..n] == data[i..i + n] && data[i..][n..] == data[i + n..];
    var y := Encrypted(key, PXor(BlockOf(Filled(data[i..i + n])), iv));
    AheadOn(c, done, BytesOf(y), CbcEncrypted(key, y, data[i + n..]));
  }

  // What is still to be read is as it was.
  lemma SameBlock(input: array<Byte>, data: seq<Byte>, i: nat, n: nat)
    requires i + n <= |data| <= input.Length && forall j :: i <= j < |data| ==> input[j] == data[j]
    ensures input[i..i + n] == data[i..i + n]
  {
  }

  // One block on, from the bytes read.
  method CbcSeal(b: seq<Byte>, out: array<Byte>, o: nat, key: Key, iv: Pair) returns (tout: Pair)
    requires key.Valid() && |b| <= 8 && o + 8 <= out.Length
    modifies out
    ensures tout == Encrypted(key, PXor(BlockOf(Filled(b)), iv)) && out[..o + 8] == old(out[..o]) + BytesOf(tout)
    ensures forall j :: o + 8 <= j < out.Length ==> out[j] == old(out[j])
  {
    hide Encrypted, PXor, BlockOf, BytesOf;
    var tin := PXor(BlockOf(if |b| == 8 then b else Filled(b)), iv);
    FilledWhole(b);
    tout := Cipher(tin, key, true);
    Put(out, o, BytesOf(tout));
  }

  /** The encrypting side of BF_cbc_encrypt: a short last block is filled up with zeros. The
      output may go into the input's own buffer. */
  method CbcForward(input: array<Byte>, length: nat, out: array<Byte>, key: Key, iv: array<Byte>)
    requires key.Valid() && length <= input.Length && iv.Length == 8 && iv != input && iv != out
    requires |CbcEncrypted(key, BlockOf(iv[..]), input[..length]).out| <= out.Length
    modifies out, iv
    ensures var c := CbcEncrypted(key, old(BlockOf(iv[..])), old(input[..length]));
            out[..|c.out|] == c.out && out[|c.out|..] == old(out[|c.out|..]) && iv[..] == BytesOf(c.iv)
  {
    hide Encrypted, PXor, BlockOf, Filled, BytesOf, CbcEncrypted, Ahead;
    ghost var data := input[..length];
    var tout := BlockOf(iv[..]);
    ghost var c := CbcEncrypted(key, tout, data);
    var l, i := length - 8, 0;
    CbcBegin(c, out[..0], data);
    while l >= 0
      invariant 0 <= i <= length && l == length - i - 8 && i <= |c.out|
      invariant Ahead(c, out[..i], CbcEncrypted(key, tout, data[i..]))
      invariant forall j :: i <= j < out.Length ==> out[j] == old(out[j])
      invariant forall j :: i <= j < length ==> input[j] == data[j]
      modifies out
    {
      CbcEncStep(key, tout, data, i, 8, c, out[..i]);
      SameBlock(input, data, i, 8);
      tout := CbcSeal(input[i..i + 8], out, i, key, tout);
      i, l := i + 8, l - 8;
    }
    if l != -8 {
      CbcEncStep(key, tout, data, i, l + 8, c, out[..i]);
      SameBlock(input, data, i, l + 8);
      tout := CbcSeal(input[i..i + (l + 8)], out, i, key, tout);
      CbcEncEnd(key, tout, data[length..], c, out[..i + 8]);
    } else {
      CbcEncEnd(key, tout, data[i..], c, out[..i]);
    }
    Put(iv, 0, BytesOf(tout));
  }

  lemma FilledWhole(b: seq<Byte>)
    requires |b| <= 8
    ensures |b| == 8 ==> Filled(b) == b
  {
  }

  lemma CbcEncEnd(key: Key, iv: Pair, rest: seq<Byte>, c: Cbc, done: seq<Byte>)
    requires key.Valid() && rest == [] && Ahead(c, done, CbcEncrypted(key, iv, rest))
    ensures c == Cbc(done, iv)
  {
  }

  lemma CbcDecStep(key: Key, iv: Pair, data: seq<Byte>, i: nat, length: nat, n: nat, c: Cbc, done: seq<Byte>)
    requires key.Valid() && Whole(i) && Whole(|data|) && i < length <= |data| && n == Min(8, length - i)
    requires Whole(|data| - i) && Ahead(c, done, CbcDecrypted(key, iv, data[i..], length - i))
    ensures i + 8 <= |data| && Whole(|data| - i - 8) && Whole(i + 8)
    ensures var y := BlockOf(data[i..i + 8]);
            Ahead(c, done + BytesOf(PXor(Decrypted(key, y), iv))[..n], CbcDecrypted(key, y, data[i + 8..], length - i - n))
  {
    hide Decrypted, PXor, BlockOf, BytesOf;
    assert data[i..][..8] == data[i..i + 8] && data[i..][8..] == data[i + 8..];
  }

  // One block back, the first n bytes of it stored; the cipher block is the next vector.
  method CbcOpen(b: seq<Byte>, out: array<Byte>, i: nat, n: nat, key: Key, xor: Pair) returns (tin: Pair)
    requires key.Valid() && |b| == 8 && n <= 8 && i + n <= out.Length
    modifies out
    ensures tin == BlockOf(b) && out[..i + n] == old(out[..i]) + BytesOf(PXor(Decrypted(key, tin), xor))[..n]
    ensures forall j :: i + n <= j < out.Length ==> out[j] == old(out[j])
  {
    hide Decrypted, PXor, BlockOf, BytesOf;
    tin := BlockOf(b);
    var t := Cipher(tin, key, false);
    Put(out, i, BytesOf(PXor(t, xor))[..n]);
  }

  // What the blocks leave over: a last one of which fewer bytes are stored, or none.
  method CbcLast(input: array<Byte>, length: nat, out: array<Byte>, key: Key, iv: Pair, i: nat, ghost data: seq<Byte>, ghost c: Cbc) returns (xor: Pair)
    requires key.Valid() && i <= length < i + 8 && length <= |data| <= input.Length && length <= out.Length
    requires Whole(i) && Whole(|data|) && Whole(|data| - i) && |data| < length + 8
    requires Ahead(c, out[..i], CbcDecrypted(key, iv, data[i..], length - i))
    requires forall j :: i <= j < |data| ==> input[j] == data[j]
    modifies out
    ensures c == Cbc(out[..length], xor) && forall j :: length <= j < out.Length ==> out[j] == old(out[j])
  {
    hide Decrypted, PXor, BlockOf, BytesOf, CbcDecrypted, Ahead;
    if i != length {
      CbcDecStep(key, iv, data, i, length, length - i, c, out[..i]);
      SameBlock(input, data, i, 8);
      xor := CbcOpen(input[i..i + 8], out, i, length - i, key, iv);
      CbcEnd(key, xor, data[i + 8..], c, out[..length]);
    } else {
      xor := iv;
      CbcEnd(key, xor, data[i..], c, out[..length]);
    }
  }

  /** The decrypting side of BF_cbc_encrypt: whole blocks in, and of the last one only the
      bytes that the length still asks for. The output may go into the input's own buffer. */
  method CbcBackward(input: array<Byte>, length: nat, out: array<Byte>, key: Key, iv: array<Byte>)
    requires key.Valid() && iv.Length == 8 && iv != input && iv != out
    requires Blocks(length) <= input.Length && length <= out.Length
    modifies out, iv
    ensures var c := CbcDecrypted(key, old(BlockOf(iv[..])), old(input[..Blocks(length)]), length);
            |c.out| == length && out[..length] == c.out && out[length..] == old(out[length..]) && iv[..] == BytesOf(c.iv)
  {
    hide Decrypted, PXor, BlockOf, BytesOf, CbcDecrypted, Whole, Ahead, Blocks;
    WholeNothing(length);
    ghost var data := input[..Blocks(length)];
    var xor := BlockOf(iv[..]);
    ghost var c := CbcDecrypted(key, xor, data, length);
    var l, i := length - 8, 0;
    CbcBegin(c, out[..0], data);
    while l >= 0
      invariant 0 <= i <= length && Whole(i) && Whole(|data| - i) && l == length - i - 8
      invariant Ahead(c, out[..i], CbcDecrypted(key, xor, data[i..], length - i))
      invariant forall j :: i <= j < out.Length ==> out[j] == old(out[j])
      invariant forall j :: i <= j < |data| ==> input[j] == data[j]
      modifies out
    {
      CbcDecStep(key, xor, data, i, length, 8, c, out[..i]);
      SameBlock(input, data, i, 8);
      xor := CbcOpen(input[i..i + 8], out, i, 8, key, xor);
      i, l := i + 8, l - 8;
    }
    xor := CbcLast(input, length, out, key, xor, i, data, c);
    Put(iv, 0, BytesOf(xor));
  }

  // The bytes of the blocks that so many bytes take.
  function Blocks(length: nat): nat { (length + 7) / 8 * 8 }

  lemma WholeNothing(length: nat)
    ensures Whole(0) && Whole(Blocks(length)) && length <= Blocks(length) < length + 8
  {
  }

  lemma CbcBegin(c: Cbc, done: seq<Byte>, data: seq<Byte>)
    requires done == []
    ensures Ahead(c, done, c) && data[0..] == data
  {
  }

  lemma CbcEnd(key: Key, iv: Pair, rest: seq<Byte>, c: Cbc, done: seq<Byte>)
    requires key.Valid() && Whole(|rest|) && Ahead(c, done, CbcDecrypted(key, iv, rest, 0))
    ensures c == Cbc(done, iv)
  {
  }

  // The register is encrypted in place when its bytes are used up.
  method Refresh(iv: array<Byte>, key: Key, n: nat)
    requires key.Valid() && iv.Length == 8
    modifies iv
    ensures iv[..] == Refreshed(key, old(iv[..]), n)
  {
    hide Encrypted, BlockOf, BytesOf;
    if n == 0 {
      var t := Cipher(BlockOf(iv[..]), key, true);
      Put(iv, 0, BytesOf(t));
    }
  }

  // The result wanted is what is done, followed by what the rest comes to.
  predicate Behind(c: Stream, done: seq<Byte>, rest: Stream) { c == Stream(done + rest.out, rest.iv, rest.n) }

  lemma BehindOn(c: Stream, done: seq<Byte>, b: Byte, rest: Stream)
    requires Behind(c, done, Stream([b] + rest.out, rest.iv, rest.n))
    ensures Behind(c, done + [b], rest)
  {
    assert done + ([b] + rest.out) == done + [b] + rest.out;
  }

  function Bump(n: nat): nat { (n + 1) % 8 }

  lemma CfbEncStep(key: Key, iv: seq<Byte>, n: nat, data: seq<Byte>, i: nat, c: Stream, done: seq<Byte>)
    requires key.Valid() && |iv| == 8 && n < 8 && i < |data| && Behind(c, done, CfbEncrypted(key, iv, n, data[i..]))
    ensures Bump(n) < 8
    ensures var k := Refreshed(key, iv, n);
            var b := Xor(data[i], k[n]);
            Behind(c, done + [b], CfbEncrypted(key, k[n := b], Bump(n), data[i + 1..]))
  {
    hide Xor, Refreshed, Behind;
    assert data[i..][1..] == data[i + 1..];
    var k := Refreshed(key, iv, n);
    var b := Xor(data[i], k[n]);
    BehindOn(c, done, b, CfbEncrypted(key, k[n := b], Bump(n), data[i + 1..]));
  }

  lemma CfbDecStep(key: Key, iv: seq<Byte>, n: nat, data: seq<Byte>, i: nat, c: Stream, done: seq<Byte>)
    requires key.Valid() && |iv| == 8 && n < 8 && i < |data| && Behind(c, done, CfbDecrypted(key, iv, n, data[i..]))
    ensures Bump(n) < 8
    ensures var k := Refreshed(key, iv, n);
            Behind(c, done + [Xor(k[n], data[i])], CfbDecrypted(key, k[n := data[i]], Bump(n), data[i + 1..]))
  {
    hide Xor, Refreshed, Behind;
    assert data[i..][1..] == data[i + 1..];
    var k := Refreshed(key, iv, n);
    BehindOn(c, done, Xor(k[n], data[i]), CfbDecrypted(key, k[n := data[i]], Bump(n), data[i + 1..]));
  }

  lemma OfbByte(key: Key, iv: seq<Byte>, n: nat, data: seq<Byte>, i: nat, c: Stream, done: seq<Byte>)
    requires key.Valid() && |iv| == 8 && n < 8 && i < |data| && Behind(c, done, OfbEncrypted(key, iv, n, data[i..]))
    ensures Bump(n) < 8
    ensures var k := Refreshed(key, iv, n);
            Behind(c, done + [Xor(data[i], k[n])], OfbEncrypted(key, k, Bump(n), data[i + 1..]))
  {
    hide Xor, Refreshed, Behind;
    assert data[i..][1..] == data[i + 1..];
    var k := Refreshed(key, iv, n);
    BehindOn(c, done, Xor(data[i], k[n]), OfbEncrypted(key, k, Bump(n), data[i + 1..]));
  }

  lemma StreamBegin(c: Stream, data: seq<Byte>)
    ensures Behind(c, [], c) && data[0..] == data
  {
  }

  lemma StreamDone(key: Key, iv: seq<Byte>, n: nat, rest: seq<Byte>, c: Stream, done: seq<Byte>)
    requires key.Valid() && |iv| == 8 && n < 8 && rest == []
    ensures Behind(c, done, CfbEncrypted(key, iv, n, rest)) ==> c == Stream(done, iv, n)
    ensures Behind(c, done, CfbDecrypted(key, iv, n, rest)) ==> c == Stream(done, iv, n)
    ensures Behind(c, done, OfbEncrypted(key, iv, n, rest)) ==> c == Stream(done, iv, n)
  {
  }

  /** The encrypting side of BF_cfb64_encrypt, also when the output goes into the input's own
      buffer. */
  method Cfb64Forward(input: array<Byte>, length: nat, out: array<Byte>, key: Key, ivec: array<Byte>, num: nat) returns (n: nat)
    requires key.Valid() && ivec.Length == 8 && ivec != input && ivec != out && num < 8
    requires length <= input.Length && length <= out.Length
    modifies out, ivec
    ensures var c := CfbEncrypted(key, old(ivec[..]), num, old(input[..length]));
            out[..length] == c.out && out[length..] == old(out[length..]) && ivec[..] == c.iv && n == c.n
  {
    hide Xor, Refreshed, CfbEncrypted, Bump, Behind;
    ghost var data := input[..length];
    n := num;
    var i := 0;
    ghost var c := CfbEncrypted(key, ivec[..], num, data);
    StreamBegin(c, data);
    assert out[..0] == [];
    while i < length
      invariant 0 <= i <= length && n < 8
      invariant Behind(c, out[..i], CfbEncrypted(key, ivec[..], n, data[i..]))
      invariant forall j :: i <= j < out.Length ==> out[j] == old(out[j])
      invariant forall j :: i <= j < length ==> input[j] == data[j]
    {
      CfbEncStep(key, ivec[..], n, data, i, c, out[..i]);
      Refresh(ivec, key, n);
      ghost var k := ivec[..];
      var b := Xor(input[i], ivec[n]);
      Put(out, i, [b]);
      ivec[n] := b;
      assert ivec[..] == k[n := b];
      n := Bump(n);
      i := i + 1;
    }
    StreamDone(key, ivec[..], n, data[i..], c, out[..i]);
  }

  /** The decrypting side of BF_cfb64_encrypt, also in place. */
  method Cfb64Backward(input: array<Byte>, length: nat, out: array<Byte>, key: Key, ivec: array<Byte>, num: nat) returns (n: nat)
    requires key.Valid() && ivec.Length == 8 && ivec != input && ivec != out && num < 8
    requires length <= input.Length && length <= out.Length
    modifies out, ivec
    ensures var c := CfbDecrypted(key, old(ivec[..]), num, old(input[..length]));
            out[..length] == c.out && out[length..] == old(out[length..]) && ivec[..] == c.iv && n == c.n
  {
    hide Xor, Refreshed, CfbDecrypted, Bump, Behind;
    ghost var data := input[..length];
    n := num;
    var i := 0;
    ghost var c := CfbDecrypted(key, ivec[..], num, data);
    StreamBegin(c, data);
    assert out[..0] == [];
    while i < length
      invariant 0 <= i <= length && n < 8
      invariant Behind(c, out[..i], CfbDecrypted(key, ivec[..], n, data[i..]))
      invariant forall j :: i <= j < out.Length ==> out[j] == old(out[j])
      invariant forall j :: i <= j < length ==> input[j] == data[j]
    {
      CfbDecStep(key, ivec[..], n, data, i, c, out[..i]);
      Refresh(ivec, key, n);
      ghost var k := ivec[..];
      var cc := input[i];
      var b := ivec[n];
      ivec[n] := cc;
      assert ivec[..] == k[n := cc];
      Put(out, i, [Xor(b, cc)]);
      n := Bump(n);
      i := i + 1;
    }
    StreamDone(key, ivec[..], n, data[i..], c, out[..i]);
  }

  // The register of output feedback in its two forms: the block that is encrypted and its bytes.
  method OfbRefresh(ti: Pair, d: array<Byte>, key: Key, n: nat, save: nat) returns (ti': Pair, save': nat)
    requires key.Valid() && d.Length == 8 && d[..] == BytesOf(ti)
    modifies d
    ensures d[..] == BytesOf(ti') == Refreshed(key, old(d[..]), n)
    ensures save' == 0 ==> save == 0 && d[..] == old(d[..])
  {
    hide Encrypted, BlockOf, BytesOf;
    ti', save' := ti, save;
    if n == 0 {
      BlockOfBytes(ti);
      ti' := Cipher(ti, key, true);
      Put(d, 0, BytesOf(ti'));
      save' := save + 1;
    }
  }

  /** BF_ofb64_encrypt, also in place: the register lives in a local block and is written back
      only when it was encrypted at least once. */
  method Ofb64(input: array<Byte>, length: nat, out: array<Byte>, key: Key, ivec: array<Byte>, num: nat) returns (n: nat)
    requires key.Valid() && ivec.Length == 8 && ivec != input && ivec != out && num < 8
    requires length <= input.Length && length <= out.Length
    modifies out, ivec
    ensures var c := OfbEncrypted(key, old(ivec[..]), num, old(input[..length]));
            out[..length] == c.out && out[length..] == old(out[length..]) && ivec[..] == c.iv && n == c.n
  {
    hide Xor, OfbEncrypted, BlockOf, BytesOf, Refreshed, Bump, Behind;
    ghost var data := input[..length];
    n := num;
    var ti := BlockOf(ivec[..]);
    var d := new Byte[8];
    BytesOfBlock(ivec[..]);
    Put(d, 0, BytesOf(ti));
    var i, save := 0, 0;
    ghost var c := OfbEncrypted(key, ivec[..], num, data);
    StreamBegin(c, data);
    assert out[..0] == [] && d[..] == ivec[..];
    while i < length
      invariant 0 <= i <= length && n < 8 && d[..] == BytesOf(ti) && (save == 0 ==> d[..] == ivec[..])
      invariant Behind(c, out[..i], OfbEncrypted(key, d[..], n, data[i..]))
      invariant forall j :: i <= j < out.Length ==> out[j] == old(out[j])
      invariant forall j :: i <= j < length ==> input[j] == data[j]
      modifies out, d
    {
      OfbByte(key, d[..], n, data, i, c, out[..i]);
      ti, save := OfbRefresh(ti, d, key, n, save);
      Put(out, i, [Xor(input[i], d[n])]);
      n := Bump(n);
      i := i + 1;
    }
    StreamDone(key, d[..], n, data[i..], c, out[..i]);
    if save != 0 {
      Put(ivec, 0, BytesOf(ti));
    }
  }
}

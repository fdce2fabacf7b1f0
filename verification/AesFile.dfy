/** The encrypted file container of the security benchmark: an initial vector, a byte whose
    low four bits hold the length modulo 16, the file, and zeros up to a whole block, all
    chained block by block (mode CBC). */
module AesFile {
  import opened Aes
  import opened Bytes
  import opened Files
  import C = AesCipher

  // ---- blocks of sixteen bytes ----

  function WordBytes(w: C.Col): seq<Byte> { [w.b0, w.b1, w.b2, w.b3] }

  function Flat(x: C.State): (b: seq<Byte>)
    ensures |b| == 16
  {
    WordBytes(x.c0) + WordBytes(x.c1) + WordBytes(x.c2) + WordBytes(x.c3)
  }

  lemma BytesOfBlock(b: seq<Byte>)
    requires |b| == 16
    ensures Flat(Block(b)) == b
  {
  }

  lemma BlockOfBytes(x: C.State)
    ensures Block(Flat(x)) == x
  {
  }

  function XorBlock(a: seq<Byte>, b: seq<Byte>): (c: seq<Byte>)
    requires |a| == 16 && |b| == 16
    ensures |c| == 16
  {
    seq(16, i requires 0 <= i < 16 => Xor(a[i], b[i]))
  }

  lemma XorTwice(a: seq<Byte>, b: seq<Byte>)
    requires |a| == 16 && |b| == 16
    ensures XorBlock(XorBlock(a, b), b) == a
  {
    hide Xor;
    forall i | 0 <= i < 16
      ensures Xor(Xor(a[i], b[i]), b[i]) == a[i]
    {
      Cancel(a[i], b[i]);
    }
  }

  ghost function Enc(key: seq<C.Col>, b: seq<Byte>): (c: seq<Byte>)
    requires |key| > 0 && |b| == 16
    ensures |c| == 16
  {
    Flat(Encrypted(key, Block(b)))
  }

  ghost function Dec(key: seq<C.Col>, c: seq<Byte>): (b: seq<Byte>)
    requires |key| > 0 && |c| == 16
    ensures |b| == 16
  {
    Flat(Decrypted(key, Block(c)))
  }

  lemma DecOfEnc(key: seq<C.Col>, b: seq<Byte>)
    requires |key| > 0 && |b| == 16
    ensures Dec(key, Enc(key, b)) == b
  {
    hide Block, Flat, Encrypted, Decrypted;
    BlockOfBytes(Encrypted(key, Block(b)));
    Inverts(key, Block(b));
    BytesOfBlock(b);
  }

  // ---- chaining ----

  predicate Whole(n: nat) { n % 16 == 0 }

  lemma WholeSteps(n: nat)
    requires Whole(n)
    ensures Whole(n + 16) && (n > 0 ==> n >= 16 && Whole(n - 16))
  {
  }

  // The bytes of n that make up whole blocks.
  function AllWhole(n: nat): (m: nat)
    ensures Whole(m) && m <= n < m + 16
  {
    n - n % 16
  }

  lemma WholeGap(n: nat, m: nat)
    requires Whole(n) && Whole(m) && n < m
    ensures n <= m - 16
  {
  }

  lemma WholeNext(n: nat, m: nat)
    requires Whole(n) && Whole(m) && n < m < n + 32
    ensures m == n + 16
  {
  }

  /** The initial vector followed by the chained encryption of whole blocks. */
  ghost function Chain(key: seq<C.Col>, iv: seq<Byte>, p: seq<Byte>): (c: seq<Byte>)
    requires |key| > 0 && |iv| == 16 && Whole(|p|)
    ensures |c| == 16 + |p| && Whole(|c|)
  {
    WholeSteps(|p|);
    if p == [] then iv
    else
      var c := Chain(key, iv, p[..|p| - 16]);
      c + Enc(key, XorBlock(p[|p| - 16..], c[|c| - 16..]))
  }

  /** What the blocks after the first decrypt to. */
  ghost function Unchain(key: seq<C.Col>, c: seq<Byte>): (p: seq<Byte>)
    requires |key| > 0 && 16 <= |c| && Whole(|c|)
    ensures |p| == |c| - 16
  {
    WholeSteps(|c|);
    WholeSteps(|c| - 16);
    if |c| == 16 then []
    else Unchain(key, c[..|c| - 16]) + XorBlock(Dec(key, c[|c| - 16..]), c[|c| - 32..|c| - 16])
  }

  lemma {:induction false} UnchainOfChain(key: seq<C.Col>, iv: seq<Byte>, p: seq<Byte>)
    requires |key| > 0 && |iv| == 16 && Whole(|p|)
    ensures Unchain(key, Chain(key, iv, p)) == p
  {
    hide Enc, Dec, XorBlock, Whole;
    WholeSteps(|p|);
    if p != [] {
      var q, b := p[..|p| - 16], p[|p| - 16..];
      UnchainOfChain(key, iv, q);
      var c := Chain(key, iv, q);
      var prev := c[|c| - 16..];
      var e := Enc(key, XorBlock(b, prev));
      DecOfEnc(key, XorBlock(b, prev));
      XorTwice(b, prev);
      assert (c + e)[..|c|] == c && (c + e)[|c|..] == e && (c + e)[|c| - 16..|c|] == prev;
      assert p == q + b;
    }
  }

  lemma {:induction false} ChainGrows(key: seq<C.Col>, iv: seq<Byte>, p: seq<Byte>, n: nat)
    requires |key| > 0 && |iv| == 16 && Whole(|p|) && Whole(n) && n <= |p|
    ensures Chain(key, iv, p[..n]) <= Chain(key, iv, p)
  {
    hide Enc, XorBlock, Whole;
    WholeSteps(|p|);
    if n < |p| {
      WholeGap(n, |p|);
      var q := p[..|p| - 16];
      ChainGrows(key, iv, q, n);
      assert q[..n] == p[..n];
    } else {
      assert p[..n] == p;
    }
  }

  // ---- the container ----

  function Lead(n: nat, random: Byte): Byte { (n % 16) as Byte | (random & 0xf0) }

  function LengthCode(lead: Byte): nat { (lead & 15) as nat }

  /** The leading byte, the file, and zeros up to a whole number of blocks. */
  function Padded(file: seq<Byte>, random: Byte): (p: seq<Byte>)
    ensures Whole(|p|) && |file| + 1 <= |p| < |file| + 17
  {
    [Lead(|file|, random)] + file + Zeros(15 - |file| % 16)
  }

  ghost function Container(key: seq<C.Col>, iv: seq<Byte>, random: Byte, file: seq<Byte>): seq<Byte>
    requires |key| > 0 && |iv| == 16
  {
    Chain(key, iv, Padded(file, random))
  }

  // All blocks but the last, and of that one more byte than the length code says, without
  // the leading byte.
  function Named(p: seq<Byte>): seq<Byte>
    requires 16 <= |p|
  {
    LowMask(p[0]);
    p[1..|p| - 16 + LengthCode(p[0]) + 1]
  }

  lemma LowMask(lead: Byte)
    ensures lead & 15 < 16
  {
  }

  /** What decryption takes out of the whole blocks of a container. */
  ghost function Contents(key: seq<C.Col>, c: seq<Byte>): seq<Byte>
    requires |key| > 0 && 32 <= |c|
  {
    Named(Unchain(key, c[..AllWhole(|c|)]))
  }

  lemma LengthOfLead(n: nat, random: Byte)
    ensures LengthCode(Lead(n, random)) == n % 16
  {
    LowBits4((n % 16) as Byte, random);
  }

  lemma LowBits4(a: Byte, b: Byte)
    requires a < 16
    ensures (a | (b & 0xf0)) & 15 == a
  {
  }

  /** The lowest four bits of the leading byte are the length modulo 16, the others random. */
  lemma LeadHalves(n: nat, random: Byte, lead: Byte)
    ensures Lead(n, random) & 15 == (n % 16) as Byte && Lead(n, random) & 0xf0 == random & 0xf0
    ensures LengthCode(lead) == (lead & 15) as nat == LengthCode(lead & 15)
  {
    RawHalves((n % 16) as Byte, random, lead);
  }

  lemma RawHalves(a: Byte, b: Byte, lead: Byte)
    requires a < 16
    ensures (a | (b & 0xf0)) & 15 == a && (a | (b & 0xf0)) & 0xf0 == b & 0xf0 && (lead & 15) & 15 == lead & 15
  {
  }

  /** Decryption takes out the file that encryption put in, whatever its length. */
  lemma RoundTrip(key: seq<C.Col>, iv: seq<Byte>, random: Byte, file: seq<Byte>)
    requires |key| > 0 && |iv| == 16
    ensures 32 <= |Container(key, iv, random, file)| && Contents(key, Container(key, iv, random, file)) == file
  {
    hide Chain, Unchain, Lead, LengthCode;
    var p := Padded(file, random);
    var c := Chain(key, iv, p);
    UnchainOfChain(key, iv, p);
    LengthOfLead(|file|, random);
    assert c[..AllWhole(|c|)] == c;
    assert |p| == |file| + 1 + (15 - |file| % 16);
  }

  // ---- encfile ----

  method XorInto(a: array<Byte>, b: array<Byte>)
    requires a.Length == 16 && b.Length == 16 && a != b
    modifies a
    ensures a[..] == XorBlock(old(a[..]), b[..])
  {
    hide Xor;
    var i := 0;
    while i < 16
      invariant 0 <= i <= 16
      invariant forall k :: 0 <= k < 16 ==> a[k] == if k < i then Xor(old(a[k]), b[k]) else old(a[k])
    {
      a[i] := Xor(a[i], b[i]);
      i := i + 1;
    }
  }

  lemma PaddedAt(file: seq<Byte>, random: Byte)
    ensures var p := Padded(file, random);
      && p[0] == Lead(|file|, random)
      && (forall j :: 1 <= j <= |file| ==> p[j] == file[j - 1])
      && forall j :: |file| < j < |p| ==> p[j] == 0
  {
    hide Lead;
  }

  ghost predicate Encrypting(ctx: Context)
    reads ctx, ctx.eKey, ctx.dKey
  {
    ctx.Valid() && Encrypts(ctx.mode) && |ctx.key| > 0
  }

  // One block: chained to the last one, encrypted, and written.
  method Emit(inbuf: array<Byte>, outbuf: array<Byte>, fout: OutFile, ctx: Context) returns (w: nat)
    requires Encrypting(ctx) && inbuf !in ctx.Arrays() && outbuf !in ctx.Arrays()
    requires inbuf.Length == 16 && outbuf.Length == 16 && inbuf != outbuf && |fout.data| <= fout.room
    modifies inbuf, outbuf, fout
    ensures outbuf[..] == Enc(ctx.key, XorBlock(old(inbuf[..]), old(outbuf[..])))
    ensures |fout.data| <= fout.room && fout.data == Clip(old(fout.data) + outbuf[..], fout.room)
    ensures w == 16 <==> |old(fout.data)| + 16 <= fout.room
  {
    hide Enc, Dec, XorBlock, Context.Valid, Encrypts, Block, Encrypted;
    XorInto(inbuf, outbuf);
    ghost var b := inbuf[..];
    var good := ctx.Encrypt(inbuf[..], outbuf);
    EncBlock(ctx.key, b, outbuf[..]);
    w := fout.Write(outbuf[..]);
  }

  lemma EncBlock(key: seq<C.Col>, b: seq<Byte>, c: seq<Byte>)
    requires |key| > 0 && |b| == 16 && |c| == 16 && Block(c) == Encrypted(key, Block(b))
    ensures c == Enc(key, b)
  {
    hide Block, Flat, Encrypted;
    BytesOfBlock(c);
  }

  lemma ChainNext(key: seq<C.Col>, iv: seq<Byte>, p: seq<Byte>, b: seq<Byte>)
    requires |key| > 0 && |iv| == 16 && Whole(|p|) && |b| == 16
    ensures Whole(|p + b|)
    ensures Chain(key, iv, p + b) == Chain(key, iv, p) + Enc(key, XorBlock(b, Chain(key, iv, p)[|p|..]))
  {
    hide Enc, XorBlock, Whole;
    WholeSteps(|p|);
    assert (p + b)[..|p|] == p && (p + b)[|p|..] == b;
  }

  // The first blocks of p are chained and written, as far as there was room.
  ghost predicate Written(base: seq<Byte>, key: seq<C.Col>, iv: seq<Byte>, p: seq<Byte>, done: nat, last: seq<Byte>, data: seq<Byte>, room: nat) {
    && |key| > 0 && |iv| == 16 && Whole(|p|) && Whole(done) && done <= |p| && |last| == 16
    && data == Clip(base + Chain(key, iv, p[..done]), room)
    && last == Chain(key, iv, p[..done])[done..]
  }

  lemma Started(base: seq<Byte>, key: seq<C.Col>, iv: seq<Byte>, p: seq<Byte>, room: nat)
    requires |key| > 0 && |iv| == 16 && Whole(|p|)
    ensures Written(base, key, iv, p, 0, iv, Clip(base + iv, room), room)
  {
    assert p[..0] == [];
  }

  lemma Step(base: seq<Byte>, key: seq<C.Col>, iv: seq<Byte>, p: seq<Byte>, done: nat, prev: seq<Byte>, data: seq<Byte>, room: nat, last: seq<Byte>)
    requires Written(base, key, iv, p, done, prev, data, room) && done + 16 <= |p|
    requires last == Enc(key, XorBlock(p[done..done + 16], prev))
    ensures Written(base, key, iv, p, done + 16, last, Clip(data + last, room), room)
    ensures |data| + 16 <= room <==> |base| + 32 + done <= room
  {
    hide Whole, Enc, XorBlock;
    WholeSteps(done);
    ChainNext(key, iv, p[..done], p[done..done + 16]);
    assert p[..done] + p[done..done + 16] == p[..done + 16];
    var c := Chain(key, iv, p[..done]);
    assert base + (c + last) == base + c + last;
    ClipGrows(base + c, last, room);
  }

  // Once a block did not fit, nothing after it would have.
  lemma Overflow(base: seq<Byte>, key: seq<C.Col>, iv: seq<Byte>, p: seq<Byte>, done: nat, last: seq<Byte>, data: seq<Byte>, room: nat)
    requires Written(base, key, iv, p, done, last, data, room) && |base| + 16 + done > room
    ensures data == Clip(base + Chain(key, iv, p), room) && |base| + |Chain(key, iv, p)| > room
  {
    hide Whole, Chain;
    ChainGrows(key, iv, p, done);
    assert base + Chain(key, iv, p[..done]) <= base + Chain(key, iv, p);
    ClipFull(base + Chain(key, iv, p[..done]), base + Chain(key, iv, p), room);
  }

  lemma Finished(base: seq<Byte>, key: seq<C.Col>, iv: seq<Byte>, p: seq<Byte>, last: seq<Byte>, data: seq<Byte>, room: nat)
    requires Written(base, key, iv, p, |p|, last, data, room) && |base| + 16 + |p| <= room
    ensures data == Clip(base + Chain(key, iv, p), room) && |base| + |Chain(key, iv, p)| <= room
  {
    hide Whole, Chain;
    assert p[..|p|] == p;
  }

  // The buffer after a read of all the bytes asked for, and after the last, short one.
  lemma FullBlock(file: seq<Byte>, random: Byte, done: nat, l: nat, b: seq<Byte>)
    requires |b| == 16 && ((l == 15 && done == 0 && b[0] == Padded(file, random)[0]) || (l == 16 && done > 0))
    requires done + 15 <= |file|
    requires forall k :: 16 - l <= k < 16 ==> b[k] == file[done + k - 1]
    ensures done + 16 <= |Padded(file, random)| && b == Padded(file, random)[done..done + 16]
  {
    hide Padded;
    PaddedAt(file, random);
  }

  lemma LastBlock(file: seq<Byte>, random: Byte, done: nat, i: nat, b: seq<Byte>)
    requires Whole(done) && |b| == 16 && 0 < i < 16 && i == |file| + 1 - done
    requires done == 0 ==> b[0] == Padded(file, random)[0]
    requires forall k :: 0 <= k < i && (done == 0 ==> k > 0) ==> b[k] == file[done + k - 1]
    requires forall k :: i <= k < 16 ==> b[k] == 0
    ensures |Padded(file, random)| == done + 16 && b == Padded(file, random)[done..done + 16]
  {
    hide Padded, Whole;
    PaddedAt(file, random);
    WholeNext(done, |Padded(file, random)|);
  }

  lemma NoBlock(file: seq<Byte>, random: Byte, done: nat)
    requires Whole(done) && done == |file| + 1
    ensures |Padded(file, random)| == done
  {
  }

  method Clear(b: array<Byte>, i: nat)
    requires b.Length == 16
    modifies b
    ensures forall k :: 0 <= k < 16 ==> b[k] == if k < i then old(b[k]) else 0
  {
    var j := i;
    while j < 16
      invariant i <= j && forall k :: 0 <= k < 16 ==> b[k] == if i <= k < j then 0 else old(b[k])
    {
      b[j] := 0;
      j := j + 1;
    }
  }

  // What remains after the loop: a last block filled up with zeros, or nothing.
  method EncTail(ghost file: seq<Byte>, i: nat, inbuf: array<Byte>, outbuf: array<Byte>, fout: OutFile, ctx: Context,
                 ghost iv: seq<Byte>, ghost random: Byte, ghost base: seq<Byte>, ghost done: nat) returns (r: int)
    requires Encrypting(ctx) && inbuf !in ctx.Arrays() && outbuf !in ctx.Arrays()
    requires inbuf.Length == 16 && outbuf.Length == 16 && inbuf != outbuf && |fout.data| <= fout.room
    requires Written(base, ctx.key, iv, Padded(file, random), done, outbuf[..], fout.data, fout.room)
    requires i < 16 && i == |file| + 1 - done && (i == 0 ==> |base| + 16 + done <= fout.room)
    requires done == 0 ==> i > 0 && inbuf[0] == Padded(file, random)[0]
    requires forall k :: 0 <= k < i && (done == 0 ==> k > 0) ==> inbuf[k] == file[done + k - 1]
    modifies inbuf, outbuf, fout
    ensures fout.data == Clip(base + Container(ctx.key, iv, random, file), fout.room)
    ensures r == 0 <==> |base| + |Container(ctx.key, iv, random, file)| <= fout.room
    ensures r in {0, -8}
  {
    hide Context.Valid, Encrypts, Whole, Padded, Chain, Lead, Enc, XorBlock, Clip;
    ghost var p := Padded(file, random);
    ghost var done' := done;
    if i != 0 {
      Clear(inbuf, i);
      LastBlock(file, random, done, i, inbuf[..]);
      ghost var data, prev := fout.data, outbuf[..];
      var w := Emit(inbuf, outbuf, fout, ctx);
      Step(base, ctx.key, iv, p, done, prev, data, fout.room, outbuf[..]);
      done' := done + 16;
      if w != 16 {
        Overflow(base, ctx.key, iv, p, done', outbuf[..], fout.data, fout.room);
        return -8;
      }
    } else {
      NoBlock(file, random, done);
    }
    Finished(base, ctx.key, iv, p, outbuf[..], fout.data, fout.room);
    return 0;
  }

  /** encfile: the container of the file, as far as the device has room for it; the result
      is zero exactly when all of it fits. */
  method EncFile(fin: InFile, fout: OutFile, ctx: Context, iv: seq<Byte>, random: Byte) returns (r: int)
    requires Encrypting(ctx) && |iv| == 16 && |fout.data| <= fout.room
    modifies fin, fout
    ensures fout.data == Clip(old(fout.data) + Container(ctx.key, iv, random, fin.data), fout.room)
    ensures r == 0 <==> |old(fout.data)| + |Container(ctx.key, iv, random, fin.data)| <= fout.room
    ensures r in {0, -7, -8}
  {
    hide Context.Valid, Encrypts, Whole, Padded, Chain, Lead, Enc, XorBlock, Clip;
    var inbuf, outbuf := new Byte[16], new Byte[16];
    forall k | 0 <= k < 16 { outbuf[k] := iv[k]; }
    var flen := |fin.data|;
    fin.Rewind();
    var n := fout.Write(outbuf[..]);
    inbuf[0] := Lead(flen, random);
    var i, l := 0, 15;
    ghost var p := Padded(fin.data, random);
    ghost var base := old(fout.data);
    ghost var done := 0;
    PaddedAt(fin.data, random);
    Started(base, ctx.key, iv, p, fout.room);
    assert outbuf[..] == iv;
    while !fin.eof
      invariant !fin.eof && Encrypting(ctx) && (l == 15 || l == 16)
      invariant (l == 15 ==> done == 0 && fin.pos == 0 && inbuf[0] == p[0]) && (l == 16 ==> done > 0 && fin.pos == done - 1)
      invariant fin.pos <= |fin.data| && |fout.data| <= fout.room && (l == 16 ==> |base| + 16 + done <= fout.room)
      invariant Written(base, ctx.key, iv, p, done, outbuf[..], fout.data, fout.room)
      decreases |fin.data| - fin.pos
    {
      i := fin.Read(inbuf, 16 - l, l);
      if i < l { break; }
      FullBlock(fin.data, random, done, l, inbuf[..]);
      ghost var data, prev := fout.data, outbuf[..];
      var w := Emit(inbuf, outbuf, fout, ctx);
      Step(base, ctx.key, iv, p, done, prev, data, fout.room, outbuf[..]);
      done := done + 16;
      if w != 16 {
        Overflow(base, ctx.key, iv, p, done, outbuf[..], fout.data, fout.room);
        return -7;
      }
      l := 16;
    }
    if l == 15 { i := i + 1; }
    r := EncTail(fin.data, i, inbuf, outbuf, fout, ctx, iv, random, base, done);
  }

  // ---- decfile ----

  ghost predicate Decrypting(ctx: Context)
    reads ctx, ctx.eKey, ctx.dKey
  {
    ctx.Valid() && Decrypts(ctx.mode) && |ctx.key| > 0
  }

  // One block: decrypted and unchained from the one before.
  method Open(block: seq<Byte>, prev: array<Byte>, outbuf: array<Byte>, ctx: Context)
    requires Decrypting(ctx) && outbuf !in ctx.Arrays()
    requires |block| == 16 && prev.Length == 16 && outbuf.Length == 16 && prev != outbuf
    modifies outbuf
    ensures outbuf[..] == XorBlock(Dec(ctx.key, block), prev[..])
  {
    hide XorBlock, Context.Valid, Decrypts, Block, Decrypted, Flat;
    var good := ctx.Decrypt(block, outbuf);
    BytesOfBlock(outbuf[..]);
    XorInto(outbuf, prev);
  }

  // The plain bytes that are known to belong to the file when another block follows.
  function Front(p: seq<Byte>): seq<Byte>
    requires |p| >= 16
  {
    if |p| == 16 then [] else p[1..|p| - 16]
  }

  // The first q bytes are read, and all that is decrypted but the last block is written.
  ghost predicate Taken(base: seq<Byte>, key: seq<C.Col>, data: seq<Byte>, q: nat, last: seq<Byte>, prev: seq<Byte>, flen: nat, out: seq<Byte>, room: nat) {
    && |key| > 0 && 32 <= q <= |data| && Whole(q)
    && var p := Unchain(key, data[..q]);
       && last == p[|p| - 16..] && prev == data[q - 16..q] && flen == LengthCode(p[0])
       && out == base + Front(p) && |out| <= room
  }

  lemma UnchainNext(key: seq<C.Col>, data: seq<Byte>, q: nat)
    requires |key| > 0 && 16 <= q && q + 16 <= |data| && Whole(q)
    ensures Whole(q + 16)
    ensures Unchain(key, data[..q + 16]) == Unchain(key, data[..q]) + XorBlock(Dec(key, data[q..q + 16]), data[q - 16..q])
  {
    hide Whole, Dec, XorBlock;
    WholeSteps(q);
    var c := data[..q + 16];
    assert c[..|c| - 16] == data[..q] && c[|c| - 16..] == data[q..q + 16] && c[|c| - 32..|c| - 16] == data[q - 16..q];
  }

  lemma {:induction false} UnchainGrows(key: seq<C.Col>, data: seq<Byte>, q: nat, e: nat)
    requires |key| > 0 && 16 <= q <= e <= |data| && Whole(q) && Whole(e)
    ensures Unchain(key, data[..q]) <= Unchain(key, data[..e])
  {
    hide Whole, Unchain, Dec, XorBlock;
    if q < e {
      WholeGap(q, e);
      WholeSteps(e);
      UnchainGrows(key, data, q, e - 16);
      UnchainNext(key, data, e - 16);
    }
  }

  lemma FirstBlock(base: seq<Byte>, key: seq<C.Col>, data: seq<Byte>, last: seq<Byte>, room: nat)
    requires |key| > 0 && 32 <= |data| && |base| <= room
    requires last == XorBlock(Dec(key, data[16..32]), data[..16])
    ensures Taken(base, key, data, 32, last, data[16..32], LengthCode(last[0]), base, room)
  {
    hide Dec, XorBlock, LengthCode;
    UnchainNext(key, data, 16);
    assert base + [] == base;
  }

  lemma NextBlock(base: seq<Byte>, key: seq<C.Col>, data: seq<Byte>, q: nat, last: seq<Byte>, prev: seq<Byte>, flen: nat, out: seq<Byte>, room: nat, l: nat, last': seq<Byte>)
    requires Taken(base, key, data, q, last, prev, flen, out, room) && q + 16 <= |data|
    requires l == (if q == 32 then 15 else 16) && |out| + l <= room
    requires last' == XorBlock(Dec(key, data[q..q + 16]), prev)
    ensures Taken(base, key, data, q + 16, last', data[q..q + 16], flen, out + last[16 - l..], room)
  {
    hide Dec, XorBlock, LengthCode, Whole, Unchain;
    UnchainNext(key, data, q);
    var p := Unchain(key, data[..q]);
    assert Front(p + last') == Front(p) + last[16 - l..];
    assert base + (Front(p) + last[16 - l..]) == base + Front(p) + last[16 - l..];
  }

  lemma FrontAndLast(p: seq<Byte>, q: nat, l: nat)
    requires Whole(q) && q >= 32 && |p| == q - 16 && l == if q == 32 then 15 else 16
    ensures Front(p) + p[|p| - 16..][16 - l..] == p[1..]
  {
  }

  lemma InContents(key: seq<C.Col>, data: seq<Byte>, q: nat)
    requires |key| > 0 && Whole(q) && 32 <= q && q + 16 <= |data|
    ensures Unchain(key, data[..q])[1..] <= Contents(key, data)
  {
    hide LengthCode, Whole, Unchain, AllWhole, Named;
    var e := AllWhole(|data|);
    WholeSteps(q);
    WholeBelow(|data|, q + 16);
    UnchainGrows(key, data, q, e);
    PrefixOfNamed(Unchain(key, data[..q]), Unchain(key, data[..e]));
  }

  lemma PrefixOfNamed(p: seq<Byte>, pe: seq<Byte>)
    requires 1 <= |p| && |p| + 16 <= |pe| && p <= pe
    ensures p[1..] <= Named(pe)
  {
    assert p[1..] == Named(pe)[..|p| - 1];
  }

  // A piece that did not fit: nothing after it would have.
  lemma NoRoom(base: seq<Byte>, key: seq<C.Col>, data: seq<Byte>, q: nat, last: seq<Byte>, prev: seq<Byte>, flen: nat, out: seq<Byte>, room: nat, l: nat)
    requires Taken(base, key, data, q, last, prev, flen, out, room) && q + 16 <= |data|
    requires l == (if q == 32 then 15 else 16) && |out| + l > room
    ensures Clip(out + last[16 - l..], room) == Clip(base + Contents(key, data), room) && |base| + |Contents(key, data)| > room
  {
    hide LengthCode, Whole, Unchain, Contents, Clip, Front;
    var p := Unchain(key, data[..q]);
    FrontAndLast(p, q, l);
    InContents(key, data, q);
    assert base + Front(p) + last[16 - l..] == base + p[1..];
    ClipFull(base + p[1..], base + Contents(key, data), room);
  }

  lemma WholeBelow(n: nat, q: nat)
    requires q <= n
    ensures Whole(AllWhole(n)) && (Whole(q) ==> q <= AllWhole(n)) && (Whole(q) && n < q + 16 ==> q == AllWhole(n))
  {
  }

  lemma LastPiece(base: seq<Byte>, key: seq<C.Col>, data: seq<Byte>, q: nat, last: seq<Byte>, prev: seq<Byte>, flen: nat, out: seq<Byte>, room: nat, l: nat)
    requires Taken(base, key, data, q, last, prev, flen, out, room) && |data| < q + 16
    requires l == if q == 32 then 1 else 0
    ensures flen < 16 && out + last[l..flen + 1] == base + Contents(key, data)
  {
    hide Dec, XorBlock, LengthCode, Whole, Unchain;
    WholeBelow(|data|, q);
    var p := Unchain(key, data[..q]);
    CodeFits(p[0]);
    assert Front(p) + last[l..flen + 1] == Contents(key, data);
    assert base + Front(p) + last[l..flen + 1] == base + (Front(p) + last[l..flen + 1]);
  }

  lemma CodeFits(lead: Byte)
    ensures LengthCode(lead) < 16
  {
    LowMask(lead);
  }

  // The outcome of decryption: the contents, as far as the device has room for them.
  ghost predicate Delivered(base: seq<Byte>, key: seq<C.Col>, data: seq<Byte>, out: seq<Byte>, room: nat, r: int)
    requires |key| > 0 && 32 <= |data|
  {
    out == Clip(base + Contents(key, data), room) && (r == 0 <==> |base| + |Contents(key, data)| <= room)
  }

  // What remains after the loop: the bytes of the last block that the length code names.
  method DecTail(code: nat, last: nat, outbuf: array<Byte>, fout: OutFile,
                 ghost data: seq<Byte>, ghost base: seq<Byte>, ghost key: seq<C.Col>, ghost q: nat, ghost prev: seq<Byte>) returns (r: int)
    requires outbuf.Length == 16 && |fout.data| <= fout.room && code < 16 && last == if q == 32 then 15 else 16
    requires |key| > 0 && 32 <= |data| < q + 16 && Taken(base, key, data, q, outbuf[..], prev, code, fout.data, fout.room)
    modifies fout
    ensures Delivered(base, key, data, fout.data, fout.room, r) && r in {0, -12}
  {
    hide Whole, Unchain, LengthCode, Dec, XorBlock, Contents, Front;
    var l := if last == 15 then 1 else 0;
    LastPiece(base, key, data, q, outbuf[..], prev, code, fout.data, fout.room, l);
    var flen := code + 1 - l;
    if flen != 0 {
      var w := fout.Write(outbuf[l..l + flen]);
      if w != flen { return -12; }
    }
    return 0;
  }

  // The loop, once the first block is in the output buffer.
  method DecBlocks(fin: InFile, fout: OutFile, ctx: Context, inbuf1: array<Byte>, inbuf2: array<Byte>, outbuf: array<Byte>, flen: nat,
                   ghost data: seq<Byte>, ghost base: seq<Byte>) returns (r: int)
    requires Decrypting(ctx) && {inbuf1, inbuf2, outbuf} !! ctx.Arrays() && inbuf1 != inbuf2 && outbuf !in {inbuf1, inbuf2}
    requires inbuf1.Length == 16 && inbuf2.Length == 16 && outbuf.Length == 16 && flen < 16
    requires fin.pos <= |fin.data| && 32 <= |data| && data[32..] == fin.data[fin.pos..]
    requires |fout.data| <= fout.room && Taken(base, ctx.key, data, 32, outbuf[..], inbuf2[..], flen, fout.data, fout.room)
    modifies fin, fout, inbuf1, inbuf2, outbuf
    ensures Delivered(base, ctx.key, data, fout.data, fout.room, r) && r in {0, -11, -12}
  {
    hide Context.Valid, Decrypts, Whole, Unchain, LengthCode, Dec, XorBlock, Contents, Taken, Front, Clip;
    var i, l, bp1, bp2 := 0, 15, inbuf1, inbuf2;
    ghost var q, prev := 32, bp2[..];
    while true
      invariant Decrypting(ctx) && l == (if q == 32 then 15 else 16) && prev == bp2[..]
      invariant {bp1, bp2} == {inbuf1, inbuf2} && bp1 != bp2 && |fout.data| <= fout.room
      invariant fin.pos <= |fin.data| && 32 <= q <= |data| && data[q..] == fin.data[fin.pos..]
      invariant Taken(base, ctx.key, data, q, outbuf[..], prev, flen, fout.data, fout.room)
      decreases |data| - q
    {
      ghost var out, last := fout.data, outbuf[..];
      i := fin.Read(bp1, 0, 16);
      if i != 16 { break; }
      assert bp1[..] == data[q..][..16] == data[q..q + 16];
      var w := fout.Write(outbuf[16 - l..]);
      Fitted(out, last[16 - l..], fout.data, fout.room);
      if w != l {
        NoRoom(base, ctx.key, data, q, last, prev, flen, out, fout.room, l);
        return -11;
      }
      Open(bp1[..], bp2, outbuf, ctx);
      NextBlock(base, ctx.key, data, q, last, prev, flen, out, fout.room, l, outbuf[..]);
      assert data[q + 16..] == data[q..][16..];
      l, q := 16, q + 16;
      bp1, bp2 := bp2, bp1;
      prev := bp2[..];
    }
    r := DecTail(flen, l, outbuf, fout, data, base, ctx.key, q, prev);
  }

  lemma Fitted(out: seq<Byte>, b: seq<Byte>, after: seq<Byte>, room: nat)
    requires after == Clip(out + b, room) && |out| <= room
    ensures |after| - |out| == |b| <==> |out| + |b| <= room
    ensures |out| + |b| <= room ==> after == out + b
  {
  }

  /** decfile: the file in the container, as far as the device has room for it; the result
      is zero exactly when all of it fits. A container too short to hold the vector or with
      a broken first block is refused. One with nothing after the vector is not detected:
      whatever the second buffer was left with is taken for its first block. */
  method DecFile(fin: InFile, fout: OutFile, ctx: Context) returns (r: int, ghost left: seq<Byte>)
    requires Decrypting(ctx) && fin.pos == 0 && |fout.data| <= fout.room
    modifies fin, fout
    ensures |left| == 16
    ensures |fin.data| < 16 ==> r == 9 && fout.data == old(fout.data)
    ensures 16 < |fin.data| < 32 ==> r == -10 && fout.data == old(fout.data)
    ensures |fin.data| == 16 ==> Delivered(old(fout.data), ctx.key, fin.data + left, fout.data, fout.room, r) && r in {0, -11, -12}
    ensures 32 <= |fin.data| ==> Delivered(old(fout.data), ctx.key, fin.data, fout.data, fout.room, r) && r in {0, -11, -12}
  {
    hide Context.Valid, Decrypts, Whole, Unchain, LengthCode, Dec, XorBlock, Contents, Taken, Front, Delivered;
    var inbuf1, inbuf2, outbuf := new Byte[16], new Byte[16], new Byte[16];
    left := inbuf2[..];
    ghost var data, base := fin.data, fout.data;
    var i := fin.Read(inbuf1, 0, 16);
    if i != 16 { return 9, left; }
    i := fin.Read(inbuf2, 0, 16);
    if i != 0 && i != 16 { return -10, left; }
    if i == 0 { data := data + left; }
    assert inbuf1[..] == data[..16] && inbuf2[..] == data[16..32];
    Open(inbuf2[..], inbuf1, outbuf, ctx);
    CodeFits(outbuf[0]);
    FirstBlock(base, ctx.key, data, outbuf[..], fout.room);
    r := DecBlocks(fin, fout, ctx, inbuf1, inbuf2, outbuf, LengthCode(outbuf[0]), data, base);
  }
}

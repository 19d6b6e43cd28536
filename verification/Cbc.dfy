/**
 The file format of `AES/src/main.c`: cipher block chaining over a header byte, the message and
 zero padding, where the low half of the header holds the length modulo 16.
 `encfile` and `decfile` on their buffers are proved to compute `Encoded` and `Decoded`, and
 decoding is proved to give back every message for any block cipher with an inverse.
 */
module Cbc {
  import opened Aes

  // ---------- the format ----------

  function XorBlock(a: Block, b: Block): Block {
    seq(16, i requires 0 <= i < 16 => a[i] ^ b[i])
  }

  /** Block `k` of a sequence of bytes. */
  function BlockAt(s: seq<bv8>, k: nat): Block
    requires 16 * k + 16 <= |s|
  {
    s[16 * k..16 * k + 16]
  }

  function LowNibble(n: nat): bv8 {
    (n % 16) as bv8
  }

  /** The header byte: the length modulo 16 below, random bits above. */
  function Header(m: seq<bv8>, rnd: bv8): bv8 {
    LowNibble(|m|) | (rnd & 0xf0)
  }

  /** What is encrypted: header, message and zeros, `|m| / 16 + 1` blocks. */
  function Padded(m: seq<bv8>, rnd: bv8): (p: seq<bv8>)
    ensures |p| == 16 * (|m| / 16 + 1)
  {
    [Header(m, rnd)] + m + seq(15 - |m| % 16, _ => 0)
  }

  /** The cipher blocks, counted from the initial vector (section 6.2 of NIST SP 800-38A). */
  function CipherBlock(e: Block -> Block, iv: Block, p: seq<bv8>, k: nat): Block
    requires 16 * k <= |p|
  {
    if k == 0 then iv else e(XorBlock(BlockAt(p, k - 1), CipherBlock(e, iv, p, k - 1)))
  }

  function CipherBlocks(e: Block -> Block, iv: Block, p: seq<bv8>, k: nat): (c: seq<bv8>)
    requires 16 * k <= |p|
    ensures |c| == 16 * (k + 1)
  {
    if k == 0 then iv else CipherBlocks(e, iv, p, k - 1) + CipherBlock(e, iv, p, k)
  }

  function Encoded(e: Block -> Block, iv: Block, rnd: bv8, m: seq<bv8>): seq<bv8> {
    CipherBlocks(e, iv, Padded(m, rnd), |m| / 16 + 1)
  }

  /** The bytes of the first `k` decrypted blocks. */
  function PlainBlocks(d: Block -> Block, c: seq<bv8>, k: nat): (p: seq<bv8>)
    requires 16 * k + 16 <= |c|
    ensures |p| == 16 * k
  {
    if k == 0 then [] else PlainBlocks(d, c, k - 1) + XorBlock(d(BlockAt(c, k)), BlockAt(c, k - 1))
  }

  /** The length of the message: whole blocks, and the low half of the header. */
  function MessageLength(d: Block -> Block, c: seq<bv8>): nat
    requires |c| >= 32
  {
    16 * (|c| / 16 - 2) + (XorBlock(d(BlockAt(c, 1)), BlockAt(c, 0))[0] & 15) as nat
  }

  datatype Outcome = Corrupt | Message(bytes: seq<bv8>)

  function Decoded(d: Block -> Block, c: seq<bv8>): Outcome {
    if |c| < 32 then Corrupt
    else Message(PlainBlocks(d, c, |c| / 16 - 1)[1..1 + MessageLength(d, c)])
  }

  // ---------- the round trip ----------

  lemma XorBlockTwice(a: Block, b: Block)
    ensures XorBlock(XorBlock(a, b), b) == a
  {
  }

  lemma {:induction false} BlockOfCipherBlocks(e: Block -> Block, iv: Block, p: seq<bv8>, n: nat, k: nat)
    requires 16 * n <= |p| && k <= n
    ensures BlockAt(CipherBlocks(e, iv, p, n), k) == CipherBlock(e, iv, p, k)
  {
    if k < n {
      BlockOfCipherBlocks(e, iv, p, n - 1, k);
    }
  }

  /** Each decrypted block is the plain one, so chaining is undone for any number of blocks. */
  lemma {:induction false} PlainUndone(e: Block -> Block, d: Block -> Block, iv: Block, p: seq<bv8>, n: nat, k: nat)
    requires forall b :: d(e(b)) == b
    requires 16 * n <= |p| && k <= n
    ensures PlainBlocks(d, CipherBlocks(e, iv, p, n), k) == p[..16 * k]
  {
    if k > 0 {
      PlainUndone(e, d, iv, p, n, k - 1);
      BlockOfCipherBlocks(e, iv, p, n, k);
      BlockOfCipherBlocks(e, iv, p, n, k - 1);
      XorBlockTwice(BlockAt(p, k - 1), CipherBlock(e, iv, p, k - 1));
      assert p[..16 * k] == p[..16 * (k - 1)] + BlockAt(p, k - 1);
    }
  }

  lemma HeaderLength(m: seq<bv8>, rnd: bv8)
    ensures (Header(m, rnd) & 15) as nat == |m| % 16
  {
    var n := LowNibble(|m|);
    assert n < 16;
    NibbleKept(n, rnd);
  }

  /** Above the length the header keeps random bits. */
  lemma HeaderNoise(m: seq<bv8>, rnd: bv8)
    ensures Header(m, rnd) & 0xf0 == rnd & 0xf0
  {
    NibbleAbove(LowNibble(|m|), rnd);
  }

  lemma NibbleAbove(n: bv8, rnd: bv8)
    requires n < 16
    ensures (n | (rnd & 0xf0)) & 0xf0 == rnd & 0xf0
  {
  }

  lemma NibbleKept(n: bv8, rnd: bv8)
    requires n < 16
    ensures (n | (rnd & 0xf0)) & 15 == n
  {
  }

  /** The file starts with the initial vector, and every further block is the cipher of plain text and block before. */
  lemma EncodedBlocks(e: Block -> Block, iv: Block, rnd: bv8, m: seq<bv8>, k: nat)
    requires k <= |m| / 16
    ensures var c := Encoded(e, iv, rnd, m);
      && |c| == 16 * (|m| / 16 + 2) && BlockAt(c, 0) == iv
      && BlockAt(c, k + 1) == e(seq(16, i requires 0 <= i < 16 => Padded(m, rnd)[16 * k + i] ^ c[16 * k + i]))
  {
    var p, n, c := Padded(m, rnd), |m| / 16 + 1, Encoded(e, iv, rnd, m);
    assert XorBlock(BlockAt(p, k), BlockAt(c, k)) == seq(16, i requires 0 <= i < 16 => p[16 * k + i] ^ c[16 * k + i]);
    BlockOfCipherBlocks(e, iv, p, n, 0);
    BlockOfCipherBlocks(e, iv, p, n, k);
    BlockOfCipherBlocks(e, iv, p, n, k + 1);
    hide Padded, BlockAt, XorBlock, CipherBlocks;
  }

  lemma FirstPlainBlock(e: Block -> Block, d: Block -> Block, iv: Block, p: seq<bv8>, n: nat)
    requires forall b :: d(e(b)) == b
    requires 16 * n <= |p| && n > 0
    ensures var c := CipherBlocks(e, iv, p, n); XorBlock(d(BlockAt(c, 1)), BlockAt(c, 0)) == p[..16]
  {
    hide XorBlock, CipherBlocks;
    var c := CipherBlocks(e, iv, p, n);
    PlainUndone(e, d, iv, p, n, 1);
    assert PlainBlocks(d, c, 0) == [];
    assert PlainBlocks(d, c, 1) == XorBlock(d(BlockAt(c, 1)), BlockAt(c, 0));
  }

  lemma EncodedLength(e: Block -> Block, d: Block -> Block, iv: Block, rnd: bv8, m: seq<bv8>)
    requires forall b :: d(e(b)) == b
    ensures var c := Encoded(e, iv, rnd, m); |c| == 16 * (|m| / 16 + 2) && MessageLength(d, c) == |m|
  {
    hide XorBlock, CipherBlocks, Header;
    FirstPlainBlock(e, d, iv, Padded(m, rnd), |m| / 16 + 1);
    assert Padded(m, rnd)[..16][0] == Header(m, rnd);
    HeaderLength(m, rnd);
  }

  /** Decoding gives back the message and its exact length, for every message, initial vector and header filling. */
  lemma DecodeEncode(e: Block -> Block, d: Block -> Block, iv: Block, rnd: bv8, m: seq<bv8>)
    requires forall b :: d(e(b)) == b
    ensures Decoded(d, Encoded(e, iv, rnd, m)) == Message(m)
  {
    hide XorBlock, CipherBlocks, Header, MessageLength, Padded, PlainBlocks;
    var p, n := Padded(m, rnd), |m| / 16 + 1;
    EncodedLength(e, d, iv, rnd, m);
    PlainUndone(e, d, iv, p, n, n);
    PaddedHolds(m, rnd);
  }

  lemma PaddedHolds(m: seq<bv8>, rnd: bv8)
    ensures Padded(m, rnd)[..16 * (|m| / 16 + 1)] == Padded(m, rnd) && Padded(m, rnd)[1..1 + |m|] == m
  {
    hide Header;
  }

  /** The cipher of `Aes` in this format. */
  function EncryptWith(key: seq<bv32>, big: bool): Block -> Block
    requires KeySize(|key|)
  {
    b => EncryptBlock(key, b, big)
  }

  function DecryptWith(key: seq<bv32>, big: bool): Block -> Block
    requires KeySize(|key|)
  {
    b => DecryptBlock(key, b, big)
  }

  lemma AesFileRoundTrip(key: seq<bv32>, big: bool, iv: Block, rnd: bv8, m: seq<bv8>)
    requires KeySize(|key|)
    ensures Decoded(DecryptWith(key, big), Encoded(EncryptWith(key, big), iv, rnd, m)) == Message(m)
  {
    var e, d := EncryptWith(key, big), DecryptWith(key, big);
    forall b: Block ensures d(e(b)) == b {
      DecryptInverts(key, b, big);
    }
    DecodeEncode(e, d, iv, rnd, m);
  }

  // ---------- the file routines ----------

  /** `memcpy`. */
  method Copy(dst: array<bv8>, at: nat, src: array<bv8>, from: nat, n: nat)
    requires dst != src && at + n <= dst.Length && from + n <= src.Length
    modifies dst
    ensures dst[..at] == old(dst[..at]) && dst[at..at + n] == src[from..from + n] && dst[at + n..] == old(dst[at + n..])
  {
    for i := 0 to n
      invariant dst[..at] == old(dst[..at]) && dst[at + n..] == old(dst[at + n..])
      invariant dst[at..at + i] == src[from..from + i]
    {
      dst[at + i] := src[from + i];
    }
  }

  /** `a[i] ^= b[i]` for a block. */
  method XorInto(a: array<bv8>, b: array<bv8>)
    requires a.Length == b.Length == 16 && a != b
    modifies a
    ensures a[..] == XorBlock(old(a[..]), b[..])
  {
    for i := 0 to 16
      invariant forall j :: 0 <= j < 16 ==> a[j] == if j < i then old(a[j]) ^ b[j] else old(a[j])
    {
      a[i] := a[i] ^ b[i];
    }
  }

  /** The number of message bytes in the first `k` blocks. */
  function Consumed(k: nat): nat {
    if k == 0 then 0 else 16 * k - 1
  }

  /** The byte that comes at place `i` of what is encrypted. */
  lemma PaddedAt(m: seq<bv8>, rnd: bv8, i: nat)
    requires i < 16 * (|m| / 16 + 1)
    ensures Padded(m, rnd)[i] == if i == 0 then Header(m, rnd) else if i <= |m| then m[i - 1] else 0
  {
  }

  /** Message bytes up to `n` are in their places in the buffer for block `k`; in the first block, so is the header. */
  ghost predicate Filled(m: seq<bv8>, rnd: bv8, k: nat, n: nat, inbuf: Block) {
    && Consumed(k) <= n <= |m|
    && (k == 0 ==> inbuf[0] == Header(m, rnd))
    && forall j :: 0 <= j < 16 && 0 < 16 * k + j <= n ==> inbuf[j] == m[16 * k + j - 1]
  }

  /** A full buffer is block `k`. */
  lemma FullBuffer(m: seq<bv8>, rnd: bv8, k: nat, inbuf: Block)
    requires Filled(m, rnd, k, 16 * k + 15, inbuf)
    ensures 16 * k + 16 <= |Padded(m, rnd)| && BlockAt(Padded(m, rnd), k) == inbuf
  {
    forall j | 0 <= j < 16 ensures Padded(m, rnd)[16 * k + j] == inbuf[j] {
      PaddedAt(m, rnd, 16 * k + j);
    }
  }

  /** A buffer with zeros from `i` on. */
  function Cleared(b: Block, i: nat): Block {
    seq(16, j requires 0 <= j < 16 => if j < i then b[j] else 0)
  }

  /** The last buffer, cleared behind the end of the message, is block `k`. */
  lemma LastBuffer(m: seq<bv8>, rnd: bv8, k: nat, b: Block)
    requires Filled(m, rnd, k, |m|, b) && 0 <= |m| - 16 * k < 16
    ensures 16 * k + 16 <= |Padded(m, rnd)| && BlockAt(Padded(m, rnd), k) == Cleared(b, |m| + 1 - 16 * k)
  {
    var c := Cleared(b, |m| + 1 - 16 * k);
    forall j | 0 <= j < 16 ensures Padded(m, rnd)[16 * k + j] == c[j] {
      PaddedAt(m, rnd, 16 * k + j);
    }
  }

  /** The context is keyed for encryption. */
  ghost predicate CanEncrypt(ctx: Context, key: seq<bv32>)
    reads ctx, ctx.eKey, ctx.dKey
  {
    KeySize(|key|) && ctx.mode & 1 != 0 && ctx.Keyed(key)
  }

  /** The state of `encfile` after `k` blocks; `was` is what the output held before. */
  ghost predicate Encoding(key: seq<bv32>, big: bool, iv: Block, p: seq<bv8>, k: nat, outbuf: seq<bv8>, fout: seq<bv8>,
                           was: seq<bv8>)
    requires KeySize(|key|)
  {
    && 16 * k <= |p| && 16 * (k + 1) <= |fout| == |was| && fout[16 * (k + 1)..] == was[16 * (k + 1)..]
    && outbuf == CipherBlock(EncryptWith(key, big), iv, p, k)
    && fout[..16 * (k + 1)] == CipherBlocks(EncryptWith(key, big), iv, p, k)
  }

  /** The rest of the work on a block: chain, encrypt and output. */
  method EmitBlock(inbuf: array<bv8>, outbuf: array<bv8>, fout: array<bv8>, writebytes: nat, ctx: Context, big: bool,
                   ghost key: seq<bv32>, ghost iv: Block, ghost p: seq<bv8>, ghost k: nat,
                   ghost was: seq<bv8>)
    requires KeySize(|key|) && CanEncrypt(ctx, key)
    requires inbuf.Length == outbuf.Length == 16 && inbuf != outbuf && fout != inbuf && fout != outbuf
    requires writebytes == 16 * (k + 1) && writebytes + 16 <= fout.Length && 16 * k + 16 <= |p|
    requires inbuf[..] == BlockAt(p, k) && Encoding(key, big, iv, p, k, outbuf[..], fout[..], was)
    modifies inbuf, outbuf, fout
    ensures Encoding(key, big, iv, p, k + 1, outbuf[..], fout[..], was)
  {
    hide XorBlock, EncryptBlock, EnciphersTo;
    XorInto(inbuf, outbuf);
    assert inbuf[..16] == inbuf[..] && outbuf[..16] == outbuf[..];
    var ret := ctx.Encrypt(inbuf, outbuf, big, key);
    assert outbuf[..16] == outbuf[..];
    Copy(fout, writebytes, outbuf, 0, 16);
    assert fout[..writebytes + 16] == fout[..writebytes] + fout[writebytes..writebytes + 16];
  }

  /** `while (i < 16) inbuf[i++] = 0`. */
  method ClearFrom(inbuf: array<bv8>, i: nat)
    requires inbuf.Length == 16 && i <= 16
    modifies inbuf
    ensures inbuf[..] == Cleared(old(inbuf[..]), i)
  {
    for c := i to 16
      invariant forall j :: 0 <= j < 16 ==> inbuf[j] == if j < i || c <= j then old(inbuf[j]) else 0
    {
      inbuf[c] := 0;
    }
  }

  /** Up to `n` the buffer has been filled; more message bytes after them fill it further. */
  method Refill(inbuf: array<bv8>, fin: array<bv8>, l: nat, readbytes: nat, n: nat, ghost m: seq<bv8>, ghost rnd: bv8, ghost k: nat)
    requires inbuf.Length == 16 && inbuf != fin && |m| <= fin.Length && fin[..|m|] == m
    requires l == (if k == 0 then 15 else 16) && readbytes == Consumed(k) && n <= l && readbytes + n <= |m|
    requires Filled(m, rnd, k, readbytes, inbuf[..])
    modifies inbuf
    ensures Filled(m, rnd, k, readbytes + n, inbuf[..])
  {
    hide Header;
    ghost var before := inbuf[..];
    Copy(inbuf, 16 - l, fin, readbytes, n);
    assert k == 0 ==> inbuf[0] == inbuf[..1][0] == before[..1][0];
    forall j | 0 <= j < 16 && 0 < 16 * k + j <= readbytes + n ensures inbuf[j] == m[16 * k + j - 1] {
      assert inbuf[j] == inbuf[16 - l..16 - l + n][j - (16 - l)] == fin[readbytes..readbytes + n][j - (16 - l)];
      assert fin[16 * k + j - 1] == fin[..|m|][16 * k + j - 1];
    }
  }

  /** At the start of a block nothing needs to be in the buffer, but for the header. */
  lemma NothingYet(m: seq<bv8>, rnd: bv8, k: nat, inbuf: Block)
    requires k > 0 && Consumed(k) <= |m|
    ensures Filled(m, rnd, k, Consumed(k), inbuf)
  {
  }

  /** The start of `encfile`: the initial vector, and the header byte. */
  method StartFile(inbuf: array<bv8>, outbuf: array<bv8>, fout: array<bv8>, length: nat, iv: Block, rnd: bv8,
                   ghost key: seq<bv32>, ghost big: bool, ghost m: seq<bv8>)
    requires inbuf.Length == outbuf.Length == 16 && inbuf != outbuf && fout != inbuf && fout != outbuf
    requires KeySize(|key|) && |m| == length && fout.Length >= 16
    modifies inbuf, outbuf, fout
    ensures Filled(m, rnd, 0, 0, inbuf[..])
    ensures Encoding(key, big, iv, Padded(m, rnd), 0, outbuf[..], fout[..], old(fout[..]))
  {
    forall j | 0 <= j < 16 { outbuf[j] := iv[j]; }
    assert outbuf[..] == iv;
    Copy(fout, 0, outbuf, 0, 16);
    inbuf[0] := LowNibble(length) | (rnd & 0xf0);
  }

  /** `encfile`; the initial vector and the top half of the header come from the random generator. */
  method EncFile(fin: array<bv8>, fout: array<bv8>, ctx: Context, length: nat, iv: Block, rnd: bv8, big: bool,
                 ghost key: seq<bv32>) returns (writebytes: nat)
    requires KeySize(|key|) && CanEncrypt(ctx, key)
    requires fin != fout && length <= fin.Length && 16 * (length / 16 + 2) <= fout.Length
    modifies fout
    ensures writebytes == 16 * (length / 16 + 2)
    ensures fout[..writebytes] == Encoded(EncryptWith(key, big), iv, rnd, fin[..length])
    ensures fout[writebytes..] == old(fout[writebytes..])
  {
    hide CanEncrypt, Encoding, Padded, Encoded, EncryptWith, Filled, BlockAt;
    ghost var m, was := fin[..length], fout[..];
    ghost var p := Padded(m, rnd);
    var inbuf, outbuf := new bv8[16], new bv8[16];
    StartFile(inbuf, outbuf, fout, length, iv, rnd, key, big, m);
    writebytes := 16;
    var i, l, readbytes := 0, 15, 0;
    ghost var k := 0;
    while readbytes < length
      invariant i == 0 && l == (if k == 0 then 15 else 16) && readbytes == Consumed(k) <= length
      invariant writebytes == 16 * (k + 1) && Filled(m, rnd, k, readbytes, inbuf[..])
      invariant Encoding(key, big, iv, p, k, outbuf[..], fout[..], was)
      invariant fin[..length] == m
    {
      i := length - readbytes;
      var n := if i < l then i else l;
      Refill(inbuf, fin, l, readbytes, n, m, rnd, k);
      readbytes := readbytes + n;
      if i < l { break; }
      FullBuffer(m, rnd, k, inbuf[..]);
      EmitBlock(inbuf, outbuf, fout, writebytes, ctx, big, key, iv, p, k, was);
      writebytes := writebytes + 16;
      l, i, k := 16, 0, k + 1;
      NothingYet(m, rnd, k, inbuf[..]);
    }
    if l == 15 {
      i := i + 1;
    }
    writebytes := FinishFile(inbuf, outbuf, fout, writebytes, i, ctx, big, key, iv, m, rnd, k, was);
  }

  /** The end of `encfile`: if bytes remain, the last block. */
  method FinishFile(inbuf: array<bv8>, outbuf: array<bv8>, fout: array<bv8>, written: nat, i: nat, ctx: Context, big: bool,
                    ghost key: seq<bv32>, ghost iv: Block, ghost m: seq<bv8>, ghost rnd: bv8, ghost k: nat,
                    ghost was: seq<bv8>) returns (writebytes: nat)
    requires KeySize(|key|) && CanEncrypt(ctx, key)
    requires inbuf.Length == outbuf.Length == 16 && inbuf != outbuf && fout != inbuf && fout != outbuf
    requires written == 16 * (k + 1) && 16 * (|m| / 16 + 2) <= fout.Length
    requires Encoding(key, big, iv, Padded(m, rnd), k, outbuf[..], fout[..], was)
    requires i == |m| + 1 - 16 * k < 16 && (i != 0 ==> Filled(m, rnd, k, |m|, inbuf[..]))
    modifies inbuf, outbuf, fout
    ensures writebytes == 16 * (|m| / 16 + 2)
    ensures fout[..writebytes] == Encoded(EncryptWith(key, big), iv, rnd, m)
    ensures fout[writebytes..] == was[writebytes..]
  {
    writebytes := written;
    ghost var n := k;
    hide CanEncrypt, Encoding, Padded, Encoded, EncryptWith, Filled, Cleared, BlockAt;
    if i != 0 {
      ghost var before := inbuf[..];
      ClearFrom(inbuf, i);
      LastBuffer(m, rnd, k, before);
      EmitBlock(inbuf, outbuf, fout, writebytes, ctx, big, key, iv, Padded(m, rnd), k, was);
      writebytes, n := writebytes + 16, k + 1;
    }
    EncodingDone(key, big, iv, m, rnd, n, outbuf[..], fout[..], was);
  }

  lemma EncodingDone(key: seq<bv32>, big: bool, iv: Block, m: seq<bv8>, rnd: bv8, k: nat, outbuf: seq<bv8>, fout: seq<bv8>,
                     was: seq<bv8>)
    requires KeySize(|key|) && Encoding(key, big, iv, Padded(m, rnd), k, outbuf, fout, was) && k == |m| / 16 + 1
    ensures fout[..16 * (k + 1)] == Encoded(EncryptWith(key, big), iv, rnd, m)
    ensures fout[16 * (k + 1)..] == was[16 * (k + 1)..]
  {
  }

  /** The plain block `k`, counted from 1. */
  function PlainBlock(d: Block -> Block, c: seq<bv8>, k: nat): Block
    requires 0 < k && 16 * k + 16 <= |c|
  {
    XorBlock(d(BlockAt(c, k)), BlockAt(c, k - 1))
  }

  /** The context is keyed for decryption. */
  ghost predicate CanDecrypt(ctx: Context, key: seq<bv32>)
    reads ctx, ctx.eKey, ctx.dKey
  {
    KeySize(|key|) && ctx.mode & 2 != 0 && ctx.DecKeyed(key)
  }

  /** The message bytes of the first `k` blocks have been written; `was` is what the output held before. */
  ghost predicate Written(d: Block -> Block, c: seq<bv8>, k: nat, fout: seq<bv8>, was: seq<bv8>) {
    && 16 * k + 16 <= |c| && Consumed(k) <= |fout| == |was|
    && fout[..Consumed(k)] == PlainBlocks(d, c, k)[if k == 0 then 0 else 1..]
    && fout[Consumed(k)..] == was[Consumed(k)..]
  }

  /** Decrypt a block and undo the chaining with the one before. */
  method Unchain(cur: array<bv8>, prev: array<bv8>, outbuf: array<bv8>, ctx: Context, big: bool, ghost key: seq<bv32>,
                 ghost c: seq<bv8>, ghost k: nat)
    requires KeySize(|key|) && CanDecrypt(ctx, key)
    requires cur.Length == prev.Length == outbuf.Length == 16 && cur != outbuf && prev != outbuf
    requires 0 < k && 16 * k + 16 <= |c| && cur[..] == BlockAt(c, k) && prev[..] == BlockAt(c, k - 1)
    modifies outbuf
    ensures outbuf[..] == PlainBlock(DecryptWith(key, big), c, k)
  {
    hide XorBlock, DecryptBlock;
    assert cur[..16] == cur[..];
    var ret := ctx.Decrypt(cur, outbuf, big, key);
    assert outbuf[..16] == outbuf[..];
    XorInto(outbuf, prev);
  }

  /** Write out a block that is known not to be the last. */
  method EmitPlain(fout: array<bv8>, writebytes: nat, outbuf: array<bv8>, l: nat,
                   ghost d: Block -> Block, ghost c: seq<bv8>, ghost k: nat, ghost was: seq<bv8>)
    requires fout != outbuf && outbuf.Length == 16 && 16 * k + 32 <= |c| <= fout.Length
    requires Written(d, c, k, fout[..], was) && writebytes == Consumed(k) && l == (if k == 0 then 15 else 16)
    requires outbuf[..] == PlainBlock(d, c, k + 1)
    modifies fout
    ensures Written(d, c, k + 1, fout[..], was)
  {
    hide XorBlock, BlockAt;
    ghost var p := PlainBlocks(d, c, k);
    assert PlainBlocks(d, c, k + 1) == p + outbuf[..];
    hide PlainBlocks, PlainBlock;
    Copy(fout, writebytes, outbuf, 16 - l, l);
    var n := writebytes + l;
    assert fout[..n] == fout[..writebytes] + fout[writebytes..n];
    assert (p + outbuf[..])[1..] == if k == 0 then outbuf[1..] else p[1..] + outbuf[..];
    assert outbuf[16 - l..16 - l + l] == if k == 0 then outbuf[1..] else outbuf[..];
    assert n == Consumed(k + 1) && fout[n..] == was[writebytes..][l..];
  }

  /** The end of `decfile`: as many bytes of the last block as the header says. */
  method FinishPlain(fout: array<bv8>, writebytes: nat, outbuf: array<bv8>, l0: nat, flen0: nat,
                     ghost d: Block -> Block, ghost c: seq<bv8>, ghost k: nat, ghost was: seq<bv8>) returns (written: nat)
    requires fout != outbuf && outbuf.Length == 16 && |c| <= fout.Length && k + 2 == |c| / 16
    requires Written(d, c, k, fout[..], was) && writebytes == Consumed(k) && l0 == (if k == 0 then 15 else 16)
    requires outbuf[..] == PlainBlock(d, c, k + 1) && flen0 == MessageLength(d, c) - 16 * k < 16
    modifies fout
    ensures written <= fout.Length && Decoded(d, c) == Message(fout[..written]) && fout[written..] == was[written..]
  {
    hide XorBlock, BlockAt, MessageLength, PlainBlocks, PlainBlock;
    var l := if l0 == 15 then 1 else 0;
    var flen := flen0 + 1 - l;
    written := writebytes;
    if flen != 0 {
      Copy(fout, writebytes, outbuf, l, flen);
      written := written + flen;
    }
    assert fout[..written] == fout[..writebytes] + outbuf[l..l + flen];
    ghost var b := PlainBlock(d, c, k + 1);
    assert outbuf[l..l + flen] == if k == 0 then b[1..flen0 + 1] else b[..flen0 + 1];
    assert fout[..writebytes] == old(fout[..writebytes]);
    assert fout[written..] == old(fout[..])[written..];
    LastPart(d, c, k, flen0);
  }

  /** The message is what was written before and the part of the last block that counts. */
  lemma LastPart(d: Block -> Block, c: seq<bv8>, k: nat, flen: nat)
    requires k + 2 == |c| / 16 && flen == MessageLength(d, c) - 16 * k < 16
    ensures var b := PlainBlock(d, c, k + 1);
      Decoded(d, c) == Message(if k == 0 then b[1..flen + 1] else PlainBlocks(d, c, k)[1..] + b[..flen + 1])
  {
    hide XorBlock, BlockAt, MessageLength;
    var p, q, b := PlainBlocks(d, c, k + 1), PlainBlocks(d, c, k), PlainBlock(d, c, k + 1);
    assert p == q + b;
    if k == 0 {
      assert p == b;
    } else {
      SliceAcross(q, b, flen + 1);
      assert |q| + (flen + 1) == 1 + MessageLength(d, c);
    }
  }

  lemma SliceAcross(q: seq<bv8>, b: seq<bv8>, n: nat)
    requires |q| > 0 && n <= |b|
    ensures (q + b)[1..|q| + n] == q[1..] + b[..n]
  {
  }

  /** The low half of the header byte. */
  function HeaderNibble(b: Block): nat {
    (b[0] & 15) as nat
  }

  lemma LengthFromHeader(d: Block -> Block, c: seq<bv8>)
    requires |c| >= 32
    ensures MessageLength(d, c) == 16 * (|c| / 16 - 2) + HeaderNibble(PlainBlock(d, c, 1)) && HeaderNibble(PlainBlock(d, c, 1)) < 16
  {
    var b := PlainBlock(d, c, 1)[0] & 15;
    assert b < 16;
  }

  /** `decfile`; a trailing part of a block is read but not used. */
  method DecFile(fin: array<bv8>, fout: array<bv8>, ctx: Context, length: nat, big: bool, ghost key: seq<bv32>)
    returns (ret: int)
    requires KeySize(|key|) && CanDecrypt(ctx, key)
    requires fin != fout && length <= fin.Length && length <= fout.Length
    modifies fout
    ensures match Decoded(DecryptWith(key, big), fin[..length])
      case Corrupt => ret == -1 && fout[..] == old(fout[..])
      case Message(m) => ret == |m| <= fout.Length && fout[..ret] == m && fout[ret..] == old(fout[ret..])
  {
    hide CanDecrypt, Written, PlainBlock, MessageLength, DecryptWith, BlockAt, PlainBlocks, HeaderNibble;
    if length < 32 {
      ret := -1;
    } else {
      ghost var c, was, d := fin[..length], fout[..], DecryptWith(key, big);
      var inbuf1, inbuf2, outbuf := new bv8[16], new bv8[16], new bv8[16];
      ReadBlock(inbuf1, fin, 0, 16, c);
      ReadBlock(inbuf2, fin, 16, 16, c);
      var readbytes, writebytes := 32, 0;
      Unchain(inbuf2, inbuf1, outbuf, ctx, big, key, c, 1);
      var flen := HeaderNibble(outbuf[..]);
      LengthFromHeader(d, c);
      var l := 15;
      var bp1, bp2 := inbuf1, inbuf2;
      ghost var k: nat := 0;
      NothingWritten(d, c, was);
      while true
        invariant 0 <= k && 16 * k + 32 <= length && readbytes == 16 * k + 32 && writebytes == Consumed(k)
        invariant l == (if k == 0 then 15 else 16)
        invariant {bp1, bp2} == {inbuf1, inbuf2}
        invariant bp2[..] == BlockAt(c, k + 1) && outbuf[..] == PlainBlock(d, c, k + 1)
        invariant Written(d, c, k, fout[..], was) && fin[..length] == c
        decreases length - readbytes
      {
        var i := length - readbytes;
        ReadBlock(bp1, fin, readbytes, if i < 16 then i else 16, c);
        readbytes := readbytes + if i < 16 then i else 16;
        if i < 16 { break; }
        EmitPlain(fout, writebytes, outbuf, l, d, c, k, was);
        writebytes := writebytes + l;
        Unchain(bp1, bp2, outbuf, ctx, big, key, c, k + 2);
        l := 16;
        bp1, bp2 := bp2, bp1;
        k := k + 1;
      }
      ret := FinishPlain(fout, writebytes, outbuf, l, flen, d, c, k, was);
    }
  }

  lemma NothingWritten(d: Block -> Block, c: seq<bv8>, was: seq<bv8>)
    requires |c| >= 16
    ensures Written(d, c, 0, was, was)
  {
  }

  /** Read a block, or what there is of it. */
  method ReadBlock(buf: array<bv8>, fin: array<bv8>, readbytes: nat, n: nat, ghost c: seq<bv8>)
    requires buf.Length == 16 && buf != fin && |c| <= fin.Length && fin[..|c|] == c
    requires readbytes % 16 == 0 && readbytes + n <= |c| && n <= 16
    modifies buf
    ensures n == 16 ==> buf[..] == BlockAt(c, readbytes / 16)
  {
    Copy(buf, 0, fin, readbytes, n);
    if n == 16 {
      assert buf[..] == buf[0..16] == fin[readbytes..readbytes + 16] == c[readbytes..readbytes + 16];
    }
  }
}

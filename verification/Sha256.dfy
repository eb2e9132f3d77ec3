/**
 Streaming SHA-256: buffering and padding, over an arbitrary compression function.

 `Digest` is the definition: pad the message as section 5.1.1 of FIPS 180-4 says and fold the compression
 function over its 64-byte blocks. The object reaches the same chaining value however the message was cut.
 */
module Sha256 {
  import opened Common
  import opened Bits

  const BLOCK: nat := 64
  const LENGTH_AT: nat := 56

  type Byte = x: int | 0 <= x < 256

  function Zeros(n: nat): seq<Byte> { seq(n, i => 0) }

  /** Fold the compression function over the message's 64-byte blocks. */
  function Fold<H>(compress: (H, seq<Byte>) -> H, h0: H, blocks: seq<Byte>): H {
    if |blocks| < BLOCK then h0
    else compress(Fold(compress, h0, blocks[..|blocks| - BLOCK]), blocks[|blocks| - BLOCK..])
  }

  /** A 64-bit number, most significant byte first. */
  function BigEndian(n: nat, bytes: nat): (s: seq<Byte>)
    ensures |s| == bytes
  {
    if bytes == 0 then [] else BigEndian(n / 256, bytes - 1) + [n % 256]
  }

  /** How many zero bytes follow the 0x80: the fewest that leave 8 bytes in the last block. */
  function PadLength(n: nat): (k: nat)
    ensures k < BLOCK && (n + 1 + k) % BLOCK == LENGTH_AT
  {
    if n % BLOCK <= 55 then 55 - n % BLOCK else 119 - n % BLOCK
  }

  function Pad(msg: seq<Byte>): (p: seq<Byte>)
    ensures |p| % BLOCK == 0
  {
    msg + [0x80] + Zeros(PadLength(|msg|)) + BigEndian(8 * |msg|, 8)
  }

  function Digest<H>(compress: (H, seq<Byte>) -> H, h0: H, msg: seq<Byte>): H {
    Fold(compress, h0, Pad(msg))
  }

  lemma FoldBlock<H>(compress: (H, seq<Byte>) -> H, h0: H, blocks: seq<Byte>, block: seq<Byte>)
    requires |block| == BLOCK
    ensures Fold(compress, h0, blocks + block) == compress(Fold(compress, h0, blocks), block)
  {
    var all := blocks + block;
    assert all[..|all| - BLOCK] == blocks && all[|all| - BLOCK..] == block;
  }

  lemma ShrByte(n: nat, a: nat)
    ensures Shr(n, a + 8) == Shr(n / 256, a)
  {
    var n4 := n / 2 / 2 / 2 / 2;
    assert Shr(n, a + 8) == Shr(n / 2, a + 7) == Shr(n / 2 / 2, a + 6) == Shr(n / 2 / 2 / 2, a + 5) == Shr(n4, a + 4);
    assert Shr(n4, a + 4) == Shr(n4 / 2, a + 3) == Shr(n4 / 2 / 2, a + 2) == Shr(n4 / 2 / 2 / 2, a + 1);
    assert n4 / 2 / 2 / 2 / 2 == n / 256;
  }

  lemma {:induction false} BigEndianByte(n: nat, bytes: nat, i: nat)
    requires i < bytes
    ensures BigEndian(n, bytes)[i] == Shr(n, 8 * (bytes - 1 - i)) % 256
  {
    if i < bytes - 1 {
      BigEndianByte(n / 256, bytes - 1, i);
      ShrByte(n, 8 * (bytes - 2 - i));
    }
  }

  /** The length field as the source fills it: the bits shifted down by 56, 48, ... 0. */
  method LengthField(bits: nat) returns (field: seq<Byte>)
    ensures field == BigEndian(bits, 8)
  {
    field := [];
    for i := 0 to 8
      invariant field == BigEndian(bits, 8)[..i]
    {
      BigEndianByte(bits, 8, i);
      field := field + [Shr(bits, 56 - 8 * i) % 256];
    }
  }

  /** Unsigned 64-bit wrap-around. */
  function Wrap(n: nat): nat {
    if n < U64 then n else Wrap(n - U64)
  }

  lemma {:induction false} WrapIsModulo(n: nat)
    ensures Wrap(n) == n % U64
  {
    if n >= U64 { WrapIsModulo(n - U64); }
  }

  lemma {:induction false} WrapAdd(a: nat, b: nat)
    ensures Wrap(Wrap(a) + b) == Wrap(a + b)
  {
    if a >= U64 { WrapAdd(a - U64, b); }
  }

  /** Where the next byte goes in the buffer after `n` bytes. */
  function Position(n: nat): nat {
    if n == 0 then 0 else if Position(n - 1) == BLOCK - 1 then 0 else Position(n - 1) + 1
  }

  lemma {:induction false} PositionIsModulo(n: nat)
    ensures Position(n) == n % BLOCK
  {
    if n > 0 { PositionIsModulo(n - 1); }
  }

  lemma {:induction false} BufferPosition(m: nat, n: nat)
    requires Position(m) == 0 && n <= BLOCK
    ensures Position(m + n) == if n == BLOCK then 0 else n
  {
    if n > 0 { BufferPosition(m, n - 1); }
  }

  class Hasher<H> {
    const compress: (H, seq<Byte>) -> H
    const h0: H
    const buf: array<Byte>
    var bufLen: nat
    var total: nat
    var h: H
    /** The blocks compressed so far. */
    ghost var blocks: seq<Byte>

    /** The buffer holds the unfinished block, and the chaining value covers everything before it. */
    ghost predicate Buffered()
      reads this`bufLen, this`h, this`blocks, buf
    {
      && buf.Length == BLOCK
      && bufLen < BLOCK
      && Position(|blocks|) == 0
      && h == Fold(compress, h0, blocks)
    }

    /** The message so far. */
    ghost function Fed(): seq<Byte>
      requires Buffered()
      reads this`bufLen, this`h, this`blocks, buf
    {
      blocks + buf[..bufLen]
    }

    /** The 64-bit byte counter is the message length, wrapped. */
    ghost predicate Counted()
      requires Buffered()
      reads this, buf
    {
      total == Wrap(|Fed()|)
    }

    constructor (f: (H, seq<Byte>) -> H, start: H)
      ensures Buffered() && Counted() && fresh(buf) && compress == f && h0 == start && Fed() == []
    {
      compress, h0, h := f, start, start;
      buf := new Byte[BLOCK](i => 0);
      bufLen, total, blocks := 0, 0, [];
    }

    /** `memcpy` into the free part of the buffer. */
    method Copy(data: seq<Byte>)
      requires bufLen + |data| <= buf.Length
      modifies buf
      ensures buf[..bufLen + |data|] == old(buf[..bufLen]) + data
    {
      forall i | 0 <= i < |data| {
        buf[bufLen + i] := data[i];
      }
    }

    /** Copy a piece that fits the buffer, and compress the buffer when it is full. */
    method Feed(data: seq<Byte>)
      requires Buffered() && bufLen + |data| <= BLOCK
      modifies this`bufLen, this`h, this`blocks, buf
      ensures Buffered() && Fed() == old(Fed()) + data
    {
      ghost var before := Fed();
      Copy(data);
      bufLen := bufLen + |data|;
      assert before + data == blocks + buf[..bufLen];
      if bufLen == BLOCK {
        assert buf[..] == buf[..bufLen];
        FoldBlock(compress, h0, blocks, buf[..]);
        h := compress(h, buf[..]);
        BufferPosition(|blocks|, BLOCK);
        blocks := blocks + buf[..];
        bufLen := 0;
        assert blocks + buf[..0] == blocks;
      }
    }

    /** The copying loop of `update`. */
    method FeedAll(data: seq<Byte>)
      requires Buffered()
      modifies this`bufLen, this`h, this`blocks, buf
      ensures Buffered() && Fed() == old(Fed()) + data
    {
      var p := data;
      ghost var goal := Fed() + data;
      while p != []
        invariant Buffered() && Fed() + p == goal
        decreases |p|
      {
        var take := if |p| < BLOCK - bufLen then |p| else BLOCK - bufLen;
        assert Fed() + p == (Fed() + p[..take]) + p[take..];
        Feed(p[..take]);
        p := p[take..];
      }
    }

    /** Any cut of the message into calls is the same as one call with the whole of it. */
    method Update(data: seq<Byte>)
      requires Buffered()
      modifies this, buf
      ensures Buffered() && Fed() == old(Fed()) + data
      ensures old(Counted()) ==> Counted()
    {
      WrapAdd(|Fed()|, |data|);
      total := Wrap(total + |data|);
      FeedAll(data);
    }

    /** One byte more; the buffer position follows the message length. */
    method UpdateByte(b: Byte)
      requires Buffered()
      modifies this, buf
      ensures Buffered() && Fed() == old(Fed()) + [b] && bufLen == Position(|Fed()|)
    {
      Update([b]);
      BufferPosition(|blocks|, bufLen);
    }

    /** The message is `prefix` and `k` zeros, and the buffer position says so. */
    ghost predicate Padded(prefix: seq<Byte>, k: nat)
      reads this, buf
    {
      Buffered() && Fed() == prefix + Zeros(k) && bufLen == Position(|prefix| + k)
    }

    method AddZero(ghost prefix: seq<Byte>, ghost k: nat)
      requires Padded(prefix, k)
      modifies this, buf
      ensures Padded(prefix, k + 1)
    {
      ZerosNext(prefix, k);
      UpdateByte(0);
    }

    /** The 0x80 and the zeros, up to where the length field goes. */
    method FillToLength()
      requires Buffered()
      modifies this, buf
      ensures Buffered() && Fed() == old(Fed()) + [0x80] + Zeros(PadLength(|old(Fed())|))
    {
      ghost var n := |Fed()|;
      ghost var pad := PadLength(n);
      UpdateByte(0x80);
      ghost var prefix, k := Fed(), 0;
      ZerosNext(prefix, 0);
      while bufLen != LENGTH_AT
        invariant Padded(prefix, k) && k <= pad
        decreases pad - k
      {
        PadPosition(n, |prefix|, k);
        AddZero(prefix, k);
        k := k + 1;
      }
      PadPosition(n, |prefix|, k);
    }

    /** Padding and length field; the chaining value left is the digest of everything fed. */
    method Finish()
      requires Buffered() && Counted()
      modifies this, buf
      ensures Buffered() && h == Digest(compress, h0, old(Fed()))
    {
      ghost var msg := Fed();
      BitCount(|msg|);
      var bits := Wrap(total * 8);
      FillToLength();
      var field := LengthField(bits);
      Update(field);
      assert Fed() == Pad(msg);
      WholeBlocks(blocks, buf[..bufLen]);
    }
  }

  function Concat(pieces: seq<seq<Byte>>): seq<Byte> {
    if pieces == [] then [] else Concat(pieces[..|pieces| - 1]) + pieces[|pieces| - 1]
  }

  /** Hash a message cut into any pieces: the digest depends on the bytes only. */
  method HashPieces<H>(compress: (H, seq<Byte>) -> H, h0: H, pieces: seq<seq<Byte>>) returns (digest: H)
    ensures digest == Digest(compress, h0, Concat(pieces))
  {
    var hasher := new Hasher(compress, h0);
    for i := 0 to |pieces|
      invariant hasher.Buffered() && hasher.Counted() && fresh(hasher) && fresh(hasher.buf)
      invariant hasher.compress == compress && hasher.h0 == h0 && hasher.Fed() == Concat(pieces[..i])
    {
      assert pieces[..i + 1][..i] == pieces[..i];
      hasher.Update(pieces[i]);
    }
    assert pieces[..|pieces|] == pieces;
    hasher.Finish();
    digest := hasher.h;
  }

  function Pow256(k: nat): (p: nat)
    ensures p >= 1
  {
    if k == 0 then 1 else 256 * Pow256(k - 1)
  }

  lemma SplitModulo(n: nat, m: nat)
    requires m >= 1
    ensures (n % (256 * m)) % 256 == n % 256 && (n % (256 * m)) / 256 == (n / 256) % m
  {
    var q, r := (n / 256) / m, (n / 256) % m;
    assert n == (256 * m) * q + (256 * r + n % 256) by { assert n / 256 == m * q + r; }
    ModuloUnique(n, 256 * m, q, 256 * r + n % 256);
    ModuloUnique(256 * r + n % 256, 256, r, n % 256);
  }

  /** The field keeps the low bytes of the number. */
  lemma {:induction false} BigEndianWraps(n: nat, bytes: nat)
    ensures BigEndian(n % Pow256(bytes), bytes) == BigEndian(n, bytes)
  {
    if bytes > 0 {
      SplitModulo(n, Pow256(bytes - 1));
      BigEndianWraps(n / 256, bytes - 1);
    }
  }

  lemma SixtyFourBits()
    ensures Pow256(8) == U64
  {
  }

  /** The wrapped bit count fills the field with the same bytes as the exact one. */
  lemma BitCount(n: nat)
    ensures BigEndian(Wrap(Wrap(n) * 8), 8) == BigEndian(8 * n, 8)
  {
    WrappedBits(n);
    SixtyFourBits();
    FieldKeepsLowBytes(8 * n, 8, Wrap(Wrap(n) * 8));
  }

  lemma WrappedBits(n: nat)
    ensures Wrap(Wrap(n) * 8) == (8 * n) % U64
  {
    WrapIsModulo(n);
    WrapIsModulo(Wrap(n) * 8);
    ModuloTimes(n, 8, U64);
  }

  lemma FieldKeepsLowBytes(n: nat, bytes: nat, low: nat)
    requires low == n % Pow256(bytes)
    ensures BigEndian(low, bytes) == BigEndian(n, bytes)
  {
    BigEndianWraps(n, bytes);
  }

  lemma WholeBlocks(blocks: seq<Byte>, rest: seq<Byte>)
    requires Position(|blocks|) == 0 && |blocks + rest| % BLOCK == 0 && |rest| < BLOCK
    ensures blocks + rest == blocks
  {
    PositionIsModulo(|blocks + rest|);
    BufferPosition(|blocks|, |rest|);
  }

  lemma ZerosNext(prefix: seq<Byte>, k: nat)
    ensures prefix + Zeros(k) + [0] == prefix + Zeros(k + 1) && |prefix + Zeros(k)| == |prefix| + k
    ensures prefix + Zeros(0) == prefix
  {
  }

  /** The padding loop stops at the right place and not before. */
  lemma PadPosition(n: nat, m: nat, k: nat)
    requires m == n + 1 && k <= PadLength(n)
    ensures Position(m + k) == LENGTH_AT <==> k == PadLength(n)
  {
    PositionIsModulo(m + k);
  }
}

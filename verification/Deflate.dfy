/** The compressor as its callers see it: any number of calls, any output room, any flush. */
module Deflate {
  import opened Arith
  import opened Bits
  import opened BitIO
  import opened Format
  import opened Blocks
  import opened BlockSize
  import opened BlockFlush
  import Adler

  datatype Flush = No | Sync | Full | Finish
  datatype Status = BadParam | Okay | Done

  // ----- what a finished stream is

  function BigEndian(a: nat): (r: seq<byte>)
    requires a < 0x1_0000_0000
    ensures |r| == 4
  {
    [a / 256 / 256 / 256, a / 256 / 256 % 256, a / 256 % 256, a % 256]
  }

  /** Where the blocks of a stream start: after the zlib header if there is one. */
  function HeaderSize(zlib: bool): nat {
    if zlib then 16 else 0
  }

  lemma ChecksumFits(data: seq<byte>)
    ensures Adler.Checksum(data) < 0x1_0000_0000
  {
    hide Adler.SumA, Adler.SumB;
  }

  /** Bytes that inflate to the data, in a zlib wrapper (RFC 1950) if asked for. */
  ghost predicate Wrapped(bits: seq<bool>, zlib: bool, data: seq<byte>) {
    var r := Inflate(bits, HeaderSize(zlib), []);
    ChecksumFits(data);
    && r.Some? && r.value.1 == data
    && (if zlib then
      && At(bits, 0, BytesToBits([0x78, 0x01]))
      && At(bits, Aligned(r.value.0), BytesToBits(BigEndian(Adler.Checksum(data)))) && |bits| == Aligned(r.value.0) + 32
    else |bits| == Aligned(r.value.0))
  }

  lemma GapShift(pos: nat, k: nat)
    ensures Aligned(pos + 8 * k) - (pos + 8 * k) == Aligned(pos) - pos
  {
    hide Aligned;
    AlignedGap(pos);
    AlignedGap(pos + 8 * k);
    assert (pos + 8 * k) % 8 == pos % 8;
  }

  lemma StoredShift(pos: nat, k: nat, data: seq<byte>)
    requires |data| <= 0xFFFF
    ensures StoredBits(pos + 8 * k, data) == StoredBits(pos, data)
  {
    hide ToBits, BytesToBits, Aligned;
    GapShift(pos, k);
  }

  /** Whole bytes in front of a block do not change its bits. */
  lemma BlockShift(pos: nat, k: nat, final: bool, b: Block)
    requires ValidBlock(b)
    ensures BlockBits(pos + 8 * k, final, b) == BlockBits(pos, final, b)
  {
    hide StoredBits, ToBits, CodesBits, HeaderBits, StaticLit, StaticDst;
    if b.Stored? {
      StoredShift(pos + 3, k, b.data);
      assert pos + 8 * k + 3 == pos + 3 + 8 * k;
    }
  }

  /** A stream grows by a block and decodes to more of the data. */
  lemma StreamGrows(bytes: seq<byte>, carry: seq<bool>, start: nat, data: seq<byte>, final: bool, b: Block,
                    carry': seq<bool>)
    requires Decodes(BytesToBits(bytes) + carry, start, data) && ValidBlock(b) && BlockData(b, data).Some?
    requires carry' == carry + BlockBits(|carry|, final, b)
    ensures final ==> Complete(BytesToBits(bytes) + carry', start, BlockData(b, data).value)
    ensures !final ==> Decodes(BytesToBits(bytes) + carry', start, BlockData(b, data).value)
  {
    hide BytesToBits, BlockBits, BlockData, ValidBlock, Decodes, Complete;
    var p := BytesToBits(bytes) + carry;
    BlockShift(|carry|, |bytes|, final, b);
    assert |p| == |carry| + 8 * |bytes|;
    AddBlock(p, start, data, final, b);
    ConcatAssoc(BytesToBits(bytes), carry, BlockBits(|carry|, final, b));
  }

  // ----- the end of a flush

  /** An empty stored block, which brings the stream to a byte boundary. */
  method PutEmptyBlock(w: BitWriter)
    requires w.Valid()
    modifies w
    ensures w.Valid() && Sent(w.capacity, old(w.Bits()), old(w.clean), BlockBits(|old(w.Bits())|, false, Stored([])),
      w.Bits(), w.clean)
  {
    hide w.Bits, ToBits, Pow2, BytesToBits, Aligned, StoredBits;
    ghost var cap, b0, c0 := w.capacity, w.Bits(), w.clean;
    SmallPowers();
    w.PutBits(0, 3);
    ghost var b1, c1 := w.Bits(), w.clean;
    PutAlign(w);
    ghost var b2, c2 := w.Bits(), w.clean;
    PutLength(w, 0);
    ghost var b3, c3 := w.Bits(), w.clean;
    SentNothing(cap, b3, c3);
    NoBytes([]);
    StoredParts(cap, b0, c0, 3, b1, c1, b2, c2, [], b3, c3, b3, c3);
    EmptyBlockBits(|b0|);
  }

  lemma EmptyBlockBits(pos: nat)
    ensures BlockBits(pos, false, Stored([])) == ToBits(0, 3) + StoredBits(pos + 3, [])
  {
    assert ToBits(0, 3) == [false] + ToBits(0, 2);
    hide ToBits, StoredBits;
    ConcatAssoc([false], ToBits(0, 2), StoredBits(pos + 3, []));
  }

  ghost function Value(q: seq<byte>): nat
    requires |q| == 4
  {
    q[0] as nat * 0x100_0000 + q[1] as nat * 0x1_0000 + q[2] as nat * 256 + q[3] as nat
  }

  lemma ValueIs(a: nat)
    requires a < 0x1_0000_0000
    ensures Value(BigEndian(a)) == a
  {
    var x := a / 256;
    var y := x / 256;
    assert y == y / 256 * 256 + y % 256;
    assert x == y * 256 + x % 256;
    assert a == x * 256 + a % 256;
  }

  /** The top byte of a 32-bit number, and the number shifted up by a byte. */
  lemma TopByte(q: seq<byte>)
    requires |q| == 4
    ensures Value(q) < 0x1_0000_0000 && Value(q) / 0x100_0000 == q[0]
    ensures Value(q) * 256 % 0x1_0000_0000 == Value(q[1..] + [0])
  {
    assert Value(q) * 256 == q[0] as nat * 0x1_0000_0000 + Value(q[1..] + [0]);
  }

  /** The checksum, most significant byte first. */
  method PutChecksum(w: BitWriter, adler: nat)
    requires w.Valid() && adler < 0x1_0000_0000
    modifies w
    ensures w.Valid() && Sent(w.capacity, old(w.Bits()), old(w.clean), BytesToBits(BigEndian(adler)), w.Bits(), w.clean)
  {
    hide w.Bits, ToBits, Pow2, BytesToBits, Sent, Value, BigEndian;
    ghost var cap, b0, c0, all := w.capacity, w.Bits(), w.clean, BigEndian(adler);
    Pow2Eight();
    SentNothing(cap, b0, c0);
    NoBytes(all);
    ValueIs(adler);
    var a := adler;
    ghost var q := all;
    for i := 0 to 4
      invariant w.Valid() && Sent(cap, b0, c0, BytesToBits(all[..i]), w.Bits(), w.clean)
      invariant |q| == 4 && a == Value(q) && q[..4 - i] == all[i..]
    {
      ghost var b1, c1 := w.Bits(), w.clean;
      TopByte(q);
      assert q[0] == q[..4 - i][0] == all[i];
      w.PutBits(a / 0x100_0000, 8);
      a := a * 256 % 0x1_0000_0000;
      q := q[1..] + [0];
      SentMore(cap, b0, c0, BytesToBits(all[..i]), b1, c1, ToBits(all[i], 8), w.Bits(), w.clean);
      BytesToBitsSnoc(all[..i], all[i]);
      assert all[..i] + [all[i]] == all[..i + 1];
    }
    assert all[..4] == all;
  }

  // ----- the stream between blocks

  /** What has been written so far, the last bits of it not yet a byte, decodes to the data of the blocks sent. */
  ghost predicate Open(bytes: seq<byte>, carry: seq<bool>, zlib: bool, first: bool, data: seq<byte>) {
    if first then bytes == [] && carry == [] && data == []
    else Begun(bytes, carry, zlib, data)
  }

  ghost predicate Begun(bytes: seq<byte>, carry: seq<bool>, zlib: bool, data: seq<byte>) {
    && Decodes(BytesToBits(bytes) + carry, HeaderSize(zlib), data)
    && (zlib ==> At(BytesToBits(bytes) + carry, 0, BytesToBits([0x78, 0x01])))
  }

  lemma StreamStarts(zlib: bool, carry: seq<bool>)
    requires carry == if zlib then BytesToBits([0x78, 0x01]) else []
    ensures Begun([], carry, zlib, [])
  {
    assert BytesToBits([]) + carry == carry;
    hide BytesToBits;
    assert carry[0..|carry|] == carry;
    NothingDecoded(carry);
  }

  lemma AtStart(bits: seq<bool>, more: seq<bool>, w: seq<bool>)
    requires At(bits, 0, w) && bits <= more
    ensures At(more, 0, w)
  {
  }

  lemma StreamContinues(bytes: seq<byte>, carry: seq<bool>, zlib: bool, data: seq<byte>, b: Block, carry': seq<bool>,
                        more: seq<byte>)
    requires Begun(bytes, carry, zlib, data) && ValidBlock(b) && BlockData(b, data) == Some(more)
    requires carry' == carry + BlockBits(|carry|, false, b)
    ensures Begun(bytes, carry', zlib, more)
  {
    hide BytesToBits, BlockBits, BlockData, ValidBlock, Decodes, Complete, At;
    StreamGrows(bytes, carry, HeaderSize(zlib), data, false, b, carry');
    ConcatAssoc(BytesToBits(bytes), carry, BlockBits(|carry|, false, b));
    if zlib {
      AtStart(BytesToBits(bytes) + carry, BytesToBits(bytes) + carry', BytesToBits([0x78, 0x01]));
    }
  }

  /** What follows the last block. */
  ghost function Trailer(pos: nat, zlib: bool, data: seq<byte>): seq<bool> {
    ToBits(0, Aligned(pos) - pos) + SumBits(zlib, data)
  }

  ghost function SumBits(zlib: bool, data: seq<byte>): seq<bool> {
    ChecksumFits(data);
    if zlib then BytesToBits(BigEndian(Adler.Checksum(data))) else []
  }

  lemma CompleteUse(p: seq<bool>, start: nat, data: seq<byte>, bits: seq<bool>)
    requires Complete(p, start, data) && p <= bits
    ensures Inflate(bits, start, []) == Some((|p|, data))
  {
  }

  lemma WrapUp(p: seq<bool>, pad: seq<bool>, zlib: bool, data: seq<byte>, sum: seq<bool>)
    requires Complete(p, HeaderSize(zlib), data) && |p + pad| == Aligned(|p|)
    requires zlib ==> At(p, 0, BytesToBits([0x78, 0x01]))
    requires sum == SumBits(zlib, data)
    ensures Wrapped(p + pad + sum, zlib, data)
  {
    hide BytesToBits, Complete, At, Adler.Checksum, BigEndian, Aligned, Inflate;
    ChecksumFits(data);
    var bits := p + pad + sum;
    assert p <= bits;
    CompleteUse(p, HeaderSize(zlib), data, bits);
    if zlib {
      AtStart(p, bits, BytesToBits([0x78, 0x01]));
      AtHere(p + pad, sum);
    }
  }

  lemma StreamEnds(bytes: seq<byte>, carry: seq<bool>, zlib: bool, data: seq<byte>, b: Block, carry': seq<bool>,
                   more: seq<byte>)
    requires Begun(bytes, carry, zlib, data) && ValidBlock(b) && BlockData(b, data) == Some(more)
    requires carry' == carry + BlockBits(|carry|, true, b)
    ensures Wrapped(BytesToBits(bytes) + (carry' + Trailer(|carry'|, zlib, more)), zlib, more)
  {
    hide BytesToBits, BlockBits, BlockData, ValidBlock, Decodes, Complete, At, Adler.Checksum, BigEndian, Aligned,
      ToBits, Wrapped, SumBits;
    StreamGrows(bytes, carry, HeaderSize(zlib), data, true, b, carry');
    var pre := BytesToBits(bytes);
    var p := pre + carry';
    var pad := ToBits(0, Aligned(|carry'|) - |carry'|);
    var sum := SumBits(zlib, more);
    assert pre + (carry' + (pad + sum)) == p + pad + sum;
    GapShift(|carry'|, |bytes|);
    assert |p| == |carry'| + 8 * |bytes|;
    if zlib {
      ConcatAssoc(pre, carry, BlockBits(|carry|, true, b));
      AtStart(pre + carry, p, BytesToBits([0x78, 0x01]));
    }
    WrapUp(p, pad, zlib, more, sum);
  }

  lemma AtHere(p: seq<bool>, w: seq<bool>)
    ensures At(p + w, |p|, w)
  {
    assert (p + w)[|p|..|p| + |w|] == w;
  }

  /** The two bytes in front of the first block. */
  method PutHeader(w: BitWriter, zlib: bool)
    requires w.Valid() && w.clean && w.Bits() == [] && w.capacity == OUT_BUF_LIMIT
    modifies w
    ensures w.Valid() && w.clean && w.Bits() == (if zlib then BytesToBits([0x78, 0x01]) else [])
  {
    HeaderIs();
    hide w.Bits, ToBits, Pow2, BytesToBits;
    if zlib {
      Pow2Eight();
      w.PutBits(0x78, 8);
      w.PutBits(0x01, 8);
      assert [] + ToBits(0x78, 8) + ToBits(0x01, 8) == BytesToBits([0x78, 0x01]);
    }
  }

  lemma HeaderIs()
    ensures BytesToBits([0x78, 0x01]) == ToBits(0x78, 8) + ToBits(0x01, 8)
  {
    assert BytesToBits([]) == [];
    hide ToBits, BytesToBits;
    BytesToBitsSnoc([], 0x78);
    BytesToBitsSnoc([0x78], 0x01);
    assert [] + [0x78] == [0x78] && [0x78] + [0x01] == [0x78, 0x01];
  }

  ghost function Tail(flush: Flush, pos: nat, zlib: bool, data: seq<byte>): seq<bool> {
    match flush
    case No => []
    case Finish => Trailer(pos, zlib, data)
    case _ => BlockBits(pos, false, Stored([]))
  }

  /** What a flush adds after the block. */
  method PutTail(w: BitWriter, flush: Flush, zlib: bool, adler: nat, ghost data: seq<byte>)
    requires w.Valid() && (zlib && flush == Finish ==> adler == Adler.Checksum(data))
    modifies w
    ensures w.Valid()
    ensures Sent(w.capacity, old(w.Bits()), old(w.clean), Tail(flush, |old(w.Bits())|, zlib, data), w.Bits(), w.clean)
  {
    hide w.Bits, ToBits, BytesToBits, Aligned, BlockBits, Adler.Checksum, BigEndian, Sent;
    ghost var cap, b0, c0 := w.capacity, w.Bits(), w.clean;
    if flush == Finish {
      PutAlign(w);
      ghost var b1, c1 := w.Bits(), w.clean;
      ChecksumFits(data);
      if zlib {
        PutChecksum(w, adler);
      } else {
        SentNothing(cap, b1, c1);
      }
      SentMore(cap, b0, c0, ToBits(0, Aligned(|b0|) - |b0|), b1, c1, SumBits(zlib, data), w.Bits(), w.clean);
    } else if flush != No {
      PutEmptyBlock(w);
    } else {
      SentNothing(cap, b0, c0);
    }
  }
}

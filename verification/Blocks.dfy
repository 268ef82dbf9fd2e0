/** The three kinds of block, streams of blocks, and the bits an encoder sends for each. */
module Blocks {
  import opened Arith
  import opened Bits
  import opened Canonical
  import opened DecodeTable
  import opened Tokens
  import opened Format
  import CL = CodeLengths

  // ----- dynamic block headers

  /** The code lengths of a dynamic block, with the position after its header. */
  ghost function DynamicTables(bits: seq<bool>, pos: nat): (r: Option<(nat, seq<nat>, seq<nat>)>)
    ensures r.Some? ==> pos < r.value.0 <= |bits|
  {
    var hl, hd, hc := Number(bits, pos, 5), Number(bits, pos + 5, 5), Number(bits, pos + 10, 4);
    if hl.None? || hd.None? || hc.None? then None
    else
      var nl, n := hl.value + 257, hc.value + 4;
      SmallPowers();
      if pos + 14 + 3 * n > |bits| then None
      else
        var cl := SizeCodes(bits, pos + 14, n);
        if !Accepted(cl) then None
        else
          var r := InflateLens(cl, bits, pos + 14 + 3 * n, nl + hd.value + 1, []);
          if r.None? || !Accepted(r.value.1[nl..]) || !Accepted(r.value.1[..nl]) then None
          else Some((r.value.0, r.value.1[..nl], r.value.1[nl..]))
  }

  /** What the encoder sends ahead of the tokens of a dynamic block. */
  datatype Header = Header(lit: seq<nat>, dst: seq<nat>, cl: seq<nat>, sent: nat, items: seq<CL.Item>)

  ghost predicate ValidHeader(h: Header) {
    && 257 <= |h.lit| <= 288 && 1 <= |h.dst| <= 32 && |h.cl| == 19 && 4 <= h.sent <= 19
    && Accepted(h.lit) && Accepted(h.dst) && Accepted(h.cl)
    && (forall s :: 0 <= s < 19 ==> h.cl[s] < 8)
    && (forall i :: h.sent <= i < 19 ==> h.cl[Zig(i)] == 0)
    && Sendable(h.cl, h.items) && CL.Expand(h.items) == Some(h.lit + h.dst)
  }

  ghost function HeaderBits(h: Header): seq<bool>
    requires ValidHeader(h)
  {
    ToBits(|h.lit| - 257, 5) + ToBits(|h.dst| - 1, 5) + ToBits(h.sent - 4, 4)
    + SizeBits(h.cl, h.sent) + ItemsBits(h.cl, h.items)
  }

  /** The decoder recovers the encoder's code lengths from the header. */
  lemma HeaderRoundTrip(bits: seq<bool>, pos: nat, h: Header)
    requires ValidHeader(h) && At(bits, pos, HeaderBits(h))
    ensures DynamicTables(bits, pos) == Some((pos + |HeaderBits(h)|, h.lit, h.dst))
  {
    hide Accepted, Sendable, CL.Expand, Zig, At, ToBits, SizeBits, ItemsBits, Number, SizeCodes, InflateLens, Pow2, Low;
    SmallPowers();
    var a, b, c, d, e := ToBits(|h.lit| - 257, 5), ToBits(|h.dst| - 1, 5), ToBits(h.sent - 4, 4),
      SizeBits(h.cl, h.sent), ItemsBits(h.cl, h.items);
    AtConcat(bits, pos, a + b + c + d, e);
    AtConcat(bits, pos, a + b + c, d);
    AtConcat(bits, pos, a + b, c);
    AtConcat(bits, pos, a, b);
    SmallNumber(bits, pos, |h.lit| - 257, 5);
    SmallNumber(bits, pos + 5, |h.dst| - 1, 5);
    SmallNumber(bits, pos + 10, h.sent - 4, 4);
    AtInside(bits, pos + 14, d);
    SizesRoundTrip(h.cl, bits, pos + 14, h.sent);
    var p, total := pos + 14 + 3 * h.sent, |h.lit| + |h.dst|;
    AcceptedIsCoded(h.cl);
    ItemsRoundTrip(h.cl, bits, p, total, h.items);
    LensDone(h.cl, bits, p + |e|, total, h.lit + h.dst);
    assert (h.lit + h.dst)[..|h.lit|] == h.lit && (h.lit + h.dst)[|h.lit|..] == h.dst;
  }

  lemma SmallNumber(bits: seq<bool>, pos: nat, v: nat, n: nat)
    requires At(bits, pos, ToBits(v, n)) && v < Pow2(n)
    ensures Number(bits, pos, n) == Some(v)
  {
    NumberIs(bits, pos, v, n);
    LowSmall(v, n);
  }

  lemma AtInside(bits: seq<bool>, pos: nat, w: seq<bool>)
    requires At(bits, pos, w)
    ensures pos + |w| <= |bits|
  {
  }

  lemma LensDone(cl: seq<nat>, bits: seq<bool>, pos: nat, total: nat, lens: seq<nat>)
    requires |cl| == 19 && |lens| == total
    ensures InflateLens(cl, bits, pos, total, lens) == Some((pos, lens))
  {
  }

  // ----- stored blocks

  /** The n bytes at a position. */
  ghost function BytesAt(bits: seq<bool>, pos: nat, n: nat): (r: seq<byte>)
    requires pos + 8 * n <= |bits|
    ensures |r| == n
  {
    if n == 0 then []
    else
      FromBitsBound(bits[pos + 8 * n - 8..pos + 8 * n]);
      Pow2Eight();
      BytesAt(bits, pos, n - 1) + [FromBits(bits[pos + 8 * n - 8..pos + 8 * n])]
  }

  lemma ByteAtIs(bits: seq<bool>, pos: nat, b: byte)
    requires At(bits, pos, ToBits(b, 8))
    ensures pos + 8 <= |bits| && FromBits(bits[pos..pos + 8]) == b
  {
    Pow2Eight();
    hide ToBits, FromBits, Pow2;
    SmallNumber(bits, pos, b, 8);
  }

  lemma {:induction false} BytesAtIs(bits: seq<bool>, pos: nat, s: seq<byte>)
    requires At(bits, pos, BytesToBits(s))
    ensures BytesAt(bits, pos, |s|) == s
  {
    hide At, ToBits, FromBits, BytesToBits, Pow2;
    if s == [] {
    } else {
      var t, b := s[..|s| - 1], s[|s| - 1];
      assert s == t + [b];
      BytesToBitsSnoc(t, b);
      AtConcat(bits, pos, BytesToBits(t), ToBits(b, 8));
      BytesAtIs(bits, pos, t);
      ByteAtIs(bits, pos + 8 * |t|, b);
    }
  }

  ghost function InflateStored(bits: seq<bool>, pos: nat, out: seq<byte>): (r: Option<(nat, seq<byte>)>)
    ensures r.Some? ==> pos < r.value.0 <= |bits|
  {
    var p := Aligned(pos);
    var len, check := Number(bits, p, 16), Number(bits, p + 16, 16);
    if len.None? || check.None? || len.value + check.value != 0xFFFF || p + 32 + 8 * len.value > |bits| then None
    else Some((p + 32 + 8 * len.value, out + BytesAt(bits, p + 32, len.value)))
  }

  /** A stored block after its three header bits, which end at the given position. */
  ghost function StoredBits(pos: nat, data: seq<byte>): seq<bool>
    requires |data| <= 0xFFFF
  {
    ToBits(0, Aligned(pos) - pos) + ToBits(|data|, 16) + ToBits(0xFFFF - |data|, 16) + BytesToBits(data)
  }

  lemma StoredRoundTrip(bits: seq<bool>, pos: nat, data: seq<byte>, out: seq<byte>)
    requires |data| <= 0xFFFF && At(bits, pos, StoredBits(pos, data))
    ensures InflateStored(bits, pos, out) == Some((pos + |StoredBits(pos, data)|, out + data))
  {
    Pow2Sixteen();
    hide At, ToBits, BytesToBits, Pow2, BytesAt, Number;
    var a, b, c, d := ToBits(0, Aligned(pos) - pos), ToBits(|data|, 16), ToBits(0xFFFF - |data|, 16), BytesToBits(data);
    AtConcat(bits, pos, a + b + c, d);
    AtConcat(bits, pos, a + b, c);
    AtConcat(bits, pos, a, b);
    var p := Aligned(pos);
    SmallNumber(bits, p, |data|, 16);
    SmallNumber(bits, p + 16, 0xFFFF - |data|, 16);
    AtInside(bits, p + 32, d);
    BytesAtIs(bits, p + 32, data);
  }

  // ----- blocks and streams

  /** The code lengths of a static block (section 3.2.6 of RFC 1951). */
  function StaticLit(): (r: seq<nat>)
    ensures |r| == 288
  {
    seq(288, i => if i <= 143 then 8 else if i <= 255 then 9 else if i <= 279 then 7 else 8)
  }

  function StaticDst(): (r: seq<nat>)
    ensures |r| == 32
  {
    seq(32, _ => 5)
  }

  /** One block: whether it is the last, the position after it, and the output so far. */
  datatype Read = Read(final: bool, next: nat, out: seq<byte>)

  ghost function InflateBlock(bits: seq<bool>, pos: nat, out: seq<byte>): (r: Option<Read>)
    ensures r.Some? ==> pos < r.value.next <= |bits|
  {
    var kind := Number(bits, pos + 1, 2);
    if kind.None? then None
    else
      var r :=
        if kind.value == 0 then InflateStored(bits, pos + 3, out)
        else if kind.value == 1 then InflateCodes(StaticLit(), StaticDst(), bits, pos + 3, out)
        else if kind.value == 2 then
          var h := DynamicTables(bits, pos + 3);
          if h.None? then None else InflateCodes(h.value.1, h.value.2, bits, h.value.0, out)
        else None;
      if r.None? then None else Some(Read(bits[pos], r.value.0, r.value.1))
  }

  /** Reads blocks up to and including the last one. */
  ghost function Inflate(bits: seq<bool>, pos: nat, out: seq<byte>): (r: Option<(nat, seq<byte>)>)
    ensures r.Some? ==> pos < r.value.0 <= |bits|
    decreases |bits| - pos
  {
    var b := InflateBlock(bits, pos, out);
    if b.None? then None
    else if b.value.final then Some((b.value.next, b.value.out))
    else Inflate(bits, b.value.next, b.value.out)
  }

  lemma {:induction false} KraftRepeat(lens: seq<nat>, x: nat, n: nat, top: nat, w: nat)
    requires w == Weight(x, top)
    ensures Kraft(lens + CL.Repeat(x, n), top) == Kraft(lens, top) + n * w
    decreases n
  {
    hide Kraft, Weight;
    if n == 0 {
      assert lens + CL.Repeat(x, 0) == lens;
    } else {
      KraftRepeat(lens, x, n - 1, top, w);
      assert lens + CL.Repeat(x, n) == lens + CL.Repeat(x, n - 1) + [x];
      KraftSnoc(lens + CL.Repeat(x, n - 1), x, top);
      assert n * w == (n - 1) * w + w;
    }
  }

  lemma StaticLitKraft()
    ensures Kraft(StaticLit(), 15) == 32768
  {
    StaticWeights();
    KraftNone(15);
    hide Kraft, Weight, Pow2;
    var a := [] + CL.Repeat(8, 144);
    var b := a + CL.Repeat(9, 112);
    var c := b + CL.Repeat(7, 24);
    KraftRepeat([], 8, 144, 15, 128);
    KraftRepeat(a, 9, 112, 15, 64);
    KraftRepeat(b, 7, 24, 15, 256);
    KraftRepeat(c, 8, 8, 15, 128);
    assert StaticLit() == c + CL.Repeat(8, 8);
  }

  lemma StaticDstKraft()
    ensures Kraft(StaticDst(), 15) == 32768
  {
    StaticWeights();
    KraftNone(15);
    hide Kraft, Weight, Pow2;
    KraftRepeat([], 5, 32, 15, 1024);
    assert StaticDst() == [] + CL.Repeat(5, 32);
  }

  /** The static code lengths describe complete prefix codes. */
  lemma StaticAccepted()
    ensures Accepted(StaticLit()) && Accepted(StaticDst())
  {
    StaticWeights();
    hide Kraft, Weight, Pow2, CountFrom;
    StaticLitKraft();
    StaticDstKraft();
  }

  lemma StaticWeights()
    ensures Weight(5, 15) == 1024 && Weight(7, 15) == 256 && Weight(8, 15) == 128 && Weight(9, 15) == 64
    ensures Pow2(15) == 32768
  {
  }

  lemma KraftNone(top: nat)
    ensures Kraft([], top) == 0
  {
  }

  // ----- what the encoder sends

  datatype Block = Stored(data: seq<byte>) | Static(ts: seq<Token>) | Dynamic(h: Header, ts: seq<Token>)

  ghost predicate ValidBlock(b: Block) {
    match b
    case Stored(data) => |data| <= 0xFFFF
    case Static(ts) => AllCodable(StaticLit(), StaticDst(), ts)
    case Dynamic(h, ts) => ValidHeader(h) && AllCodable(h.lit, h.dst, ts) && h.lit[256] > 0
  }

  ghost function CodesBits(lit: seq<nat>, dst: seq<nat>, ts: seq<Token>): seq<bool>
    requires AllCodable(lit, dst, ts) && |lit| > 256
  {
    TokensBits(lit, dst, ts) + CodeWord(lit, 256)
  }

  /** The bits of a block that starts at the given position. */
  ghost function BlockBits(pos: nat, final: bool, b: Block): seq<bool>
    requires ValidBlock(b)
  {
    [final] + (match b
    case Stored(data) => ToBits(0, 2) + StoredBits(pos + 3, data)
    case Static(ts) => ToBits(1, 2) + CodesBits(StaticLit(), StaticDst(), ts)
    case Dynamic(h, ts) => ToBits(2, 2) + (HeaderBits(h) + CodesBits(h.lit, h.dst, ts)))
  }

  /** The output once a block is added to it. */
  ghost function BlockData(b: Block, out: seq<byte>): Option<seq<byte>> {
    if b.Stored? then Some(out + b.data) else Expand(out, b.ts)
  }

  lemma BlockRoundTrip(bits: seq<bool>, pos: nat, final: bool, b: Block, out: seq<byte>)
    requires ValidBlock(b) && At(bits, pos, BlockBits(pos, final, b)) && BlockData(b, out).Some?
    ensures InflateBlock(bits, pos, out) == Some(Read(final, pos + |BlockBits(pos, final, b)|, BlockData(b, out).value))
  {
    hide At, ToBits, Number, InflateStored, InflateCodes, DynamicTables, StoredBits, HeaderBits, CodesBits, Expand,
      Accepted, ValidHeader, AllCodable, Pow2;
    var body := BlockBits(pos, final, b)[3..];
    var kind := if b.Stored? then 0 else if b.Static? then 1 else 2;
    assert BlockBits(pos, final, b) == [final] + ToBits(kind, 2) + body;
    AtConcat(bits, pos, [final] + ToBits(kind, 2), body);
    AtConcat(bits, pos, [final], ToBits(kind, 2));
    FirstBit(bits, pos, final);
    SmallNumber(bits, pos + 1, kind, 2) by { SmallPowers(); }
    match b
    case Stored(data) =>
      assert body == StoredBits(pos + 3, data);
      StoredRoundTrip(bits, pos + 3, data, out);
    case Static(ts) =>
      assert body == CodesBits(StaticLit(), StaticDst(), ts);
      StaticAccepted();
      StaticEnd();
      BodyRoundTrip(StaticLit(), StaticDst(), bits, pos + 3, ts, out);
    case Dynamic(h, ts) =>
      HeaderAccepted(h);
      assert body == HeaderBits(h) + CodesBits(h.lit, h.dst, ts);
      AtConcat(bits, pos + 3, HeaderBits(h), CodesBits(h.lit, h.dst, ts));
      HeaderRoundTrip(bits, pos + 3, h);
      BodyRoundTrip(h.lit, h.dst, bits, pos + 3 + |HeaderBits(h)|, ts, out);
  }

  lemma FirstBit(bits: seq<bool>, pos: nat, x: bool)
    requires At(bits, pos, [x])
    ensures pos < |bits| && bits[pos] == x
  {
    assert bits[pos..pos + 1][0] == x;
  }

  lemma StaticEnd()
    ensures StaticLit()[256] > 0
  {
  }

  lemma HeaderAccepted(h: Header)
    requires ValidHeader(h)
    ensures Accepted(h.lit) && Accepted(h.dst) && |h.lit| > 256
  {
  }

  lemma BodyRoundTrip(lit: seq<nat>, dst: seq<nat>, bits: seq<bool>, pos: nat, ts: seq<Token>, out: seq<byte>)
    requires Accepted(lit) && Accepted(dst) && |lit| > 256 && lit[256] > 0 && AllCodable(lit, dst, ts)
    requires At(bits, pos, CodesBits(lit, dst, ts)) && Expand(out, ts).Some?
    ensures InflateCodes(lit, dst, bits, pos, out) == Some((pos + |CodesBits(lit, dst, ts)|, Expand(out, ts).value))
  {
    hide Accepted, Coded, AllCodable, At, TokensBits, Expand, InflateCodes;
    AcceptedIsCoded(lit);
    AcceptedIsCoded(dst);
    CodesRoundTrip(lit, dst, bits, pos, ts, out);
  }

  // ----- streams

  /** Whatever follows p, reading from start gets to the end of p with the given data. */
  ghost predicate Decodes(p: seq<bool>, start: nat, data: seq<byte>) {
    && start <= |p|
    && forall bits {:trigger Inflate(bits, start, [])} ::
         p <= bits ==> Inflate(bits, start, []) == Inflate(bits, |p|, data)
  }

  /** Whatever follows p, reading from start ends with p and gives the data. */
  ghost predicate Complete(p: seq<bool>, start: nat, data: seq<byte>) {
    && start <= |p|
    && forall bits {:trigger Inflate(bits, start, [])} ::
         p <= bits ==> Inflate(bits, start, []) == Some((|p|, data))
  }

  lemma NothingDecoded(p: seq<bool>)
    ensures Decodes(p, |p|, [])
  {
  }

  /** Adding a block to a stream adds its data; a last block completes the stream. */
  lemma AddBlock(p: seq<bool>, start: nat, data: seq<byte>, final: bool, b: Block)
    requires Decodes(p, start, data) && ValidBlock(b) && BlockData(b, data).Some?
    ensures final ==> Complete(p + BlockBits(|p|, final, b), start, BlockData(b, data).value)
    ensures !final ==> Decodes(p + BlockBits(|p|, final, b), start, BlockData(b, data).value)
  {
    hide ValidBlock, BlockBits, BlockData, InflateBlock;
    var w := BlockBits(|p|, final, b);
    forall bits | p + w <= bits
      ensures Inflate(bits, start, [])
           == if final then Some((|p + w|, BlockData(b, data).value))
             else Inflate(bits, |p + w|, BlockData(b, data).value)
    {
      assert p <= bits;
      assert bits[|p|..|p + w|] == (p + w)[|p|..] == w;
      BlockRoundTrip(bits, |p|, final, b, data);
    }
  }
}

/** Choosing and writing a block for the recorded tokens. */
module BlockFlush {
  import opened Arith
  import opened Bits
  import opened BitIO
  import opened Canonical
  import opened DecodeTable
  import opened Tokens
  import opened CodeBuffer
  import opened Format
  import opened Blocks
  import opened BlockWriter
  import opened DynamicBlock
  import opened BlockSize

  /** Fills in the static code lengths and assigns their codes. */
  method StaticTables(tb: Tables)
    requires tb.Shape()
    modifies tb.Repr()
    ensures Coding(tb.codes0, tb.sizes0) && Coding(tb.codes1, tb.sizes1)
    ensures tb.sizes0[..] == StaticLit() && tb.sizes1[..] == StaticDst()
  {
    for i := 0 to 288
      invariant forall j :: 0 <= j < i ==> tb.sizes0[j] == StaticLit()[j]
    {
      tb.sizes0[i] := if i <= 143 then 8 else if i <= 255 then 9 else if i <= 279 then 7 else 8;
    }
    for i := 0 to 32
      invariant forall j :: 0 <= j < 288 ==> tb.sizes0[j] == StaticLit()[j]
      invariant forall j :: 0 <= j < i ==> tb.sizes1[j] == 5
    {
      tb.sizes1[i] := 5;
    }
    assert tb.sizes0[..] == StaticLit() && tb.sizes1[..] == StaticDst();
    StaticAccepted();
    hide StaticLit, StaticDst, Accepted;
    AssignStatic(tb.sizes0, tb.codes0);
    AssignStatic(tb.sizes1, tb.codes1);
  }

  /** The codes of a table whose lengths are given. */
  method AssignStatic(sizes: array<nat>, codes: array<nat>)
    requires sizes.Length == codes.Length && sizes != codes && ValidLens(sizes[..], MAX_BITS)
    modifies codes
    ensures Coding(codes, sizes)
  {
    hide Count;
    var num := new nat[33](_ => 0);
    ghost var lens := sizes[..];
    NoCounts(lens);
    for i := 0 to sizes.Length
      invariant sizes[..] == lens && forall l :: 1 <= l <= MAX_BITS ==> num[l] == Count(lens[..i], l)
    {
      forall l ensures Count(lens[..i + 1], l) == Count(lens[..i], l) + if lens[i] == l then 1 else 0 {
        CountNext(lens, i, l);
      }
      num[sizes[i]] := num[sizes[i]] + 1;
    }
    assert lens[..sizes.Length] == lens;
    AssignCodes(num, sizes, codes, MAX_BITS);
  }

  lemma NoCounts(lens: seq<nat>)
    ensures forall l :: Count(lens[..0], l) == 0
  {
  }

  method StartStaticBlock(w: BitWriter, tb: Tables)
    requires w.Valid() && tb.Shape()
    modifies w, tb.Repr()
    ensures w.Valid() && Coding(tb.codes0, tb.sizes0) && Coding(tb.codes1, tb.sizes1)
    ensures tb.sizes0[..] == StaticLit() && tb.sizes1[..] == StaticDst()
    ensures Sent(w.capacity, old(w.Bits()), old(w.clean), ToBits(1, 2), w.Bits(), w.clean)
  {
    StaticTables(tb);
    hide Coding, StaticLit, StaticDst, Sent, w.Bits;
    w.PutBits(1, 2);
  }

  /** Writes the recorded tokens as a static or a dynamic block. */
  method CompressBlock(w: BitWriter, lz: LzCodes, tb: Tables, static': bool) returns (ok: bool, ghost b: Block)
    requires w.Valid() && tb.Shape() && lz.lit !in tb.Repr() && lz.dst !in tb.Repr() && lz.lit != lz.dst
    requires Counted(lz.lit[..], lz.dst[..], lz.Recorded()) || static'
    requires AllValid(lz.Recorded()) && lz.pos <= lz.buf.Length <= CODE_BUF_SIZE
    requires lz.buf[..lz.pos] == Pack(lz.Recorded())
    modifies w, lz.lit, tb.Repr()
    ensures w.Valid() && ok == (|w.out| < w.capacity) && (ok ==> w.clean)
    ensures (if static' then b.Static? else b.Dynamic?) && b.ts == lz.Recorded() && ValidBlock(b)
    ensures |BodyBits(b)| <= BODY_LIMIT
    ensures Sent(w.capacity, old(w.Bits()), old(w.clean), BodyBits(b), w.Bits(), w.clean)
  {
    hide Coding, StaticLit, StaticDst, Sent, w.Bits, CodesBits, HeaderBits, AllValid, AllCodable, Pack, Counted,
      ValidHeader;
    ghost var cap, b0, c0, ts := w.capacity, w.Bits(), w.clean, lz.Recorded();
    ghost var start;
    if static' {
      StartStaticBlock(w, tb);
      StaticCodable(ts);
      StaticEnd();
      b, start := Static(ts), ToBits(1, 2);
      StaticBody(b);
    } else {
      ghost var h := StartDynamicBlock(w, lz.lit, lz.dst, tb, ts);
      b, start := Dynamic(h, ts), ToBits(2, 2) + HeaderBits(h);
      DynamicBody(b);
    }
    ghost var b1, c1 := w.Bits(), w.clean;
    ok := CompressLzCodes(w, lz.buf, lz.pos, tb.codes0, tb.sizes0, tb.codes1, tb.sizes1, ts);
    SentMore(cap, b0, c0, start, b1, c1, CodesBits(tb.sizes0[..], tb.sizes1[..], ts), w.Bits(), w.clean);
  }

  // ----- stored blocks

  lemma WriterLength(w: BitWriter)
    requires w.Valid()
    ensures |w.Bits()| == 8 * |w.out| + w.bitsIn && w.bitsIn == |w.Bits()| % 8
  {
    hide BytesToBits, ToBits, Pow2;
    assert |w.Bits()| == 8 * |w.out| + w.bitsIn;
    BitsOver(|w.out|, w.bitsIn);
  }

  lemma BitsOver(n: nat, k: nat)
    requires k < 8
    ensures (8 * n + k) % 8 == k
  {
  }

  lemma AlignedGap(n: nat)
    ensures Aligned(n) - n == (if n % 8 == 0 then 0 else 8 - n % 8)
  {
  }

  /** Fills up the last byte with zeros. */
  method PutAlign(w: BitWriter)
    requires w.Valid()
    modifies w
    ensures w.Valid()
    ensures Sent(w.capacity, old(w.Bits()), old(w.clean), ToBits(0, Aligned(|old(w.Bits())|) - |old(w.Bits())|),
      w.Bits(), w.clean)
  {
    hide w.Bits, ToBits, Sent, Aligned, Pow2;
    ghost var b0 := w.Bits();
    WriterLength(w);
    AlignedGap(|b0|);
    if w.bitsIn != 0 {
      Pow2Mono(0, 8 - w.bitsIn);
      w.PutBits(0, 8 - w.bitsIn);
    } else {
      SentNothing(w.capacity, b0, w.clean);
      NoBits(0);
    }
  }

  lemma NoBits(v: nat)
    ensures ToBits(v, 0) == []
  {
  }

  /** The length of a stored block and its complement. */
  method PutLength(w: BitWriter, n: nat)
    requires w.Valid() && n <= 0xFFFF
    modifies w
    ensures w.Valid()
    ensures Sent(w.capacity, old(w.Bits()), old(w.clean), ToBits(n, 16) + ToBits(0xFFFF - n, 16), w.Bits(), w.clean)
  {
    hide w.Bits, ToBits, Sent, Pow2;
    Pow2Sixteen();
    ghost var cap, b0, c0 := w.capacity, w.Bits(), w.clean;
    w.PutBits(n, 16);
    ghost var b1, c1 := w.Bits(), w.clean;
    w.PutBits(0xFFFF - n, 16);
    SentMore(cap, b0, c0, ToBits(n, 16), b1, c1, ToBits(0xFFFF - n, 16), w.Bits(), w.clean);
  }

  /** Where the dictionary holds the bytes from a position on. */
  ghost predicate Holds(dict: seq<byte>, pos: nat, data: seq<byte>) {
    |dict| >= WINDOW && forall i :: 0 <= i < |data| ==> dict[(pos + i) % WINDOW] == data[i]
  }

  method PutBytes(w: BitWriter, dict: array<byte>, dictPos: nat, n: nat, ghost data: seq<byte>)
    requires w.Valid() && n == |data| && Holds(dict[..], dictPos, data)
    modifies w
    ensures w.Valid() && Sent(w.capacity, old(w.Bits()), old(w.clean), BytesToBits(data), w.Bits(), w.clean)
  {
    hide w.Bits, ToBits, Sent, Pow2, BytesToBits;
    ghost var cap, b0, c0 := w.capacity, w.Bits(), w.clean;
    SentNothing(cap, b0, c0);
    NoBytes(data);
    Pow2Eight();
    for i := 0 to n
      invariant w.Valid() && Sent(cap, b0, c0, BytesToBits(data[..i]), w.Bits(), w.clean)
    {
      ghost var b1, c1 := w.Bits(), w.clean;
      w.PutBits(dict[(dictPos + i) % WINDOW], 8);
      assert dict[..][(dictPos + i) % WINDOW] == data[i];
      SentMore(cap, b0, c0, BytesToBits(data[..i]), b1, c1, ToBits(data[i], 8), w.Bits(), w.clean);
      BytesToBitsSnoc(data[..i], data[i]);
      assert data[..i] + [data[i]] == data[..i + 1];
    }
    assert data[..n] == data;
  }

  lemma NoBytes(data: seq<byte>)
    ensures BytesToBits(data[..0]) == []
  {
  }

  /** Writes the bytes themselves, after the bit that says whether the block is the last. */
  method PutRawBlock(w: BitWriter, dict: array<byte>, dictPos: nat, n: nat, ghost data: seq<byte>)
    requires w.Valid() && n == |data| <= 0xFFFF && Holds(dict[..], dictPos, data)
    modifies w
    ensures w.Valid() && Sent(w.capacity, old(w.Bits()), old(w.clean),
      ToBits(0, 2) + StoredBits(|old(w.Bits())| + 2, data), w.Bits(), w.clean)
  {
    hide w.Bits, ToBits, Pow2, BytesToBits, Aligned, Holds;
    ghost var cap, b0, c0 := w.capacity, w.Bits(), w.clean;
    SmallPowers();
    w.PutBits(0, 2);
    ghost var b1, c1 := w.Bits(), w.clean;
    PutAlign(w);
    ghost var b2, c2 := w.Bits(), w.clean;
    PutLength(w, n);
    ghost var b3, c3 := w.Bits(), w.clean;
    PutBytes(w, dict, dictPos, n, data);
    StoredParts(cap, b0, c0, 2, b1, c1, b2, c2, data, b3, c3, w.Bits(), w.clean);
  }

  /** Three header bits or two, then alignment, length and bytes: the parts make up the block. */
  lemma StoredParts(cap: nat, b0: seq<bool>, c0: bool, k: nat, b1: seq<bool>, c1: bool, b2: seq<bool>, c2: bool,
                    data: seq<byte>, b3: seq<bool>, c3: bool, b4: seq<bool>, c4: bool)
    requires |data| <= 0xFFFF
    requires Sent(cap, b0, c0, ToBits(0, k), b1, c1) && Sent(cap, b1, c1, ToBits(0, Aligned(|b1|) - |b1|), b2, c2)
    requires Sent(cap, b2, c2, ToBits(|data|, 16) + ToBits(0xFFFF - |data|, 16), b3, c3)
    requires Sent(cap, b3, c3, BytesToBits(data), b4, c4)
    ensures Sent(cap, b0, c0, ToBits(0, k) + StoredBits(|b0| + k, data), b4, c4)
  {
    hide ToBits, BytesToBits, Aligned;
    var a, b, c, d := ToBits(0, Aligned(|b1|) - |b1|), ToBits(|data|, 16), ToBits(0xFFFF - |data|, 16),
      BytesToBits(data);
    if c1 {
      SentMore(cap, b1, c1, a, b2, c2, b + c, b3, c3);
      assert a + (b + c) == a + b + c;
      SentMore(cap, b1, c1, a + b + c, b3, c3, d, b4, c4);
      SentMore(cap, b0, c0, ToBits(0, k), b1, c1, StoredBits(|b0| + k, data), b4, c4);
    }
  }

  // ----- one block

  /** The first bit of a block. */
  method PutFinal(w: BitWriter, final: bool)
    requires w.Valid()
    modifies w
    ensures w.Valid() && Sent(w.capacity, old(w.Bits()), old(w.clean), [final], w.Bits(), w.clean)
  {
    FinalBit(final);
    hide w.Bits, ToBits, Pow2, Sent;
    w.PutBits(if final then 1 else 0, 1);
  }

  lemma FinalBit(final: bool)
    ensures ToBits(if final then 1 else 0, 1) == [final] && Pow2(1) == 2
  {
    assert ToBits(0, 0) == [];
  }

  /** The tokens are packed and their counts are known. */
  ghost predicate Sealed(lz: LzCodes, tb: Tables)
    reads lz, lz.buf
  {
    && tb.Shape() && lz.lit !in tb.Repr() && lz.dst !in tb.Repr() && lz.lit != lz.dst
    && AllValid(lz.Recorded()) && lz.pos <= lz.buf.Length == CODE_BUF_SIZE && lz.buf[..lz.pos] == Pack(lz.Recorded())
  }

  /** The first bit of the block is the last thing written. */
  ghost predicate Started(w: BitWriter, b0: seq<bool>, final: bool)
    reads w
  {
    w.Valid() && w.clean && w.capacity == OUT_BUF_LIMIT && |b0| <= 23 && w.Bits() == b0 + [final]
  }

  method WriteCompressed(w: BitWriter, lz: LzCodes, tb: Tables, static': bool, ghost b0: seq<bool>, ghost final: bool)
    returns (ok: bool, ghost b: Block)
    requires Started(w, b0, final) && Sealed(lz, tb) && (Counted(lz.lit[..], lz.dst[..], lz.Recorded()) || static')
    modifies w, lz.lit, tb.Repr()
    ensures w.Valid() && ValidBlock(b) && !b.Stored? && b.ts == lz.Recorded()
    ensures ok && w.clean && w.Bits() == b0 + BlockBits(|b0|, final, b) && |w.out| + 8 < w.capacity
  {
    hide w.Bits, BlockBits, ValidBlock, Sent, BodyBits, Pack, AllValid, Counted;
    ghost var b1 := w.Bits();
    ok, b := CompressBlock(w, lz, tb, static');
    WriterFacts(w);
    CompressedSent(w.capacity, b0, final, b1, b, w.Bits(), w.clean, w.out, w.bitBuffer, w.bitsIn);
  }

  method WriteRaw(w: BitWriter, dict: array<byte>, dictPos: nat, n: nat, ghost b0: seq<bool>, ghost final: bool,
                  ghost data: seq<byte>)
    requires Started(w, b0, final) && n == |data| <= WINDOW && Holds(dict[..], dictPos, data)
    modifies w
    ensures w.Valid() && w.clean && |w.out| + 8 < w.capacity
    ensures ValidBlock(Stored(data)) && w.Bits() == b0 + BlockBits(|b0|, final, Stored(data))
  {
    hide w.Bits, BlockBits, Sent, StoredBits, Holds;
    ghost var b1 := w.Bits();
    PutRawBlock(w, dict, dictPos, n, data);
    WriterFacts(w);
    RawSent(w.capacity, b0, final, b1, data, w.Bits(), w.clean, w.out, w.bitBuffer, w.bitsIn);
  }

  /** Seals the buffer and writes the first bit of the block. */
  method StartBlock(w: BitWriter, lz: LzCodes, tb: Tables, final: bool)
    requires w.Valid() && w.clean && |w.Bits()| <= 23 && w.capacity == OUT_BUF_LIMIT
    requires lz.Valid() && tb.Shape() && lz.lit !in tb.Repr() && lz.dst !in tb.Repr()
    modifies w, lz`pos, lz.buf
    ensures Started(w, old(w.Bits()), final) && Sealed(lz, tb) && Counted(lz.lit[..], lz.dst[..], lz.Recorded())
    ensures lz.pos <= old(lz.pos)
  {
    hide w.Bits, Pack, AllValid, Counted, Sent, Layout, Covered;
    ghost var b0 := w.Bits();
    lz.Seal();
    PutFinal(w, final);
    HeaderSent(w.capacity, b0, final, w.Bits(), w.clean);
  }

  /** Goes back to just after the first bit of the block. */
  method Rewind(w: BitWriter, savedOut: seq<byte>, savedBuffer: nat, savedBits: nat, ghost b0: seq<bool>,
                ghost final: bool)
    requires |savedOut| <= w.capacity == OUT_BUF_LIMIT && savedBits < 8 && savedBuffer < Pow2(savedBits) && |b0| <= 23
    requires BytesToBits(savedOut) + ToBits(savedBuffer, savedBits) == b0 + [final]
    modifies w
    ensures Started(w, b0, final)
  {
    hide ToBits, BytesToBits, Pow2;
    w.Restore(savedOut, savedBuffer, savedBits);
  }

  /**
   Writes one block: as it comes, or stored if that is asked for or no larger and the dictionary still
   holds the bytes. Dynamic codes always fit, so that nothing has to be done again with static ones.
   */
  method EmitBlock(w: BitWriter, lz: LzCodes, tb: Tables, dict: array<byte>, dictPos: nat, forceRaw: bool,
                   forceStatic: bool, rawPossible: bool, final: bool, ghost data: seq<byte>)
    returns (ghost b: Block)
    requires w.Valid() && w.clean && |w.Bits()| <= 23 && w.capacity == OUT_BUF_LIMIT && dict != lz.buf
    requires lz.Valid() && tb.Shape() && lz.lit !in tb.Repr() && lz.dst !in tb.Repr()
    requires rawPossible ==> lz.total == |data| <= WINDOW && Holds(dict[..], dictPos, data)
    modifies w, lz`pos, lz.buf, lz.lit, tb.Repr()
    ensures w.Valid() && w.clean && |w.out| + 8 < w.capacity
    ensures ValidBlock(b) && (if b.Stored? then rawPossible && b.data == data else b.ts == lz.Recorded())
    ensures w.Bits() == old(w.Bits()) + BlockBits(|old(w.Bits())|, final, b)
  {
    hide w.Bits, BlockBits, ValidBlock, Counted, Holds, BytesToBits, ToBits, Sealed, Started, lz.Valid, Pow2;
    ghost var b0 := w.Bits();
    StartBlock(w, lz, tb, final);
    StartedFacts(w, b0, final);
    var savedOut, savedBuffer, savedBits := w.out, w.bitBuffer, w.bitsIn;
    var useRaw, ok := forceRaw && rawPossible, false;
    if !useRaw {
      ok, b := WriteCompressed(w, lz, tb, forceStatic || lz.total < 48, b0, final);
    }
    if (useRaw || (lz.total != 0 && |w.out| - |savedOut| + 1 >= lz.total)) && rawPossible {
      Rewind(w, savedOut, savedBuffer, savedBits, b0, final);
      WriteRaw(w, dict, dictPos, lz.total, b0, final, data);
      b := Stored(data);
    } else if !ok {
      assert false;
    }
  }

  lemma StartedFacts(w: BitWriter, b0: seq<bool>, final: bool)
    requires Started(w, b0, final)
    ensures w.Valid() && w.bitsIn < 8 && w.bitBuffer < Pow2(w.bitsIn) && |w.out| <= w.capacity
    ensures BytesToBits(w.out) + ToBits(w.bitBuffer, w.bitsIn) == b0 + [final]
  {
  }

  lemma HeaderSent(cap: nat, b0: seq<bool>, final: bool, b1: seq<bool>, c1: bool)
    requires cap == OUT_BUF_LIMIT && |b0| <= 23 && Sent(cap, b0, true, [final], b1, c1)
    ensures c1 && b1 == b0 + [final]
  {
  }

  lemma WriterFacts(w: BitWriter)
    requires w.Valid()
    ensures w.bitsIn < 8 && w.bitBuffer < Pow2(w.bitsIn) && |w.out| <= w.capacity
    ensures w.Bits() == BytesToBits(w.out) + ToBits(w.bitBuffer, w.bitsIn)
  {
  }

  lemma BodyIs(pos: nat, final: bool, b: Block)
    requires ValidBlock(b)
    ensures b.Stored? ==> BlockBits(pos, final, b) == [final] + (ToBits(0, 2) + StoredBits(pos + 3, b.data))
    ensures !b.Stored? ==> BlockBits(pos, final, b) == [final] + BodyBits(b)
  {
    hide ToBits, CodesBits, StoredBits, HeaderBits, StaticLit, StaticDst, AllCodable, AllValid;
    if b.Dynamic? {
      ConcatAssoc(ToBits(2, 2), HeaderBits(b.h), CodesBits(b.h.lit, b.h.dst, b.ts));
    }
  }

  lemma CompressedSent(cap: nat, b0: seq<bool>, final: bool, b1: seq<bool>, b: Block, b2: seq<bool>, c2: bool,
                       out: seq<byte>, bitBuffer: nat, bitsIn: nat)
    requires cap == OUT_BUF_LIMIT && |b0| <= 23 && b1 == b0 + [final] && ValidBlock(b) && !b.Stored?
    requires Sent(cap, b1, true, BodyBits(b), b2, c2) && b2 == BytesToBits(out) + ToBits(bitBuffer, bitsIn)
    requires |BodyBits(b)| <= BODY_LIMIT
    ensures c2 && b2 == b0 + BlockBits(|b0|, final, b) && |out| + 8 < cap
  {
    hide BodyBits, BlockBits, BytesToBits, ToBits, ValidBlock;
    BodyIs(|b0|, final, b);
    ConcatAssoc(b0, [final], BodyBits(b));
  }

  lemma RawSent(cap: nat, b0: seq<bool>, final: bool, b1: seq<bool>, data: seq<byte>, b2: seq<bool>, c2: bool,
                out: seq<byte>, bitBuffer: nat, bitsIn: nat)
    requires cap == OUT_BUF_LIMIT && |b0| <= 23 && b1 == b0 + [final] && |data| <= WINDOW
    requires Sent(cap, b1, true, ToBits(0, 2) + StoredBits(|b1| + 2, data), b2, c2)
    requires b2 == BytesToBits(out) + ToBits(bitBuffer, bitsIn)
    ensures ValidBlock(Stored(data)) && c2 && b2 == b0 + BlockBits(|b0|, final, Stored(data)) && |out| + 8 < cap
  {
    hide BlockBits, BytesToBits, ToBits, Aligned;
    BodyIs(|b0|, final, Stored(data));
    ConcatAssoc(b0, [final], ToBits(0, 2) + StoredBits(|b0| + 3, data));
  }
}

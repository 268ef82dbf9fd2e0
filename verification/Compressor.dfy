/** The compressor object: everything a sequence of calls keeps. */
module Compressor {
  import opened Arith
  import opened Bits
  import opened BitIO
  import opened Tokens
  import opened CodeBuffer
  import opened Format
  import opened Blocks
  import opened DynamicBlock
  import opened BlockSize
  import opened BlockFlush
  import opened Dictionary
  import opened Parser
  import opened Deflate
  import Adler

  /**
   No block, with what a flush adds, gives more bytes than this, and none that fills up stands for less
   data than that.
   */
  const MOST_BYTES: nat := OUT_BUF_LIMIT - 1
  const LEAST_DATA: nat := 31 * 1024

  /** What the whole stream of some data takes at most, if nothing is flushed on the way. */
  function StreamBound(n: nat): nat {
    MOST_BYTES * (n / LEAST_DATA + 1)
  }

  /** The bytes a stored block would consist of are still in the dictionary. */
  lemma StillHeld(dict: seq<byte>, data: seq<byte>, lo: int, start: nat, end: nat)
    requires Window(dict, data, lo) && lo <= start <= end <= |data|
    ensures Holds(dict, start, data[start..end])
  {
    forall i | 0 <= i < end - start ensures dict[(start + i) % WINDOW] == data[start..end][i] {
      assert Slot(dict, data, start + i);
    }
  }

  lemma BlockCovers(data: seq<byte>, start: nat, ts: seq<Token>, p: nat, b: Block)
    requires Covers(data, start, ts, p)
    requires if b.Stored? then b.data == data[start..p] else b.ts == ts
    ensures BlockData(b, data[..start]) == Some(data[..p])
  {
    hide Expand;
    assert data[..start] + data[start..p] == data[..p];
  }

  /** Handing over the whole bytes leaves the same stream. */
  lemma Collect(bytes: seq<byte>, out: seq<byte>, carry: seq<bool>)
    ensures BytesToBits(bytes) + (BytesToBits(out) + carry) == BytesToBits(bytes + out) + carry
  {
    BytesToBitsConcat(bytes, out);
    ConcatAssoc(BytesToBits(bytes), BytesToBits(out), carry);
  }

  /** The block and what a flush adds after it keep the stream decodable, or complete it. */
  lemma FlushGrows(bytes: seq<byte>, c1: seq<bool>, zlib: bool, data: seq<byte>, b: Block, more: seq<byte>,
                   flush: Flush, c2: seq<bool>, c3: seq<bool>)
    requires Begun(bytes, c1, zlib, data) && ValidBlock(b) && BlockData(b, data) == Some(more)
    requires c2 == c1 + BlockBits(|c1|, flush == Finish, b) && c3 == c2 + Tail(flush, |c2|, zlib, more)
    ensures flush != Finish ==> Begun(bytes, c3, zlib, more)
    ensures flush == Finish ==> Wrapped(BytesToBits(bytes) + c3, zlib, more)
  {
    hide Begun, Wrapped, BlockBits, BlockData, ValidBlock, BytesToBits, Trailer;
    if flush == Finish {
      StreamEnds(bytes, c1, zlib, data, b, c2, more);
    } else {
      StreamContinues(bytes, c1, zlib, data, b, c2, more);
      if flush == No {
        assert c3 == c2;
      } else {
        EmptyAddsNothing(more);
        StreamContinues(bytes, c2, zlib, more, Stored([]), c3, more);
      }
    }
  }

  lemma EmptyAddsNothing(data: seq<byte>)
    ensures ValidBlock(Stored([])) && BlockData(Stored([]), data) == Some(data)
  {
    assert data + [] == data;
  }

  /** The parts of a matcher's state that writing a block depends on. */
  lemma MatcherFacts(m: Matcher)
    requires m.Valid()
    ensures m.lz.Valid() && m.la.dict != m.lz.buf && Window(m.la.dict[..], m.la.data, m.la.pos - m.la.dictSize)
    ensures 0 <= m.start <= m.Done() <= m.la.pos <= |m.la.data| && m.la.dictSize <= WINDOW
    ensures Covers(m.la.data, m.start, m.lz.Recorded(), m.Done()) && m.lz.total == m.Done() - m.start
  {
    hide Window, Expand;
    CoverSize(m.la.data, m.start, m.lz.Recorded(), m.Done());
  }

  /** Writes the header if it is due, and the block. */
  method WriteBlock(w: BitWriter, m: Matcher, tb: Tables, first: bool, final: bool, ghost bytes: seq<byte>)
    returns (ghost b: Block, ghost c1: seq<bool>)
    requires w.Valid() && w.clean && |w.Bits()| < 8 && w.capacity == OUT_BUF_LIMIT
    requires m.Valid() && tb.Shape() && m.lz.lit !in tb.Repr() && m.lz.dst !in tb.Repr()
    requires m.start <= |m.la.data| && Open(bytes, w.Bits(), m.flags.zlib, first, m.la.data[..m.start])
    modifies w, m.lz`pos, m.lz.buf, m.lz.lit, tb.Repr()
    ensures w.Valid() && w.clean && |w.out| + 8 < w.capacity
    ensures Begun(bytes, c1, m.flags.zlib, old(m.la.data[..m.start])) && ValidBlock(b)
    ensures w.Bits() == c1 + BlockBits(|c1|, final, b)
    ensures BlockData(b, old(m.la.data[..m.start])) == Some(old(m.la.data[..m.Done()]))
  {
    hide Begun, BlockBits, ValidBlock, BlockData, Window, BytesToBits, w.Bits, m.Valid, m.lz.Valid, Covers;
    MatcherFacts(m);
    ghost var data, p, start, ts := m.la.data, m.Done(), m.start, m.lz.Recorded();
    if first {
      PutHeader(w, m.flags.zlib);
      StreamStarts(m.flags.zlib, w.Bits());
    }
    c1 := w.Bits();
    var rawPossible := m.la.pos - m.start <= m.la.dictSize;
    if rawPossible {
      StillHeld(m.la.dict[..], data, m.la.pos - m.la.dictSize, start, p);
    }
    b := EmitBlock(w, m.lz, tb, m.la.dict, m.start, m.flags.raw, m.flags.static', rawPossible, final, data[start..p]);
    BlockCovers(data, start, ts, p, b);
  }

  lemma SentUse(cap: nat, b0: seq<bool>, x: seq<bool>, b1: seq<bool>)
    requires Sent(cap, b0, true, x, b1, true)
    ensures b1 == b0 + x
  {
  }

  lemma TailSize(flush: Flush, pos: nat, zlib: bool, data: seq<byte>)
    ensures |Tail(flush, pos, zlib, data)| <= 42
  {
    hide Adler.Checksum, BigEndian, Aligned, ToBits, BytesToBits;
  }

  /** What a flush adds fits if eight bytes are left. */
  lemma TailFits(w: BitWriter, c: seq<bool>, n: nat, tail: seq<bool>)
    requires w.Valid() && |c| < 8 * n + 8 && n + 8 < w.capacity && |tail| <= 42
    requires Sent(w.capacity, c, true, tail, w.Bits(), w.clean)
    ensures |w.out| < w.capacity
  {
    hide BytesToBits, ToBits;
    assert |w.Bits()| == 8 * |w.out| + w.bitsIn;
  }

  lemma WriterCarry(w: BitWriter)
    requires w.Valid()
    ensures |w.out| < w.capacity ==> w.clean
    ensures w.Bits() == BytesToBits(w.out) + ToBits(w.bitBuffer, w.bitsIn) && w.bitsIn < 8
  {
  }

  /** A stream that ends on a byte boundary leaves no bits behind. */
  lemma NothingCarried(bytes: seq<byte>, out: seq<byte>, bitBuffer: nat, bitsIn: nat, zlib: bool, data: seq<byte>)
    requires bitsIn < 8 && Wrapped(BytesToBits(bytes) + (BytesToBits(out) + ToBits(bitBuffer, bitsIn)), zlib, data)
    ensures bitsIn == 0 && Wrapped(BytesToBits(bytes + out), zlib, data)
  {
    hide BytesToBits, ToBits, Inflate, At, Adler.Checksum, BigEndian, Aligned;
    var bits := BytesToBits(bytes) + (BytesToBits(out) + ToBits(bitBuffer, bitsIn));
    assert |bits| == 8 * |bytes| + 8 * |out| + bitsIn;
    Collect(bytes, out, ToBits(bitBuffer, bitsIn));
    assert BytesToBits(bytes + out) + ToBits(bitBuffer, bitsIn) == BytesToBits(bytes + out);
  }

  lemma Carried(bytes: seq<byte>, out: seq<byte>, carry: seq<bool>, zlib: bool, data: seq<byte>)
    requires Begun(bytes, BytesToBits(out) + carry, zlib, data)
    ensures Begun(bytes + out, carry, zlib, data)
  {
    hide BytesToBits, Decodes, At;
    Collect(bytes, out, carry);
  }

  /** Takes the finished bytes out of the output buffer; bits short of a byte stay behind. */
  method TakeBytes(w: BitWriter) returns (out: seq<byte>)
    requires w.Valid() && w.clean
    modifies w
    ensures w.Valid() && w.clean && w.out == [] && |w.Bits()| < 8
    ensures out == old(w.out) && w.bitBuffer == old(w.bitBuffer) && w.bitsIn == old(w.bitsIn)
    ensures w.Bits() == ToBits(w.bitBuffer, w.bitsIn) && old(w.Bits()) == BytesToBits(out) + w.Bits()
  {
    hide ToBits;
    out := w.out;
    w.out := [];
    NoBytes([]);
    assert BytesToBits([]) + ToBits(w.bitBuffer, w.bitsIn) == ToBits(w.bitBuffer, w.bitsIn);
  }

  lemma CanRestart(m: Matcher)
    requires m.Valid()
    ensures Restartable(m) && m.la.dict != m.lz.buf
  {
    hide Window, Expand, Layout, Counted;
    MatcherFacts(m);
  }

  /** Arrays of bytes are not arrays of numbers. */
  lemma OtherArrays(m: Matcher, tb: Tables)
    ensures m.la.dict as object !in tb.Repr() && m.la.dict as object != m.lz.lit as object
    ensures m.la.dict as object != m.lz.dst as object
  {
  }

  /** Writes everything recorded as a block, with what the flush adds, and takes out the bytes. */
  method WriteFlush(w: BitWriter, m: Matcher, tb: Tables, first: bool, flush: Flush, adler: nat, ghost bytes: seq<byte>,
                    ghost more: seq<byte>)
    returns (out: seq<byte>)
    requires w.Valid() && w.clean && |w.Bits()| < 8 && w.capacity == OUT_BUF_LIMIT
    requires m.Valid() && tb.Shape() && m.lz.lit !in tb.Repr() && m.lz.dst !in tb.Repr()
    requires m.start <= |m.la.data| && Open(bytes, w.Bits(), m.flags.zlib, first, m.la.data[..m.start])
    requires 0 <= m.Done() <= |m.la.data| && more == m.la.data[..m.Done()]
    requires flush == Finish && m.flags.zlib ==> adler == Adler.Checksum(more)
    modifies w, m.lz`pos, m.lz.buf, m.lz.lit, tb.Repr()
    ensures |out| <= MOST_BYTES
    ensures w.Valid() && w.clean && w.out == [] && |w.Bits()| < 8
    ensures flush != Finish ==> Begun(bytes + out, w.Bits(), m.flags.zlib, more)
    ensures flush == Finish ==> w.Bits() == [] && Wrapped(BytesToBits(bytes + out), m.flags.zlib, more)
  {
    hide Begun, Wrapped, BlockBits, ValidBlock, BlockData, BytesToBits, ToBits, w.Bits, Sent, Tail, Open, m.Valid,
      Adler.Checksum;
    ghost var zlib, data := m.flags.zlib, m.la.data[..m.start];
    ghost var b, c1 := WriteBlock(w, m, tb, first, flush == Finish, bytes);
    ghost var c2, n2 := w.Bits(), |w.out|;
    WriterCarry(w);
    PutTail(w, flush, m.flags.zlib, adler, more);
    WriterCarry(w);
    TailSize(flush, |c2|, zlib, more);
    TailFits(w, c2, n2, Tail(flush, |c2|, zlib, more));
    assert |w.out| < w.capacity;
    SentUse(w.capacity, c2, Tail(flush, |c2|, zlib, more), w.Bits());
    FlushGrows(bytes, c1, zlib, data, b, more, flush, c2, w.Bits());
    out := TakeBytes(w);
    if flush == Finish {
      NothingCarried(bytes, out, w.bitBuffer, w.bitsIn, zlib, more);
    } else {
      Carried(bytes, out, w.Bits(), zlib, more);
    }
  }

  /** Writes everything recorded as a block and starts afresh. */
  method FlushTokens(w: BitWriter, m: Matcher, tb: Tables, first: bool, flush: Flush, adler: nat,
                     ghost bytes: seq<byte>)
    returns (out: seq<byte>)
    requires w.Valid() && w.clean && |w.Bits()| < 8 && w.capacity == OUT_BUF_LIMIT
    requires m.Valid() && tb.Shape() && m.lz.lit !in tb.Repr() && m.lz.dst !in tb.Repr()
    requires m.start <= |m.la.data| && Open(bytes, w.Bits(), m.flags.zlib, first, m.la.data[..m.start])
    requires 0 <= m.Done() <= |m.la.data|
    requires flush == Finish && m.flags.zlib ==> adler == Adler.Checksum(m.la.data[..m.Done()])
    modifies w, m`start, m.lz, m.lz.buf, m.lz.lit, m.lz.dst, tb.Repr()
    ensures |out| <= MOST_BYTES
    ensures w.Valid() && w.clean && w.out == [] && |w.Bits()| < 8 && m.Valid() && m.lz.pos == 1
    ensures m.start == old(m.Done())
    ensures flush != Finish ==> Begun(bytes + out, w.Bits(), m.flags.zlib, old(m.la.data[..m.Done()]))
    ensures flush == Finish ==>
      w.Bits() == [] && Wrapped(BytesToBits(bytes + out), m.flags.zlib, old(m.la.data[..m.Done()]))
  {
    hide Begun, Wrapped, BytesToBits, w.Bits, Open, m.Valid, Restartable, Adler.Checksum;
    CanRestart(m);
    OtherArrays(m, tb);
    out := WriteFlush(w, m, tb, first, flush, adler, bytes, m.la.data[..m.Done()]);
    Restart(m);
  }

  /** Empties the token buffer for the next block. */
  method Restart(m: Matcher)
    requires Restartable(m)
    modifies m`start, m.lz, m.lz.lit, m.lz.dst
    ensures m.Valid() && m.lz.pos == 1 && m.start == old(m.Done())
  {
    m.start := m.start + m.lz.total;
    m.lz.Reset();
    CoverNothing(m.la.data, m.start);
  }

  /** All of a matcher's state except the token buffer, which has been written out. */
  ghost predicate Restartable(m: Matcher)
    reads m, m.la, m.la.dict, m.lz`total
  {
    && m.Apart() && m.la.Valid() && m.lz.buf.Length == CODE_BUF_SIZE
    && m.lz.lit.Length == 288 && m.lz.dst.Length == 32 && m.lz.lit != m.lz.dst
    && Held(m.la.data, m.la.pos, m.la.size, m.lit, m.len, m.dist) && (m.flags.rle || m.flags.raw ==> m.len == 0)
    && m.start + m.lz.total == m.Done()
  }

  /** Takes in input behind what is there already. */
  method TakeInput(m: Matcher, src: seq<byte>, from: nat) returns (to: nat)
    requires m.Valid() && from <= |src|
    modifies m.la, m.la.dict, m.la.next, m.la.hash
    ensures m.Valid() && from <= to <= |src| && m.la.data == old(m.la.data) + src[from..to] && m.la.pos == old(m.la.pos)
    ensures to - from == Min(|src| - from, MAX_MATCH - old(m.la.size)) && m.la.size == old(m.la.size) + (to - from)
  {
    hide m.la.Valid, m.lz.Valid, Held, Covers;
    ghost var data, size := m.la.data, m.la.size;
    LaFacts(m.la);
    to := m.la.Fill(src, from);
    HeldMore(data, m.la.data, m.la.pos, size, m.la.size, m.lit, m.len, m.dist);
    CoverMore(data, m.la.data, m.start, m.lz.Recorded(), m.Done());
  }

  /** These blocks may take that many bytes, and those not cut short may stand for that much data. */
  ghost predicate Sized(bytes: nat, blocks: nat, cut: nat, data: nat) {
    cut <= blocks && bytes <= MOST_BYTES * blocks && LEAST_DATA * (blocks - cut) <= data
  }

  lemma OneMore(bytes: seq<byte>, out: seq<byte>, blocks: nat, cut: nat, data: nat, total: nat, flush: Flush)
    requires Sized(|bytes|, blocks, cut, data) && |out| <= MOST_BYTES && (flush == No ==> total >= LEAST_DATA)
    ensures Sized(|bytes + out|, blocks + 1, cut + (if flush == No then 0 else 1), data + total)
  {
  }

  class Deflater {
    const flags: Flags
    const m: Matcher
    const tb: Tables
    const w: BitWriter
    var first: bool
    var pending: seq<byte>
    var adler: nat
    var finished: bool
    var wantsToFinish: bool
    var status: Status
    var room: nat
    var output: seq<byte>
    ghost var bytes: seq<byte>
    ghost var before: seq<byte>
    ghost var limit: nat
    /** How many blocks have been written, and how many of them because of a flush. */
    ghost var blocks: nat
    ghost var cut: nat

    constructor (flags: Flags)
      ensures Valid() && !finished && !wantsToFinish && status == Okay && pending == [] && before == output == []
      ensures m.la.data == [] && adler == 1 && this.flags == flags && cut == 0
      ensures fresh(w) && fresh(m) && fresh(m.la) && fresh(m.lz) && fresh(m.Arrays()) && fresh(tb.Repr())
    {
      hide Begun, Wrapped, BytesToBits, Matcher.Valid;
      this.flags := flags;
      w := new BitWriter(OUT_BUF_LIMIT);
      tb := new Tables();
      m := new Matcher(flags);
      first, pending, adler, finished, wantsToFinish, status := true, [], 1, false, false, Okay;
      room, output, bytes, before, limit, blocks, cut := 0, [], [], [], 0, 0, 0;
      assert Adler.Checksum([]) == 1;
    }

    ghost predicate Shape() {
      w.capacity == OUT_BUF_LIMIT && tb.Shape() && m.flags == flags && m.lz.lit !in tb.Repr() && m.lz.dst !in tb.Repr()
    }

    /** The stream so far decodes to the data of the blocks sent, or is finished and decodes to all of it. */
    ghost predicate Stream()
      reads this`first, this`pending, this`finished, this`room, this`output, this`bytes, this`before, this`limit
      reads this`blocks, this`cut, w, m, m.la
    {
      && m.start <= |m.la.data| && before + output + pending == bytes && |output| + room == limit
      && Sized(|bytes|, blocks, cut, m.start)
      && (!finished ==> Open(bytes, w.Bits(), flags.zlib, first, m.la.data[..m.start]))
      && (finished ==> Wrapped(BytesToBits(bytes), flags.zlib, m.la.data))
    }

    ghost predicate Core()
      reads this`first, this`pending, this`finished, this`room, this`output, this`bytes, this`before, this`limit
      reads this`blocks, this`cut, w, m, m.la, m.la.dict, m.lz, m.lz.buf, m.lz.lit, m.lz.dst
    {
      Shape() && m.Valid() && w.Valid() && w.clean && |w.Bits()| < 8 && Stream()
    }

    /** Gives the caller what there is room for and keeps the rest. */
    method Deliver(out: seq<byte>)
      requires pending == [] && |out| <= OUT_BUF_SIZE
      modifies this`pending, this`room, this`output
      ensures before + output + pending == before + old(output) + out
      ensures |output| + room == old(|output| + room) && (pending != [] ==> room == 0)
    {
      var n := if room >= OUT_BUF_SIZE then |out| else Min(|out|, room);
      output := output + out[..n];
      pending, room := out[n..], room - n;
    }

    /** Takes over the bytes of a block that has been written. */
    method Account(flush: Flush, out: seq<byte>)
      requires Shape() && m.Valid() && w.Valid() && w.clean && |w.Bits()| < 8 && m.start <= |m.la.data|
      requires pending == [] && before + output == bytes && |output| + room == limit && |out| <= OUT_BUF_SIZE
      requires Sized(|bytes + out|, blocks + 1, cut + (if flush == No then 0 else 1), m.start)
      requires flush != Finish ==> Begun(bytes + out, w.Bits(), flags.zlib, m.la.data[..m.start])
      requires flush == Finish ==> Wrapped(BytesToBits(bytes + out), flags.zlib, m.la.data)
      modifies this`first, this`pending, this`finished, this`room, this`output, this`bytes, this`blocks, this`cut
      ensures Core() && finished == (flush == Finish) && (pending != [] ==> room == 0)
      ensures cut == old(cut) + if flush == No then 0 else 1
    {
      hide m.Valid, w.Valid, w.Bits, Begun, Wrapped, BytesToBits, Shape, Sized;
      bytes, blocks, cut := bytes + out, blocks + 1, cut + if flush == No then 0 else 1;
      Deliver(out);
      first, finished := false, flush == Finish;
    }

    /**
     Writes the recorded tokens as a block and hands its bytes on. They always fit the buffer, as the
     source asserts.
     */
    method FlushBlock(flush: Flush)
      requires Core() && !finished && pending == []
      requires flush == Finish ==> m.Done() == |m.la.data| && (flags.zlib ==> adler == Adler.Checksum(m.la.data))
      requires flush == No ==> m.lz.total >= LEAST_DATA
      modifies this`first, this`pending, this`finished, this`room, this`output, this`bytes, this`blocks, this`cut
      modifies w, m`start, m.lz, m.lz.buf, m.lz.lit, m.lz.dst, tb.Repr()
      ensures Core() && m.lz.pos == 1 && finished == (flush == Finish) && (pending != [] ==> room == 0)
      ensures cut == old(cut) + if flush == No then 0 else 1
    {
      hide m.Valid, w.Valid, w.Bits, Begun, Wrapped, BytesToBits, Adler.Checksum, Sized;
      DoneBounds(m);
      ghost var start, total := m.start, m.lz.total;
      assert flush == Finish ==> m.la.data[..m.Done()] == m.la.data;
      var out := FlushTokens(w, m, tb, first, flush, adler, bytes);
      OneMore(bytes, out, blocks, cut, start, total, flush);
      Account(flush, out);
    }

    /** The loop condition for ending a block early. */
    predicate BlockFull()
      reads m.lz
    {
      m.lz.pos > CODE_BUF_SIZE - 8 || (m.lz.total > 31 * 1024 && (m.lz.pos * 115 / 128 >= m.lz.total || flags.raw))
    }

    /** Fills the lookahead and, unless more input might lengthen a match, takes one step of the parse. */
    method ParseStep(src: seq<byte>, from: nat, flush: Flush) returns (to: nat, stepped: bool)
      requires Core() && m.lz.pos <= CODE_BUF_SIZE - 8 && !finished && from <= |src|
      requires from < |src| || (flush != No && m.la.size > 0)
      modifies m, m.la, m.la.dict, m.la.next, m.la.hash, m.lz, m.lz.buf, m.lz.lit, m.lz.dst
      ensures Core() && from <= to <= |src| && m.la.data == old(m.la.data) + src[from..to]
      ensures stepped ==> |src| - to + m.la.size < |src| - from + old(m.la.size)
      ensures !stepped ==> flush == No && to == |src| && m.lz.pos <= CODE_BUF_SIZE - 8
    {
      hide m.Valid, w.Valid, w.Bits, Begun, Wrapped, BytesToBits, Shape, Sized;
      ghost var data0 := m.la.data;
      NothingHeld(m);
      to := TakeInput(m, src, from);
      assert m.la.data[..m.start] == data0[..m.start];
      NothingHeld(m);
      stepped := flush != No || m.la.size >= MAX_MATCH;
      if stepped {
        m.Step();
        NothingHeld(m);
      }
    }

    /** A step of the parse and, if the block has filled up, its end. */
    method ParseAndFlush(src: seq<byte>, from: nat, flush: Flush) returns (to: nat, stepped: bool)
      requires Core() && m.lz.pos <= CODE_BUF_SIZE - 8 && !finished && pending == [] && from <= |src|
      requires from < |src| || (flush != No && m.la.size > 0)
      modifies this`first, this`pending, this`finished, this`room, this`output, this`bytes, this`blocks, this`cut
      modifies w, m, m.la, m.la.dict, m.la.next, m.la.hash, m.lz, m.lz.buf, m.lz.lit, m.lz.dst, tb.Repr()
      ensures Core() && from <= to <= |src| && m.la.data == old(m.la.data) + src[from..to] && cut == old(cut)
      ensures m.lz.pos <= CODE_BUF_SIZE - 8 && !finished && (pending != [] ==> room == 0)
      ensures stepped ==> |src| - to + m.la.size < |src| - from + old(m.la.size)
      ensures !stepped ==> flush == No && to == |src| && pending == []
    {
      hide Core;
      to, stepped := ParseStep(src, from, flush);
      if stepped && BlockFull() {
        FullBlock();
        FlushBlock(No);
      }
    }

    /** Parses as much of the input as the flush mode asks for, ending blocks as they fill up. */
    method CompressNormal(src: seq<byte>, flush: Flush) returns (taken: nat)
      requires Core() && m.lz.pos <= CODE_BUF_SIZE - 8 && !finished && pending == []
      modifies this`first, this`pending, this`finished, this`room, this`output, this`bytes, this`blocks, this`cut
      modifies w, m, m.la, m.la.dict, m.la.next, m.la.hash, m.lz, m.lz.buf, m.lz.lit, m.lz.dst, tb.Repr()
      ensures cut == old(cut)
      ensures taken <= |src| && m.la.data == old(m.la.data) + src[..taken]
      ensures Core() && m.lz.pos <= CODE_BUF_SIZE - 8 && !finished && (pending != [] ==> room == 0)
      ensures pending != [] || (taken == |src| && (flush != No ==> m.la.size == 0))
    {
      hide Core;
      taken := 0;
      ghost var data0 := m.la.data;
      var stepped := true;
      while taken < |src| || (flush != No && m.la.size > 0)
        invariant Core() && m.lz.pos <= CODE_BUF_SIZE - 8 && !finished && pending == []
        invariant taken <= |src| && m.la.data == data0 + src[..taken] && cut == old(cut)
        decreases |src| - taken + m.la.size
      {
        taken, stepped := ParseAndFlush(src, taken, flush);
        if !stepped || pending != [] {
          return;
        }
      }
    }

    /** A block that has filled up stands for much data. */
    lemma FullBlock()
      requires Core() && BlockFull()
      ensures m.lz.total >= LEAST_DATA
    {
      hide w.Valid, w.Bits, Open, Wrapped, BytesToBits, Covers, Window, Held;
      hide Layout, Counted, Covered;
      LayoutCovered(m.lz.buf[..], m.lz.pos, m.lz.flagsPos, m.lz.left, m.lz.head, m.lz.cur);
    }

    /** Everything handed to the caller so far. */
    ghost function Delivered(): seq<byte>
      reads this`before, this`output
    {
      before + output
    }

    /** What every call finds and leaves. */
    ghost predicate Valid()
      reads this`first, this`pending, this`finished, this`room, this`output, this`bytes, this`before, this`limit
      reads this`blocks, this`cut, this`adler, w, m, m.la, m.la.dict, m.lz, m.lz.buf, m.lz.lit, m.lz.dst
    {
      && Core() && m.lz.pos <= CODE_BUF_SIZE - 8
      && (flags.zlib || flags.adler ==> adler == Adler.Checksum(m.la.data))
    }

    /** Hands over pending bytes as far as there is room. */
    method FlushOutput() returns (st: Status)
      modifies this`pending, this`room, this`output
      ensures output + pending == old(output + pending) && |output| + room == old(|output| + room)
      ensures (pending != [] ==> room == 0) && room <= old(room) && (old(pending) == [] ==> pending == [])
      ensures old(pending) != [] && old(room) > 0 ==> |output| > |old(output)|
      ensures st == (if finished && pending == [] then Done else Okay)
    {
      var n := Min(room, |pending|);
      output := output + pending[..n];
      pending, room := pending[n..], room - n;
      st := if finished && pending == [] then Done else Okay;
    }

    /** Forgets the dictionary, so that what follows can be decoded without what came before. */
    method ForgetHistory()
      requires Valid() && m.la.size == 0
      modifies m.la`dictSize, m.la.hash, m.la.next
      ensures Valid() && m.la.dictSize == 0
    {
      hide m.lz.Valid, w.Valid, w.Bits, Begun, Wrapped, BytesToBits, Shape, Held, Covers, Adler.Checksum, Sized;
      ShrinkWindow(m.la.dict[..], m.la.data, m.la.pos - m.la.dictSize, m.la.pos);
      m.la.dictSize := 0;
      forall i | 0 <= i < m.la.hash.Length {
        m.la.hash[i] := 0;
      }
      forall i | 0 <= i < m.la.next.Length {
        m.la.next[i] := 0;
      }
    }

    /** Brings the checksum up to date with the input taken. */
    method UpdateChecksum(input: seq<byte>, taken: nat, ghost data0: seq<byte>)
      requires Core() && m.lz.pos <= CODE_BUF_SIZE - 8 && taken <= |input| && m.la.data == data0 + input[..taken]
      requires flags.zlib || flags.adler ==> adler == Adler.Checksum(data0)
      modifies this`adler
      ensures Valid()
    {
      hide m.Valid, w.Valid, w.Bits, Begun, Wrapped, BytesToBits, Shape, Adler.Checksum, Sized;
      if flags.zlib || flags.adler {
        adler := Adler.Adler32(adler, input[..taken], data0);
      }
    }

    /** Ends the block the flush asks for, once all input is parsed. */
    method EndBlock(flush: Flush)
      requires Valid() && !finished && pending == [] && m.la.size == 0
      requires flush != No
      modifies this`first, this`pending, this`finished, this`room, this`output, this`bytes, this`blocks, this`cut
      modifies w, m`start, m.la`dictSize, m.la.next, m.la.hash, m.lz, m.lz.buf, m.lz.lit, m.lz.dst, tb.Repr()
      ensures Valid() && finished == (flush == Finish) && (pending != [] ==> room == 0) && cut == old(cut) + 1
    {
      hide Core, Adler.Checksum;
      AllParsed();
      FlushBlock(flush);
      if flush == Full {
        ForgetHistory();
      }
    }

    /** Parses the input and, when all of it is used up, ends the block the flush asks for. */
    method CompressMore(input: seq<byte>, flush: Flush) returns (taken: nat)
      requires Valid() && !finished && pending == []
      modifies this`first, this`pending, this`finished, this`room, this`output, this`bytes, this`adler, this`blocks,
        this`cut
      modifies w, m, m.la, m.la.dict, m.la.next, m.la.hash, m.lz, m.lz.buf, m.lz.lit, m.lz.dst, tb.Repr()
      ensures taken <= |input| && m.la.data == old(m.la.data) + input[..taken]
      ensures Valid() && (pending != [] ==> room == 0)
      ensures pending != [] || (taken == |input| && finished == (flush == Finish))
      ensures finished ==> flush == Finish && taken == |input|
      ensures cut <= old(cut) + if flush == No || (flush == Finish && !finished) then 0 else 1
    {
      hide Core, Adler.Checksum;
      ghost var data0 := m.la.data;
      taken := CompressNormal(input, flush);
      UpdateChecksum(input, taken, data0);
      if flush != No && m.la.size == 0 && taken == |input| && pending == [] {
        EndBlock(flush);
      }
    }

    /** Goes on with the input if there is nothing to hand over first. */
    method Proceed(input: seq<byte>, flush: Flush) returns (st: Status, taken: nat)
      requires Valid()
      modifies this`first, this`pending, this`finished, this`room, this`output, this`bytes, this`adler, this`blocks,
        this`cut
      modifies w, m, m.la, m.la.dict, m.la.next, m.la.hash, m.lz, m.lz.buf, m.lz.lit, m.lz.dst, tb.Repr()
      ensures taken <= |input| && m.la.data == old(m.la.data) + input[..taken]
      ensures Valid() && st != BadParam && (st == Done <==> finished && pending == [])
      ensures st == Done || old(pending) != [] || old(finished) || room == 0 || (taken == |input| && flush != Finish)
      ensures old(finished) || (finished ==> taken == |input|)
      ensures cut <= old(cut) + if flush == No || (flush == Finish && finished == old(finished)) then 0 else 1
      ensures old(finished) ==> finished
      ensures old(pending) != [] && old(room) > 0 ==> |output| > |old(output)|
    {
      hide Core, Adler.Checksum;
      taken := 0;
      assert m.la.data == m.la.data + input[..0];
      if pending == [] && !finished {
        taken := CompressMore(input, flush);
      }
      st := HandOver();
    }

    method HandOver() returns (st: Status)
      requires Valid()
      modifies this`pending, this`room, this`output
      ensures Valid() && room <= old(room) && st == (if finished && pending == [] then Done else Okay)
      ensures old(pending) == [] ==> pending == []
      ensures old(pending) != [] && old(room) > 0 ==> |output| > |old(output)|
    {
      hide m.Valid, w.Valid, w.Bits, Open, Wrapped, BytesToBits, Shape, Adler.Checksum, Sized;
      ghost var given, kept := output, pending;
      st := FlushOutput();
      assert before + output + pending == before + (output + pending);
      assert before + given + kept == before + (given + kept);
    }

    /** Starts a call with an empty output of the given size. */
    method NewCall(outSize: nat)
      requires Valid()
      modifies this`before, this`output, this`room, this`limit
      ensures Valid() && before == old(Delivered()) && output == [] && limit == outSize == room
    {
      hide m.Valid, w.Valid, w.Bits, Open, Wrapped, BytesToBits, Shape, Adler.Checksum, Sized;
      before, output, room, limit := before + output, [], outSize, outSize;
    }

    /** Once the stream is finished and nothing is pending, all of it has been handed over. */
    lemma AllDelivered()
      requires Valid()
      ensures |output| + room == limit
      ensures finished && pending == [] ==> Wrapped(BytesToBits(Delivered()), flags.zlib, m.la.data)
    {
      hide m.Valid, w.Valid, w.Bits, Open, Wrapped, BytesToBits, Shape, Adler.Checksum, Sized;
      assert before + output + [] == before + output;
    }

    /** A call that is in order. */
    method Resume(input: seq<byte>, outSize: nat, flush: Flush) returns (st: Status, taken: nat)
      requires Valid()
      modifies this`first, this`pending, this`finished, this`room, this`output, this`bytes, this`before, this`limit
      modifies this`adler, this`blocks, this`cut
      modifies w, m, m.la, m.la.dict, m.la.next, m.la.hash, m.lz, m.lz.buf, m.lz.lit, m.lz.dst, tb.Repr()
      ensures taken <= |input| && m.la.data == old(m.la.data) + input[..taken]
      ensures Valid() && st != BadParam && (st == Okay ==> !finished || pending != [])
      ensures |output| <= outSize && before == old(Delivered())
      ensures st == Done ==>
        Wrapped(BytesToBits(Delivered()), flags.zlib, m.la.data) && (old(finished) || taken == |input|)
      ensures st == Okay && old(pending) == [] && !old(finished) && |output| < outSize ==>
        taken == |input| && flush != Finish
      ensures cut <= old(cut) + if flush == No || (flush == Finish && finished == old(finished)) then 0 else 1
      ensures old(finished) ==> finished
      ensures finished && !old(finished) ==> taken == |input|
      ensures st == Okay && flush == Finish && outSize > 0 && !old(finished && pending == []) ==> output != []
    {
      hide Valid, Wrapped, BytesToBits, Delivered;
      NewCall(outSize);
      st, taken := Proceed(input, flush);
      AllDelivered();
    }

    /**
     One call. Whatever the sizes of the pieces the input comes in and the output goes out by, the bytes
     handed over are those of one stream; once a call has returned Done they inflate to exactly the input
     taken.
     */
    method Compress(input: seq<byte>, outSize: nat, flush: Flush) returns (st: Status, taken: nat, out: seq<byte>)
      requires Valid()
      modifies this
      modifies w, m, m.la, m.la.dict, m.la.next, m.la.hash, m.lz, m.lz.buf, m.lz.lit, m.lz.dst, tb.Repr()
      ensures taken <= |input| && m.la.data == old(m.la.data) + input[..taken]
      ensures Valid() && (st == Okay ==> status == Okay && (!finished || pending != []))
      ensures |out| <= outSize && Delivered() == old(Delivered()) + out
      ensures st == BadParam <==> old(status) != Okay || (old(wantsToFinish) && flush != Finish)
      ensures st == BadParam ==> taken == 0 && out == []
      ensures st == Done ==>
        Wrapped(BytesToBits(Delivered()), flags.zlib, m.la.data) && (old(finished) || taken == |input|)
      ensures st == Okay && old(pending) == [] && !old(finished) && |out| < outSize ==>
        taken == |input| && flush != Finish
      ensures cut <= old(cut) + if flush == No || (flush == Finish && finished == old(finished)) then 0 else 1
      ensures old(finished) ==> finished
      ensures finished && !old(finished) ==> taken == |input|
      ensures st == Okay && old(status) == Okay && flush == Finish && outSize > 0 && !old(finished && pending == []) ==>
        out != []
    {
      hide Valid, Wrapped, BytesToBits;
      if status != Okay || (wantsToFinish && flush != Finish) {
        NewCall(0);
        status := BadParam;
        return BadParam, 0, [];
      }
      wantsToFinish := wantsToFinish || flush == Finish;
      st, taken := Resume(input, outSize, flush);
      status := st;
      out := output;
    }

    /**
     Without flushes on the way there are hardly more blocks than the data fill, so the stream is
     bounded; and while it is not complete, or not all handed over, the bound has not been reached.
     */
    lemma SmallStream()
      requires Valid() && cut <= (if finished then 1 else 0)
      ensures |Delivered()| <= StreamBound(|m.la.data|)
      ensures !finished || pending != [] ==> |Delivered()| < StreamBound(|m.la.data|)
    {
      hide m.Valid, w.Valid, w.Bits, Open, Wrapped, BytesToBits, Shape, Adler.Checksum;
      var n := |m.la.data|;
      assert blocks - cut <= n / LEAST_DATA;
      assert |bytes| == |before| + |output| + |pending|;
    }

    lemma AllParsed()
      requires Core() && m.la.size == 0
      ensures m.Done() == |m.la.data|
    {
      NothingHeld(m);
    }
  }

  /** A held match always has lookahead left to cover. */
  lemma NothingHeld(m: Matcher)
    requires m.Valid()
    ensures m.la.size <= MAX_MATCH && |m.la.data| == m.la.pos + m.la.size
    ensures m.la.size == 0 ==> m.Done() == |m.la.data|
  {
  }

  lemma DoneBounds(m: Matcher)
    requires m.Valid()
    ensures 0 <= m.start <= m.Done() <= |m.la.data| && m.Done() == m.start + m.lz.total
  {
    hide Window, Expand, Layout, Counted;
    MatcherFacts(m);
  }
}

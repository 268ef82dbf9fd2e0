/** Reading a stream of blocks, with input and output that may end at any point. */
module BlockReader {
  import opened Arith
  import opened Bits
  import opened Canonical
  import opened DecodeTable
  import opened Format
  import opened Blocks
  import opened BitReader
  import opened HuffDecode
  import opened MatchCopy
  import opened OutputBuffer
  import opened Inflater
  import opened StoredReader
  import opened HeaderReader

  // ----- where a block begins

  /** The three bits in front of a block. */
  lemma BlockStart(bits: seq<bool>, pos: nat)
    requires Number(bits, pos, 3).Some?
    ensures pos < |bits| && bits[pos] == (Number(bits, pos, 3).value % 2 == 1)
    ensures Number(bits, pos + 1, 2) == Some(Number(bits, pos, 3).value / 2)
  {
    var b := bits[pos..pos + 3];
    assert b[0] == bits[pos] && b[1..] == bits[pos + 1..pos + 3];
  }

  lemma NoBlock(bits: seq<bool>, pos: nat, out: seq<byte>)
    requires pos + 3 > |bits|
    ensures Inflate(bits, pos, out) == None
  {
    hide InflateStored, InflateCodes, DynamicTables, StaticLit, StaticDst;
  }

  /** What a dynamic block says, its header beginning at q. */
  ghost function HeadGoes(q: nat, bits: seq<bool>, out: seq<byte>): (r: Result) {
    var h := DynamicTables(bits, q);
    if h.None? then None else InflateCodes(h.value.1, h.value.2, bits, h.value.0, out)
  }

  /** What a stream says once the present block has said x. */
  ghost function Rest(final: bool, bits: seq<bool>, x: Result): (r: Result) {
    if x.None? || final then x else Inflate(bits, x.value.0, x.value.1)
  }

  lemma BlockIs(bits: seq<bool>, pos: nat, out: seq<byte>, v: nat)
    requires Number(bits, pos, 3) == Some(v)
    ensures Inflate(bits, pos, out) == Rest(v % 2 == 1, bits,
      if v / 2 == 0 then InflateStored(bits, pos + 3, out)
      else if v / 2 == 1 then InflateCodes(StaticLit(), StaticDst(), bits, pos + 3, out)
      else if v / 2 == 2 then HeadGoes(pos + 3, bits, out)
      else None)
  {
    hide Number, InflateStored, InflateCodes, DynamicTables, StaticLit, StaticDst;
    BlockStart(bits, pos);
  }

  lemma BlockGrows(bits: seq<bool>, pos: nat, out: seq<byte>)
    requires InflateBlock(bits, pos, out).Some?
    ensures out <= InflateBlock(bits, pos, out).value.out
  {
    hide Number, InflateStored, InflateCodes, DynamicTables, StaticLit, StaticDst, RawGoes;
    var kind := Number(bits, pos + 1, 2).value;
    if kind == 0 {
      StoredGoes(bits, pos + 3, out);
      RawGrows(RawHead([]), bits, Aligned(pos + 3), out);
    } else if kind == 1 {
      OutputGrows(StaticLit(), StaticDst(), bits, pos + 3, out);
    } else {
      var h := DynamicTables(bits, pos + 3).value;
      OutputGrows(h.1, h.2, bits, h.0, out);
    }
  }

  /** A stream only ever adds to the output. */
  lemma {:induction false} StreamGrows(bits: seq<bool>, pos: nat, out: seq<byte>)
    requires Inflate(bits, pos, out).Some?
    ensures out <= Inflate(bits, pos, out).value.1
    decreases |bits| - pos
  {
    hide InflateBlock;
    BlockGrows(bits, pos, out);
    var b := InflateBlock(bits, pos, out).value;
    if !b.final {
      StreamGrows(bits, b.next, b.out);
    }
  }

  // ----- tables

  class TableSet {
    const t0: HuffTable
    const t1: HuffTable
    const t2: HuffTable
    const lens: array<nat>

    ghost const repr: set<object>

    constructor ()
      ensures Sound() && fresh(repr)
    {
      var lit := new HuffTable();
      var dst := new HuffTable();
      var cl := new HuffTable();
      var all := new nat[LEN_CODES];
      t0, t1, t2, lens := lit, dst, cl, all;
      repr := {lit, lit.codeSize, lit.lk, lit.tr, dst, dst.codeSize, dst.lk, dst.tr, cl, cl.codeSize, cl.lk, cl.tr,
        all};
    }

    ghost predicate Sound() {
      && Separate(t0, t1, t2, lens)
      && repr == {t0, t0.codeSize, t0.lk, t0.tr, t1, t1.codeSize, t1.lk, t1.tr, t2, t2.codeSize, t2.lk, t2.tr, lens}
    }
  }

  /** Sets up the tables of a static block. */
  method SetStatic(t0: HuffTable, t1: HuffTable)
    requires TableShape(t0) && TableShape(t1) && Apart(t0, t1)
    modifies t0, t0.codeSize, t0.lk, t0.tr, t1, t1.codeSize, t1.lk, t1.tr
    ensures Tables(t0, t1) && t0.lens == StaticLit() && t1.lens == StaticDst()
  {
    for i := 0 to 288
      invariant forall j :: 0 <= j < i ==> t0.codeSize[j] == StaticLit()[j]
    {
      t0.codeSize[i] := if i <= 143 then 8 else if i <= 255 then 9 else if i <= 279 then 7 else 8;
    }
    for i := 0 to 32
      invariant forall j :: 0 <= j < 288 ==> t0.codeSize[j] == StaticLit()[j]
      invariant forall j :: 0 <= j < i ==> t1.codeSize[j] == 5
    {
      t1.codeSize[i] := 5;
    }
    assert t0.codeSize[..288] == StaticLit() && t1.codeSize[..32] == StaticDst();
    StaticAccepted();
    AcceptedLens(StaticLit());
    AcceptedLens(StaticDst());
    hide Accepted, Ready, StaticLit, StaticDst, ValidLens;
    var ok := t1.Build(32);
    ok := t0.Build(288);
  }

  lemma AcceptedLens(lens: seq<nat>)
    requires Accepted(lens)
    ensures ValidLens(lens, MAX_BITS)
  {
  }

  // ----- the machine

  /** The inflater is about to read a block, or somewhere inside one. */
  datatype Phase = AtBlock | InRaw(w: Raw) | InHead(h: Head) | InCodes(c: Codes)

  /** What holds of every stream, good or bad. */
  ghost predicate Shape(ph: Phase, r: Reader, ts: TableSet, o: Sink)
    requires ts.Sound()
    reads r, ts.repr, o`made
  {
    match ph
    case AtBlock => true
    case InRaw(w) => r.Pos() % 8 == 0 && (w.RawHead? ==> |w.h| <= 4)
    case InHead(h) => HeadShape(h, ts.t2, ts.lens)
    case InCodes(c) => Tables(ts.t0, ts.t1) && CodesShape(c, o)
  }

  /** What the stream as a whole says, g, is what it says from here on. */
  ghost predicate Says(g: Result, ph: Phase, final: bool, q: nat, r: Reader, ts: TableSet, made: seq<byte>)
    requires ts.Sound()
    reads r, ts.repr
  {
    var bits := BytesToBits(r.all);
    && 0 <= r.Pos()
    && match ph
       case AtBlock => g == Inflate(bits, r.Pos(), made)
       case InRaw(w) => g == Rest(final, bits, RawGoes(w, bits, r.Pos(), made))
       case InHead(h) => ReadTo(r, ts.t2, ts.lens, h, q) && g == Rest(final, bits, HeadGoes(q, bits, made))
       case InCodes(c) => g == Rest(final, bits, CodesGoes(c, ts.t0.lens, ts.t1.lens, bits, r.Pos(), made))
  }

  /** What is being read goes beyond limit. */
  ghost predicate PhaseBeyond(ph: Phase, r: Reader, ts: TableSet, limit: int)
    requires ts.Sound()
    reads r, ts.repr
  {
    var bits := BytesToBits(r.all);
    && 0 <= r.Pos()
    && match ph
       case AtBlock => r.Pos() + 3 > limit
       case InRaw(w) => r.Pos() + 8 > limit && ((w.RawHead? && |w.h| < 4) || (w.RawBytes? && w.n > 0))
       case InHead(h) => HeadBeyond(h, ts.t2.lens, bits, r.Pos(), limit)
       case InCodes(c) => Beyond(c, ts.t0.lens, ts.t1.lens, bits, r.Pos(), limit)
  }

  /** If that is the end of all input, the stream is not complete. */
  lemma PhaseBeyondAll(g: Result, ph: Phase, final: bool, q: nat, r: Reader, ts: TableSet, made: seq<byte>)
    requires ts.Sound() && Says(g, ph, final, q, r, ts, made) && PhaseBeyond(ph, r, ts, |BytesToBits(r.all)|)
    ensures g == None
  {
    hide BytesToBits, Inflate, RawGoes, HeadOK, HeadBeyond, DynamicTables, Beyond, CodesGoes;
    var bits := BytesToBits(r.all);
    match ph
    case AtBlock => NoBlock(bits, r.Pos(), made);
    case InRaw(w) => RawCutShort(w, bits, r.Pos(), made);
    case InHead(h) => HeadBeyondAll(h, q, bits, r.Pos(), ts.t2.codeSize[..19], ts.t2.lens, ts.lens[..]);
    case InCodes(c) => BeyondAll(c, ts.t0.lens, ts.t1.lens, bits, r.Pos(), made);
  }

  /** What has been made is the beginning of what the stream says. */
  lemma SaysGrows(g: Result, ph: Phase, final: bool, q: nat, r: Reader, ts: TableSet, made: seq<byte>)
    requires ts.Sound() && Says(g, ph, final, q, r, ts, made) && g.Some?
    ensures made <= g.value.1
  {
    hide BytesToBits, Inflate, RawGoes, HeadOK, DynamicTables, CodesGoes, InflateCodes;
    var bits := BytesToBits(r.all);
    var x: Result := None;
    match ph {
      case AtBlock =>
        StreamGrows(bits, r.Pos(), made);
      case InRaw(w) =>
        x := RawGoes(w, bits, r.Pos(), made);
        RawGrows(w, bits, r.Pos(), made);
      case InHead(h) =>
        x := HeadGoes(q, bits, made);
        var t := DynamicTables(bits, q).value;
        OutputGrows(t.1, t.2, bits, t.0, made);
      case InCodes(c) =>
        x := CodesGoes(c, ts.t0.lens, ts.t1.lens, bits, r.Pos(), made);
        GoesGrows(c, ts.t0.lens, ts.t1.lens, bits, r.Pos(), made);
    }
    if !ph.AtBlock? && !final {
      StreamGrows(bits, x.value.0, x.value.1);
    }
  }

  /** There is output to come without any more input. */
  ghost predicate PhaseOwes(ph: Phase) {
    (ph.InRaw? && RawOwes(ph.w)) || (ph.InCodes? && Owes(ph.c))
  }

  lemma SaysOwes(g: Result, ph: Phase, final: bool, q: nat, r: Reader, ts: TableSet, made: seq<byte>)
    requires ts.Sound() && Says(g, ph, final, q, r, ts, made) && g.Some? && PhaseOwes(ph)
    ensures |made| < |g.value.1|
  {
    hide BytesToBits, Inflate, RawGoes, CodesGoes, RawOwes, Owes;
    var bits := BytesToBits(r.all);
    var x: Result := None;
    if ph.InRaw? {
      x := RawGoes(ph.w, bits, r.Pos(), made);
      RawOwesMore(ph.w, bits, r.Pos(), made);
    } else {
      x := CodesGoes(ph.c, ts.t0.lens, ts.t1.lens, bits, r.Pos(), made);
      OwesMore(ph.c, ts.t0.lens, ts.t1.lens, bits, r.Pos(), made);
    }
    if !final {
      StreamGrows(bits, x.value.0, x.value.1);
    }
  }

  /** Reads the three bits in front of a block and sets out on it. */
  method BeginBlock(r: Reader, ts: TableSet, o: Sink, ghost g: Result)
    returns (st: Status, ph: Phase, final: bool, ghost q: nat)
    requires r.Valid() && ts.Sound()
    modifies r`cur, r`bitBuf, r`numBits, ts.repr
    ensures r.Valid() && st in {Going, Failed, NeedsInput} && Shape(ph, r, ts, o) && r.Pos() >= old(r.Pos())
    ensures st == Going ==> r.Pos() > old(r.Pos()) && !ph.AtBlock?
    ensures g == Inflate(BytesToBits(r.all), old(r.Pos()), o.made) ==>
      if st == Failed then g == None else Says(g, ph, final, q, r, ts, o.made)
    ensures st == NeedsInput ==> r.Pos() == old(r.Pos()) && r.cur == |r.piece| && PhaseBeyond(ph, r, ts, r.End())
  {
    hide BytesToBits, Number, Buffered, InflateStored, InflateCodes, Inflate, DynamicTables, StaticLit, StaticDst,
      Ready, RawGoes;
    ghost var bits, p0 := BytesToBits(r.all), r.Pos();
    ph, final, q := AtBlock, false, 0;
    var ok, v := r.GetBits(3);
    if !ok {
      return NeedsInput, AtBlock, false, 0;
    }
    ThreeBits(bits, p0, v);
    BlockIs(bits, p0, o.made, v);
    st, final := Going, v % 2 == 1;
    if v / 2 == 0 {
      StoredGoes(bits, r.Pos(), o.made);
      r.Align();
      ph := InRaw(RawHead([]));
    } else if v / 2 == 1 {
      SetStatic(ts.t0, ts.t1);
      ph := InCodes(LitSym(false));
    } else if v / 2 == 2 {
      ph, q := InHead(HLit), r.Pos();
    } else {
      st := Failed;
    }
  }

  lemma ThreeBits(bits: seq<bool>, pos: nat, v: nat)
    requires Number(bits, pos, 3) == Some(v)
    ensures v < 8
  {
    SmallPowers();
  }

  /** Once a block is over. */
  method EndBlock(st0: Status, ph: Phase, final: bool) returns (st: Status, ph': Phase)
    ensures st0 != Done ==> st == st0 && ph' == ph
    ensures st0 == Done ==> st == (if final then Done else Going) && ph' == AtBlock
  {
    st, ph' := st0, ph;
    if st0 == Done {
      st, ph' := if final then Done else Going, AtBlock;
    }
  }

  ghost predicate PhaseLean(ph: Phase, r: Reader, ts: TableSet, limit: int)
    requires ts.Sound()
    reads r, ts.repr
  {
    r.Pos() + 8 > limit || PhaseBeyond(ph, r, ts, limit)
  }

  function PhaseRank(ph: Phase): nat {
    if ph.AtBlock? then 0 else if ph.InHead? then 2 else 1
  }

  /** Goes on with a stored block. */
  method RawBody(r: Reader, ts: TableSet, o: Sink, w: Raw, final: bool, ghost q: nat, ghost g: Result)
    returns (st: Status, ph': Phase, ghost stray: bool)
    requires r.Valid() && o.Valid() && ts.Sound() && Shape(InRaw(w), r, ts, o)
    modifies r`cur, r`bitBuf, r`numBits, o`cur, o`made, o.buf, ts.repr
    ensures r.Valid() && o.Valid() && Shape(ph', r, ts, o) && r.Pos() >= old(r.Pos()) && old(o.made) <= o.made
    ensures o.base == old(o.base)
    ensures st in {Going, Done, Failed, NeedsInput, HasMoreOutput}
    ensures st == Going ==> PhaseRank(ph') < PhaseRank(InRaw(w))
    ensures old(Says(g, InRaw(w), final, q, r, ts, o.made)) ==>
      if stray || st == Failed then g == None
      else if st == Done then g == Some((r.Pos(), o.made))
      else Says(g, ph', final, q, r, ts, o.made)
    ensures st == NeedsInput ==> r.cur == |r.piece| && PhaseBeyond(ph', r, ts, r.End())
    ensures st == HasMoreOutput ==> o.cur == o.buf.Length && PhaseOwes(ph')
    ensures st in {Going, Done, HasMoreOutput} && !stray && old(PhaseLean(InRaw(w), r, ts, 8 * r.before)) ==>
      r.Pos() + 8 > 8 * r.before
  {
    hide BytesToBits, Buffered, Inflate, DynamicTables, Ready, RawGoes, HeadOK, HeadBeyond, HeadShape, InflateCodes,
      Beyond, Ring;
    stray := false;
    var w';
    st, w' := RunRaw(r, o, w);
    st, ph' := EndBlock(st, InRaw(w'), final);
  }

  /** Goes on with the header of a dynamic block. */
  method HeadBody(r: Reader, ts: TableSet, o: Sink, h: Head, final: bool, ghost q: nat, ghost g: Result)
    returns (st: Status, ph': Phase, ghost stray: bool)
    requires r.Valid() && o.Valid() && ts.Sound() && Shape(InHead(h), r, ts, o)
    modifies r`cur, r`bitBuf, r`numBits, o`cur, o`made, o.buf, ts.repr
    ensures r.Valid() && o.Valid() && Shape(ph', r, ts, o) && r.Pos() >= old(r.Pos()) && old(o.made) <= o.made
    ensures o.base == old(o.base)
    ensures st in {Going, Done, Failed, NeedsInput, HasMoreOutput}
    ensures st == Going ==> PhaseRank(ph') < PhaseRank(InHead(h))
    ensures old(Says(g, InHead(h), final, q, r, ts, o.made)) ==>
      if stray || st == Failed then g == None
      else if st == Done then g == Some((r.Pos(), o.made))
      else Says(g, ph', final, q, r, ts, o.made)
    ensures st == NeedsInput ==> r.cur == |r.piece| && PhaseBeyond(ph', r, ts, r.End())
    ensures st == HasMoreOutput ==> o.cur == o.buf.Length && PhaseOwes(ph')
    ensures st in {Going, Done, HasMoreOutput} && !stray && old(PhaseLean(InHead(h), r, ts, 8 * r.before)) ==>
      r.Pos() + 8 > 8 * r.before
  {
    hide BytesToBits, Buffered, Inflate, DynamicTables, Ready, RawGoes, HeadOK, HeadBeyond, HeadShape, InflateCodes,
      Beyond, Ring;
    var h';
    st, h', stray := RunHead(r, ts.t0, ts.t1, ts.t2, ts.lens, h, q);
    ph' := if st == Done then InCodes(LitSym(false)) else InHead(h');
    st := if st == Done then Going else st;
  }

  /** Goes on with the compressed data of a block. */
  method CodesBody(r: Reader, ts: TableSet, o: Sink, c: Codes, final: bool, ghost q: nat, ghost g: Result)
    returns (st: Status, ph': Phase, ghost stray: bool)
    requires r.Valid() && o.Valid() && ts.Sound() && Shape(InCodes(c), r, ts, o)
    modifies r`cur, r`bitBuf, r`numBits, o`cur, o`made, o.buf, ts.repr
    ensures r.Valid() && o.Valid() && Shape(ph', r, ts, o) && r.Pos() >= old(r.Pos()) && old(o.made) <= o.made
    ensures o.base == old(o.base)
    ensures st in {Going, Done, Failed, NeedsInput, HasMoreOutput}
    ensures st == Going ==> PhaseRank(ph') < PhaseRank(InCodes(c))
    ensures old(Says(g, InCodes(c), final, q, r, ts, o.made)) ==>
      if stray || st == Failed then g == None
      else if st == Done then g == Some((r.Pos(), o.made))
      else Says(g, ph', final, q, r, ts, o.made)
    ensures st == NeedsInput ==> r.cur == |r.piece| && PhaseBeyond(ph', r, ts, r.End())
    ensures st == HasMoreOutput ==> o.cur == o.buf.Length && PhaseOwes(ph')
    ensures st in {Going, Done, HasMoreOutput} && !stray && old(PhaseLean(InCodes(c), r, ts, 8 * r.before)) ==>
      r.Pos() + 8 > 8 * r.before
  {
    hide BytesToBits, Buffered, Inflate, DynamicTables, Ready, RawGoes, HeadOK, HeadBeyond, HeadShape, InflateCodes,
      Beyond, Ring, CodesGoes;
    var c';
    st, c', stray := RunCodes(r, o, ts.t0, ts.t1, c);
    st, ph' := EndBlock(st, InCodes(c'), final);
  }

  /** Goes on with a block. */
  method BodyStep(r: Reader, ts: TableSet, o: Sink, ph: Phase, final: bool, ghost q: nat, ghost g: Result)
    returns (st: Status, ph': Phase, ghost stray: bool)
    requires r.Valid() && o.Valid() && ts.Sound() && Shape(ph, r, ts, o) && !ph.AtBlock?
    modifies r`cur, r`bitBuf, r`numBits, o`cur, o`made, o.buf, ts.repr
    ensures r.Valid() && o.Valid() && Shape(ph', r, ts, o) && r.Pos() >= old(r.Pos()) && old(o.made) <= o.made
    ensures o.base == old(o.base)
    ensures st in {Going, Done, Failed, NeedsInput, HasMoreOutput} && (st == Going ==> PhaseRank(ph') < PhaseRank(ph))
    ensures old(Says(g, ph, final, q, r, ts, o.made)) ==>
      if stray || st == Failed then g == None
      else if st == Done then g == Some((r.Pos(), o.made))
      else Says(g, ph', final, q, r, ts, o.made)
    ensures st == NeedsInput ==> r.cur == |r.piece| && PhaseBeyond(ph', r, ts, r.End())
    ensures st == HasMoreOutput ==> o.cur == o.buf.Length && PhaseOwes(ph')
    ensures st in {Going, Done, HasMoreOutput} && !stray && old(PhaseLean(ph, r, ts, 8 * r.before)) ==>
      r.Pos() + 8 > 8 * r.before
  {
    hide BytesToBits, Buffered, Says, PhaseLean, PhaseBeyond, Shape, Ring, Separate;
    match ph {
      case InRaw(w) => st, ph', stray := RawBody(r, ts, o, w, final, q, g);
      case InHead(h) => st, ph', stray := HeadBody(r, ts, o, h, final, q, g);
      case InCodes(c) => st, ph', stray := CodesBody(r, ts, o, c, final, q, g);
    }
  }

  /** Begins a block or goes on with one. */
  method StreamStep(r: Reader, ts: TableSet, o: Sink, ph: Phase, final: bool, ghost q: nat, ghost g: Result)
    returns (st: Status, ph': Phase, final': bool, ghost q': nat, ghost stray: bool)
    requires r.Valid() && o.Valid() && ts.Sound() && Shape(ph, r, ts, o)
    modifies r`cur, r`bitBuf, r`numBits, o`cur, o`made, o.buf, ts.repr
    ensures r.Valid() && o.Valid() && Shape(ph', r, ts, o) && r.Pos() >= old(r.Pos()) && old(o.made) <= o.made
    ensures o.base == old(o.base)
    ensures st in {Going, Done, Failed, NeedsInput, HasMoreOutput}
    ensures st == Going ==> r.Pos() > old(r.Pos()) || PhaseRank(ph') < PhaseRank(ph)
    ensures old(Says(g, ph, final, q, r, ts, o.made)) ==>
      if stray || st == Failed then g == None
      else if st == Done then g == Some((r.Pos(), o.made))
      else Says(g, ph', final', q', r, ts, o.made)
    ensures st == NeedsInput ==> r.cur == |r.piece| && PhaseBeyond(ph', r, ts, r.End())
    ensures st == HasMoreOutput ==> o.cur == o.buf.Length && PhaseOwes(ph')
    ensures st in {Going, Done, HasMoreOutput} && !stray && old(PhaseLean(ph, r, ts, 8 * r.before)) ==>
      r.Pos() + 8 > 8 * r.before
  {
    hide BytesToBits, Buffered, HeadOK, HeadBeyond, HeadShape, Beyond, Ring, Separate, Inflate, RawGoes, CodesGoes,
      HeadGoes, Ready, NoneYet;
    final', q', stray := final, q, false;
    if ph.AtBlock? {
      st, ph', final', q' := BeginBlock(r, ts, o, g);
    } else {
      st, ph', stray := BodyStep(r, ts, o, ph, final, q, g);
    }
  }

  /**
   Inflates until the stream ends, the piece is used up, the output is full or the stream turns out to
   be bad. What the whole stream says, g, is what it said before and what it says from here on.
   */
  method RunStream(r: Reader, ts: TableSet, o: Sink, ph0: Phase, final0: bool, ghost q0: nat, ghost g: Result)
    returns (st: Status, ph: Phase, final: bool, ghost q: nat, ghost stray: bool)
    requires r.Valid() && o.Valid() && ts.Sound() && Shape(ph0, r, ts, o)
    modifies r`cur, r`bitBuf, r`numBits, o`cur, o`made, o.buf, ts.repr
    ensures r.Valid() && o.Valid() && Shape(ph, r, ts, o) && r.Pos() >= old(r.Pos()) && old(o.made) <= o.made
    ensures o.base == old(o.base)
    ensures st in {Done, Failed, NeedsInput, HasMoreOutput}
    ensures old(Says(g, ph0, final0, q0, r, ts, o.made)) ==>
      if stray || st == Failed then g == None
      else if st == Done then g == Some((r.Pos(), o.made))
      else Says(g, ph, final, q, r, ts, o.made)
    ensures st == NeedsInput ==> r.cur == |r.piece| && PhaseBeyond(ph, r, ts, r.End())
    ensures st == HasMoreOutput ==> o.cur == o.buf.Length && PhaseOwes(ph)
    ensures st in {Done, HasMoreOutput} && !stray && old(PhaseLean(ph0, r, ts, 8 * r.before)) ==>
      r.Pos() + 8 > 8 * r.before
  {
    hide BytesToBits, Buffered, Says, PhaseBeyond, Shape, Ring, Separate;
    ghost var ok, lean := Says(g, ph0, final0, q0, r, ts, o.made), PhaseLean(ph0, r, ts, 8 * r.before);
    st, ph, final, q, stray := Going, ph0, final0, q0, false;
    while st == Going
      invariant r.Valid() && o.Valid() && Shape(ph, r, ts, o) && r.Pos() >= old(r.Pos()) && old(o.made) <= o.made
      invariant o.base == old(o.base)
      invariant st in {Going, Done, Failed, NeedsInput, HasMoreOutput}
      invariant ok ==>
        if stray || st == Failed then g == None
        else if st == Done then g == Some((r.Pos(), o.made))
        else Says(g, ph, final, q, r, ts, o.made)
      invariant st == NeedsInput ==> r.cur == |r.piece| && PhaseBeyond(ph, r, ts, r.End())
      invariant st == HasMoreOutput ==> o.cur == o.buf.Length && PhaseOwes(ph)
      invariant st in {Done, HasMoreOutput} && !stray && lean ==> r.Pos() + 8 > 8 * r.before
      invariant st == Going && !stray && lean ==> PhaseLean(ph, r, ts, 8 * r.before)
      decreases st == Going, r.End() - r.Pos(), PhaseRank(ph)
    {
      ghost var more := stray;
      st, ph, final, q, stray := StreamStep(r, ts, o, ph, final, q, g);
      stray := stray || more;
    }
  }
}

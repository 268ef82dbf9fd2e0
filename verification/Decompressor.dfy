/**
 The inflater as an object that is called again and again with the next piece of its input and what
 room there is for output: the wrapping of the stream, the checksum, and what every call reports.
 */
module Decompressor {
  import opened Arith
  import opened Bits
  import opened Format
  import opened Blocks
  import opened BitReader
  import opened MatchCopy
  import opened OutputBuffer
  import opened Inflater
  import opened StoredReader
  import opened HeaderReader
  import opened BlockReader
  import Adler
  import Deflate

  // ----- the header

  /**
   The checks made on the two bytes of a zlib header (section 2.2 of RFC 1950); a window must be as
   large as the header says.
   */
  predicate HeaderOk(z0: nat, z1: nat, window: bool) {
    (z0 * 256 + z1) % 31 == 0 && z1 / 32 % 2 == 0 && z0 % 16 == 8 && (window ==> z0 / 16 <= 7)
  }

  /** The input begins as it should. */
  ghost predicate Headed(all: seq<byte>, zlib: bool, window: bool) {
    zlib ==> |all| >= 2 && HeaderOk(all[0], all[1], window)
  }

  lemma StoredByte(all: seq<byte>, k: nat)
    ensures k < |all| <==> Number(BytesToBits(all), 8 * k, 8).Some?
    ensures k < |all| ==> Number(BytesToBits(all), 8 * k, 8) == Some(all[k])
  {
    if k < |all| {
      hide BytesToBits, ToBits, Number;
      ByteInStream(all, k);
      Pow2Eight();
      SmallNumber(BytesToBits(all), 8 * k, all[k], 8);
    }
  }

  // ----- the checksum at the end

  /** Bytes after the stream as the inflater puts them together, starting from one. */
  ghost function Folded(q: seq<byte>): nat {
    if q == [] then 1 else (Folded(q[..|q| - 1]) * 256 + q[|q| - 1] as nat) % 0x1_0000_0000
  }

  /** After four of them the one it started from has been shifted out. */
  lemma FoldedIs(q: seq<byte>)
    requires |q| == 4
    ensures Folded(q) == Deflate.Value(q)
  {
    var a, b, c := q[..1], q[..2], q[..3];
    assert b[..1] == a && c[..2] == b && a[..0] == [];
    assert Folded(a) == 256 + q[0] as nat;
    assert Folded(b) == (256 + q[0] as nat) * 256 + q[1] as nat;
    assert Folded(c) == ((256 + q[0] as nat) * 256 + q[1] as nat) * 256 + q[2] as nat;
    assert Folded(c) * 256 + q[3] as nat == 0x1_0000_0000 + Deflate.Value(q);
    ValueSmall(q);
  }

  lemma ValueSmall(q: seq<byte>)
    requires |q| == 4
    ensures Deflate.Value(q) < 0x1_0000_0000
  {
  }

  // ----- the machine

  /** The places at which the inflater may be waiting. */
  datatype State =
    | First
    | Second(z0: nat)
    | Blocks(ph: Phase, final: bool)
    | Check(k: nat, v: nat)
    | Over(v: nat)
    | Dead

  /** What the input says. */
  ghost function Text(all: seq<byte>, zlib: bool): (r: Result) {
    Inflate(BytesToBits(all), Deflate.HeaderSize(zlib), [])
  }

  /** The stream is over, and k bytes of what follows it have been read. */
  ghost predicate Followed(g: Result, all: seq<byte>, pos: int, made: seq<byte>, k: nat, v: nat) {
    && g.Some? && made == g.value.1 && pos == Aligned(g.value.0) + 8 * k && pos <= 8 * |all|
    && v == Folded(all[pos / 8 - k..pos / 8])
  }

  /** What the inflater has made of the input so far. */
  ghost predicate Story(s: State, zlib: bool, window: bool, q: nat, stray: bool, r: Reader, ts: TableSet,
                        made: seq<byte>)
    requires ts.Sound()
    reads r, ts.repr
  {
    var g := Text(r.all, zlib);
    && (!s.First? && !s.Second? && !s.Dead? ==> Headed(r.all, zlib, window))
    && (stray ==> g == None)
    && match s
       case First => zlib && r.Pos() == 0 && r.numBits == 0 && made == [] && !stray
       case Second(z0) =>
         && zlib && r.Pos() == 8 && r.numBits == 0 && made == [] && !stray
         && |r.all| >= 1 && z0 == r.all[0]
       case Blocks(ph, final) => stray || Says(g, ph, final, q, r, ts, made)
       case Check(k, v) =>
         && zlib && k <= 4 && r.Pos() % 8 == 0
         && (stray || (r.numBits == 0 && Followed(g, r.all, r.Pos(), made, k, v)))
       case Over(v) => stray || (r.numBits == 0 && Followed(g, r.all, r.Pos(), made, if zlib then 4 else 0, v))
       case Dead => g == None || !Headed(r.all, zlib, window)
  }

  ghost predicate StateShape(s: State, r: Reader, ts: TableSet, o: Sink)
    requires ts.Sound()
    reads r, ts.repr, o`made
  {
    s.Blocks? ==> Shape(s.ph, r, ts, o)
  }

  /** Hardly any bits from before limit are left over. */
  ghost predicate StateLean(s: State, stray: bool, r: Reader, ts: TableSet, limit: int)
    requires ts.Sound()
    reads r, ts.repr
  {
    s.Blocks? && !stray ==> PhaseLean(s.ph, r, ts, limit)
  }

  /** What is being read goes beyond limit. */
  ghost predicate Short(s: State, r: Reader, ts: TableSet, limit: int)
    requires ts.Sound()
    reads r, ts.repr
  {
    match s
    case First => r.Pos() + 8 > limit
    case Second(_) => r.Pos() + 8 > limit
    case Blocks(ph, _) => PhaseBeyond(ph, r, ts, limit)
    case Check(k, _) => k < 4 && r.Pos() + 8 > limit
    case _ => false
  }

  /** Reads and checks the zlib header. */
  method HeaderStep(r: Reader, ts: TableSet, s: State, window: bool) returns (st: Status, s': State)
    requires ts.Sound() && r.Valid() && (s.First? || s.Second?) && Story(s, true, window, 0, false, r, ts, [])
    modifies r`cur, r`bitBuf, r`numBits
    ensures r.Valid() && st in {Going, Failed, NeedsInput} && Story(s', true, window, 0, false, r, ts, [])
    ensures s' in {s, Dead, Blocks(AtBlock, false)} || s'.Second?
    ensures st == Failed <==> s' == Dead
    ensures st == Going ==> s' != s && r.Pos() > old(r.Pos()) && r.numBits == 0
    ensures st == NeedsInput ==> s' == s && r.cur == |r.piece| && Short(s', r, ts, r.End())
  {
    hide BytesToBits, Number, Buffered, Inflate, HeaderOk;
    StoredByte(r.all, 0);
    StoredByte(r.all, 1);
    var ok, z := r.GetBits(8);
    r.WholeBytes();
    if !ok {
      return NeedsInput, s;
    }
    if s.First? {
      st, s' := Going, Second(z);
    } else if HeaderOk(s.z0, z, window) {
      st, s' := Going, Blocks(AtBlock, false);
    } else {
      st, s' := Failed, Dead;
    }
  }

  /** After the last block: on to the byte boundary, giving back what was read ahead. */
  method EndStream(r: Reader, zlib: bool, ghost g: Result, ghost stray: bool, ghost made: seq<byte>) returns (s: State)
    requires r.Valid() && (!stray ==> g == Some((r.Pos(), made)) && r.Pos() + 8 > 8 * r.before)
    modifies r`cur, r`bitBuf, r`numBits
    ensures r.Valid() && r.Pos() % 8 == 0 && r.Pos() >= old(r.Pos()) && s == if zlib then Check(0, 1) else Over(1)
    ensures !stray ==> r.numBits == 0 && Followed(g, r.all, r.Pos(), made, 0, 1)
  {
    hide BytesToBits, Buffered, Aligned;
    NextBoundary(r.Pos(), r.before);
    r.Align();
    r.PutBack();
    r.WholeBytes();
    // Nothing beyond the stream has been taken in.
    assert !stray ==> r.numBits == 0;
    assert r.all[r.Pos() / 8..r.Pos() / 8] == [];
    s := if zlib then Check(0, 1) else Over(1);
  }

  lemma NextBoundary(p: nat, k: nat)
    ensures Aligned(p) % 8 == 0 && Aligned(p) >= p && (p + 8 > 8 * k ==> Aligned(p) >= 8 * k)
  {
  }

  lemma FoldStep(g: Result, all: seq<byte>, pos: nat, made: seq<byte>, k: nat, v: nat)
    requires Followed(g, all, pos, made, k, v) && pos % 8 == 0 && pos / 8 < |all|
    ensures Followed(g, all, pos + 8, made, k + 1, (v * 256 + all[pos / 8] as nat) % 0x1_0000_0000)
  {
    hide Aligned, Folded;
    var b := pos / 8;
    assert b - k >= 0 && (pos + 8) / 8 == b + 1;
    FoldOne(all, b - k, b);
  }

  lemma FoldOne(all: seq<byte>, a: nat, b: nat)
    requires a <= b < |all|
    ensures Folded(all[a..b + 1]) == (Folded(all[a..b]) * 256 + all[b] as nat) % 0x1_0000_0000
  {
    var q := all[a..b + 1];
    assert q[..|q| - 1] == all[a..b] && q[|q| - 1] == all[b];
  }

  /** Reads a byte of the checksum, or finds that it is all there. */
  method CheckStep(r: Reader, k: nat, v: nat, ghost g: Result, ghost stray: bool, ghost made: seq<byte>)
    returns (st: Status, s: State)
    requires r.Valid() && k <= 4 && r.Pos() % 8 == 0
    requires stray || (r.numBits == 0 && Followed(g, r.all, r.Pos(), made, k, v))
    modifies r`cur, r`bitBuf, r`numBits
    ensures r.Valid() && st in {Going, NeedsInput} && r.Pos() >= old(r.Pos()) && r.Pos() % 8 == 0
    ensures if k == 4 then s == Over(v) else s.Check? && s.k == if st == Going then k + 1 else k
    ensures stray || (r.numBits == 0 && Followed(g, r.all, r.Pos(), made, if s.Check? then s.k else k, s.v))
    ensures st == NeedsInput ==> k < 4 && r.cur == |r.piece| && r.Pos() + 8 > r.End()
  {
    hide BytesToBits, Number, Buffered, Followed;
    if k == 4 {
      return Going, Over(v);
    }
    ghost var at := r.Pos() / 8;
    assert r.Pos() == 8 * at;
    StoredByte(r.all, at);
    var ok, b := r.GetBits(8);
    r.WholeBytes();
    if !ok {
      return NeedsInput, Check(k, v);
    }
    if !stray {
      FoldStep(g, r.all, 8 * at, made, k, v);
    }
    st, s := Going, Check(k + 1, (v * 256 + b) % 0x1_0000_0000);
  }

  /** Goes on with the blocks, and to the end of the stream if that is reached. */
  method BlocksStep(r: Reader, ts: TableSet, o: Sink, s: State, zlib: bool, ghost q: nat, ghost g: Result,
                    ghost stray0: bool)
    returns (st: Status, s': State, ghost q': nat, ghost stray: bool)
    requires r.Valid() && o.Valid() && ts.Sound() && s.Blocks? && Shape(s.ph, r, ts, o)
    requires if stray0 then g == None
      else Says(g, s.ph, s.final, q, r, ts, o.made) && PhaseLean(s.ph, r, ts, 8 * r.before)
    modifies r`cur, r`bitBuf, r`numBits, o`cur, o`made, o.buf, ts.repr
    ensures r.Valid() && o.Valid() && StateShape(s', r, ts, o) && r.Pos() >= old(r.Pos()) && old(o.made) <= o.made
    ensures o.base == old(o.base)
    ensures st in {Going, Failed, NeedsInput, HasMoreOutput}
    ensures st == Going ==> s' == (if zlib then Check(0, 1) else Over(1)) && r.Pos() % 8 == 0
    ensures st == Failed <==> s'.Dead?
    ensures st in {NeedsInput, HasMoreOutput} ==> s'.Blocks?
    ensures (stray0 ==> stray) && (stray || st == Failed ==> g == None)
    ensures stray || st == Failed || (if st == Going then r.numBits == 0 && Followed(g, r.all, r.Pos(), o.made, 0, 1)
                                      else Says(g, s'.ph, s'.final, q', r, ts, o.made))
    ensures st == NeedsInput ==> r.cur == |r.piece| && PhaseBeyond(s'.ph, r, ts, r.End())
    ensures st == HasMoreOutput ==> o.cur == o.buf.Length && PhaseOwes(s'.ph) && (stray || r.Pos() + 8 > 8 * r.before)
  {
    hide BytesToBits, Buffered, Says, PhaseBeyond, PhaseLean, Shape, Ring, Separate, Followed;
    var ph, final;
    st, ph, final, q', stray := RunStream(r, ts, o, s.ph, s.final, q, g);
    stray := stray || stray0;
    s' := Blocks(ph, final);
    if st == Done {
      st := Going;
      s' := EndStream(r, zlib, g, stray, o.made);
    } else if st == Failed {
      s' := Dead;
    }
  }

  lemma NoShape(r: Reader, ts: TableSet, o: Sink)
    requires ts.Sound()
    ensures Shape(AtBlock, r, ts, o)
  {
  }

  function StateRank(s: State): nat {
    match s
    case First => 8
    case Second(_) => 7
    case Blocks(_, _) => 6
    case Check(k, _) => if k <= 4 then 5 - k else 1
    case _ => 0
  }

  /** One step, from one place at which the inflater may wait to the next. */
  method Step(r: Reader, ts: TableSet, o: Sink, s: State, zlib: bool, ghost window: bool, ghost q: nat,
              ghost stray: bool)
    returns (st: Status, s': State, ghost q': nat, ghost stray': bool)
    requires r.Valid() && o.Valid() && ts.Sound() && StateShape(s, r, ts, o) && !s.Over? && !s.Dead?
    requires Story(s, zlib, window, q, stray, r, ts, o.made) && StateLean(s, stray, r, ts, 8 * r.before)
    requires s.First? || s.Second? ==> window == o.wrap
    modifies r`cur, r`bitBuf, r`numBits, o`cur, o`made, o.buf, ts.repr
    ensures r.Valid() && o.Valid() && StateShape(s', r, ts, o) && old(o.made) <= o.made && o.base == old(o.base)
    ensures st in {Going, Failed, NeedsInput, HasMoreOutput} && (stray ==> stray')
    ensures s'.First? || s'.Second? ==> s.First? || s.Second?
    ensures Story(s', zlib, window, q', stray', r, ts, o.made)
    ensures st == Failed <==> s'.Dead?
    ensures st == Going ==> StateLean(s', stray', r, ts, 8 * r.before) && StateRank(s') < StateRank(s)
    ensures st == NeedsInput ==> !s'.Over? && r.cur == |r.piece| && Short(s', r, ts, r.End())
    ensures st == HasMoreOutput ==>
      o.cur == o.buf.Length && s'.Blocks? && PhaseOwes(s'.ph) && (stray' || r.Pos() + 8 > 8 * r.before)
  {
    hide BytesToBits, Buffered, Says, PhaseBeyond, Shape, Ring, Separate, Followed, HeaderOk, Inflate;
    q', stray' := q, stray;
    if s.Blocks? {
      st, s', q', stray' := BlocksStep(r, ts, o, s, zlib, q, Text(r.all, zlib), stray);
    } else if s.Check? {
      st, s' := CheckStep(r, s.k, s.v, Text(r.all, zlib), stray, o.made);
    } else {
      st, s' := HeaderStep(r, ts, s, o.wrap);
      q' := 0;
      NoShape(r, ts, o);
    }
  }

  /** Steps until the end is reached, the piece is used up, the output is full or the input turns out to be bad. */
  method Advance(r: Reader, ts: TableSet, o: Sink, s0: State, zlib: bool, ghost window: bool, ghost q0: nat,
                 ghost stray0: bool)
    returns (st: Status, s: State, ghost q: nat, ghost stray: bool)
    requires r.Valid() && o.Valid() && ts.Sound() && StateShape(s0, r, ts, o) && !s0.Over? && !s0.Dead?
    requires Story(s0, zlib, window, q0, stray0, r, ts, o.made) && StateLean(s0, stray0, r, ts, 8 * r.before)
    requires s0.First? || s0.Second? ==> window == o.wrap
    modifies r`cur, r`bitBuf, r`numBits, o`cur, o`made, o.buf, ts.repr
    ensures r.Valid() && o.Valid() && StateShape(s, r, ts, o) && old(o.made) <= o.made && o.base == old(o.base)
    ensures st in {Done, Failed, NeedsInput, HasMoreOutput} && (stray0 ==> stray)
    ensures Story(s, zlib, window, q, stray, r, ts, o.made)
    ensures (st == Failed <==> s.Dead?) && (st == Done <==> s.Over?)
    ensures st == NeedsInput ==> r.cur == |r.piece| && Short(s, r, ts, r.End())
    ensures st == HasMoreOutput ==>
      o.cur == o.buf.Length && s.Blocks? && PhaseOwes(s.ph) && (stray || r.Pos() + 8 > 8 * r.before)
  {
    hide BytesToBits, Buffered, Story, Short, StateLean, StateShape, PhaseOwes, Ring, Separate;
    st, s, q, stray := Going, s0, q0, stray0;
    while st == Going && !s.Over?
      invariant r.Valid() && o.Valid() && StateShape(s, r, ts, o) && old(o.made) <= o.made && o.base == old(o.base)
      invariant st in {Going, Failed, NeedsInput, HasMoreOutput} && (stray0 ==> stray)
      invariant Story(s, zlib, window, q, stray, r, ts, o.made) && (s.First? || s.Second? ==> window == o.wrap)
      invariant st == Failed <==> s.Dead?
      invariant st == Going ==> StateLean(s, stray, r, ts, 8 * r.before)
      invariant st == NeedsInput ==> !s.Over? && r.cur == |r.piece| && Short(s, r, ts, r.End())
      invariant st == HasMoreOutput ==>
        o.cur == o.buf.Length && s.Blocks? && PhaseOwes(s.ph) && (stray || r.Pos() + 8 > 8 * r.before)
      decreases st == Going, StateRank(s)
    {
      st, s, q, stray := Step(r, ts, o, s, zlib, window, q, stray);
    }
    if st == Going {
      st := Done;
    }
  }

  /** Goes on with the next piece of the input. */
  method TakeIn(r: Reader, ts: TableSet, o: Sink, input: seq<byte>, ghost s: State, ghost zlib: bool,
                ghost window: bool, ghost q: nat, ghost stray: bool, ghost made: seq<byte>)
    requires r.Valid() && r.before + r.cur + |input| <= |r.all|
    requires r.all[r.before + r.cur..r.before + r.cur + |input|] == input
    requires ts.Sound() && Story(s, zlib, window, q, stray, r, ts, made)
    requires StateLean(s, stray, r, ts, 8 * (r.before + r.cur))
    modifies r`before, r`piece, r`cur
    ensures r.Valid() && r.piece == input && r.cur == 0 && r.before == old(r.before + r.cur)
    ensures Story(s, zlib, window, q, stray, r, ts, made) && StateLean(s, stray, r, ts, 8 * r.before)
    ensures old(StateShape(s, r, ts, o)) ==> StateShape(s, r, ts, o)
  {
    hide BytesToBits, Buffered, Inflate, RawGoes, HeadOK, HeadBeyond, HeadShape, Beyond, CodesGoes, HeadGoes, Followed,
      HeaderOk, Tables, Separate;
    r.Feed(input);
  }

  /** Unless more input is needed, gives back what was read ahead. */
  method GiveBack(r: Reader, ts: TableSet, o: Sink, st: Status, ghost s: State, ghost zlib: bool, ghost window: bool,
                  ghost q: nat, ghost stray: bool, ghost made: seq<byte>)
    requires ts.Sound() && r.Valid() && Story(s, zlib, window, q, stray, r, ts, made)
    requires st == NeedsInput ==> r.cur == |r.piece| && Short(s, r, ts, r.End())
    requires st != NeedsInput && s.Blocks? && !stray ==> r.Pos() + 8 > 8 * r.before
    modifies r`cur, r`bitBuf, r`numBits
    ensures r.Valid() && r.cur <= old(r.cur) && (st == NeedsInput ==> r.cur == |r.piece|)
    ensures Story(s, zlib, window, q, stray, r, ts, made) && StateLean(s, stray, r, ts, 8 * (r.before + r.cur))
    ensures old(StateShape(s, r, ts, o)) ==> StateShape(s, r, ts, o)
    ensures st == NeedsInput ==> Short(s, r, ts, 8 * (r.before + r.cur))
  {
    hide BytesToBits, Buffered, Inflate, RawGoes, HeadOK, HeadBeyond, HeadShape, Beyond, CodesGoes, HeadGoes, Followed,
      HeaderOk, Tables, Separate;
    if st != NeedsInput {
      r.PutBack();
    }
  }

  /** From the beginning of one call to its end. */
  method Continue(r: Reader, ts: TableSet, o: Sink, input: seq<byte>, s0: State, zlib: bool,
                  ghost window: bool, ghost q0: nat, ghost stray0: bool, ghost made0: seq<byte>)
    returns (st: Status, s: State, ghost q: nat, ghost stray: bool, ghost made: seq<byte>)
    requires r.Valid() && o.Valid() && ts.Sound()
    requires r.before + r.cur + |input| <= |r.all| && r.all[r.before + r.cur..r.before + r.cur + |input|] == input
    requires Story(s0, zlib, window, q0, stray0, r, ts, made0) && StateLean(s0, stray0, r, ts, 8 * (r.before + r.cur))
    requires s0.Over? || s0.Dead? || (o.made == made0 && StateShape(s0, r, ts, o))
    requires s0.First? || s0.Second? ==> window == o.wrap
    modifies r, o`cur, o`made, o.buf, ts.repr
    ensures r.Valid() && o.Valid() && r.cur <= |input| && r.before == old(r.before + r.cur) && o.base == old(o.base)
    ensures Story(s, zlib, window, q, stray, r, ts, made) && StateLean(s, stray, r, ts, 8 * (r.before + r.cur))
    ensures s.Over? || s.Dead? || (o.made == made && StateShape(s, r, ts, o))
    ensures made0 <= made && o.made == old(o.made) + made[|made0|..]
    ensures st in {Done, Failed, NeedsInput, HasMoreOutput} && (stray0 ==> stray)
    ensures (st == Done <==> s.Over?) && (st == Failed <==> s.Dead?)
    ensures st == NeedsInput ==> r.cur == |input| && Short(s, r, ts, 8 * (r.before + r.cur))
    ensures st == HasMoreOutput ==> o.cur == o.buf.Length && s.Blocks? && PhaseOwes(s.ph)
  {
    hide BytesToBits, Buffered, Story, Short, StateLean, StateShape, PhaseOwes, Ring, Separate;
    TakeIn(r, ts, o, input, s0, zlib, window, q0, stray0, made0);
    st, s, q, stray, made := if s0.Over? then Done else Failed, s0, q0, stray0, made0;
    if !s0.Over? && !s0.Dead? {
      st, s, q, stray := Advance(r, ts, o, s0, zlib, window, q0, stray0);
      made := o.made;
    }
    GiveBack(r, ts, o, st, s, zlib, window, q, stray, made);
  }

  // ----- the object

  /** How much follows the stream. */
  function TrailerSize(zlib: bool): nat {
    if zlib then 4 else 0
  }

  /** The input is a readable stream in its wrapping. */
  ghost predicate Readable(all: seq<byte>, zlib: bool, window: bool) {
    && Headed(all, zlib, window) && Text(all, zlib).Some?
    && Aligned(Text(all, zlib).value.0) / 8 + TrailerSize(zlib) <= |all|
  }

  /** How many of its bytes belong to the stream. */
  ghost function StreamSize(all: seq<byte>, zlib: bool): nat
    requires Text(all, zlib).Some?
  {
    Aligned(Text(all, zlib).value.0) / 8 + TrailerSize(zlib)
  }

  /** The checksum that follows the stream is the one given. */
  ghost predicate Sealed(all: seq<byte>, zlib: bool, sum: nat)
    requires Text(all, zlib).Some? && StreamSize(all, zlib) <= |all|
  {
    zlib ==> Deflate.Value(all[StreamSize(all, zlib) - 4..StreamSize(all, zlib)]) == sum
  }

  lemma FollowedAll(all: seq<byte>, zlib: bool, pos: int, made: seq<byte>, v: nat)
    requires Followed(Text(all, zlib), all, pos, made, TrailerSize(zlib), v)
    ensures made == Text(all, zlib).value.1 && pos == 8 * StreamSize(all, zlib) && StreamSize(all, zlib) <= |all|
    ensures zlib ==> forall sum :: Sealed(all, zlib, sum) <==> sum == v
  {
    hide BytesToBits, Inflate, Deflate.Value, Folded;
    if zlib {
      var k := StreamSize(all, zlib);
      assert pos / 8 - 4 == k - 4;
      FoldedIs(all[k - 4..k]);
    }
  }

  /** Continues the checksum over the bytes that have been put into the output since it stood at from. */
  method AddUp(o: Sink, from: nat, sum: nat, ghost summed: seq<byte>) returns (r: nat)
    requires o.Valid() && from <= o.cur && sum == Adler.Checksum(summed)
    ensures r == Adler.Checksum(summed + o.made[o.base + from..])
  {
    hide Ring, Adler.Checksum;
    o.Bounds();
    RingTail(o.buf[..], o.made, o.base, from);
    assert o.buf[..][from..o.cur] == o.buf[from..o.cur];
    r := Adler.Adler32(sum, o.buf[from..o.cur], summed);
  }

  lemma EmptyChecksum()
    ensures Adler.Checksum([]) == 1
  {
  }

  /**
   What the inflater need not know: all output so far and as much of it as the checksum covers, whether
   the header was checked against a window, where the header of the present block began, and whether
   something has been taken for a symbol, a length or a distance that is none.
   */
  datatype Progress = Progress(made: seq<byte>, summed: seq<byte>, window: bool, q: nat, stray: bool)

  /** What is reported, and the checksum of all output if the call has gone well. */
  method Conclude(o: Sink, from: nat, st0: Status, more: bool, zlib: bool, s: State, sum: nat, ghost p: Progress,
                  ghost made0: seq<byte>, ghost gone: seq<byte>)
    returns (st: Status, total: nat, ghost p': Progress)
    requires o.Valid() && from <= o.cur && sum == Adler.Checksum(p.summed)
    requires |gone| == o.base + from && made0 <= p.made && o.made == gone + p.made[|made0|..]
    requires st0 in {Done, Failed, NeedsInput, HasMoreOutput} && (st0 == Done <==> s.Over?)
    ensures total == Adler.Checksum(p'.summed) && p' == p.(summed := p'.summed)
    ensures p.summed == made0 && st != Failed && st != Stuck ==> p'.summed == p'.made
    ensures st == Stuck <==> st0 == NeedsInput && !more
    ensures st == Mismatch <==> s.Over? && zlib && s.v != total
    ensures st == Stuck || st == Mismatch || st == st0
  {
    hide Ring, Adler.Checksum;
    st, total, p' := st0, sum, p;
    if st0 == NeedsInput && !more {
      st := Stuck;
    } else if st0 != Failed {
      total := AddUp(o, from, sum, p.summed);
      p' := p.(summed := p.summed + o.made[o.base + from..]);
      assert o.made[|gone|..] == p.made[|made0|..] && made0 + p.made[|made0|..] == p.made;
      if st0 == Done && zlib && total != s.v {
        st := Mismatch;
      }
    }
  }

  /** A call as a whole. */
  method Turn(r: Reader, ts: TableSet, o: Sink, input: seq<byte>, more: bool, s0: State, zlib: bool, sum0: nat,
              ghost p0: Progress)
    returns (st: Status, s: State, sum: nat, ghost p: Progress)
    requires r.Valid() && o.Valid() && ts.Sound() && r !in ts.repr
    requires r.before + r.cur + |input| <= |r.all| && r.all[r.before + r.cur..r.before + r.cur + |input|] == input
    requires Story(s0, zlib, p0.window, p0.q, p0.stray, r, ts, p0.made)
    requires StateLean(s0, p0.stray, r, ts, 8 * (r.before + r.cur))
    requires s0.Over? || s0.Dead? || (o.made == p0.made && StateShape(s0, r, ts, o))
    requires (s0.First? || s0.Second? ==> p0.window == o.wrap) && sum0 == Adler.Checksum(p0.summed)
    modifies r, o`cur, o`made, o.buf, ts.repr
    ensures r.Valid() && o.Valid() && r.cur <= |input| && r.before == old(r.before + r.cur) && o.base == old(o.base)
    ensures Story(s, zlib, p.window, p.q, p.stray, r, ts, p.made)
    ensures StateLean(s, p.stray, r, ts, 8 * (r.before + r.cur))
    ensures s.Over? || s.Dead? || (o.made == p.made && StateShape(s, r, ts, o))
    ensures p0.made <= p.made && o.made == old(o.made) + p.made[|p0.made|..] && p.window == p0.window
    ensures st in {Done, Failed, NeedsInput, Stuck, HasMoreOutput, Mismatch} && (p0.stray ==> p.stray)
    ensures (st in {Done, Mismatch} <==> s.Over?) && (st == Failed <==> s.Dead?)
    ensures st in {NeedsInput, Stuck} ==>
      more == (st == NeedsInput) && r.cur == |input| && Short(s, r, ts, 8 * (r.before + r.cur))
    ensures st == HasMoreOutput ==> o.cur == o.buf.Length && s.Blocks? && PhaseOwes(s.ph)
    ensures st == Mismatch <==> s.Over? && zlib && s.v != sum
    ensures p0.summed == p0.made && st != Failed && st != Stuck ==> p.summed == p.made
    ensures sum == Adler.Checksum(p.summed)
  {
    hide BytesToBits, Buffered, Story, Short, StateLean, StateShape, PhaseOwes, Ring, Adler.Checksum, ts.Sound;
    var from := o.cur;
    ghost var made, q, stray, gone := p0.made, p0.q, p0.stray, o.made;
    st, s, q, stray, made := Continue(r, ts, o, input, s0, zlib, p0.window, p0.q, p0.stray, p0.made);
    st, sum, p := Conclude(o, from, st, more, zlib, s, sum0, p0.(made := made, q := q, stray := stray), p0.made, gone);
  }

  class Inflator {
    const zlib: bool
    const r: Reader
    const ts: TableSet
    var state: State
    var sum: nat
    ghost var so: Progress

    /** An inflater for the given input, of which nothing need have arrived yet. */
    constructor (zlib: bool, ghost all: seq<byte>)
      ensures Valid() && r.all == all && this.zlib == zlib && so == Progress([], [], false, 0, false) && Taken() == 0
      ensures state == (if zlib then First else Blocks(AtBlock, false)) && fresh(r) && fresh(ts) && fresh(ts.repr)
      ensures ts.Sound()
    {
      hide BytesToBits, Inflate, Buffered, Adler.Checksum;
      this.zlib := zlib;
      r := new Reader(all);
      ts := new TableSet();
      state := if zlib then First else Blocks(AtBlock, false);
      sum, so := 1, Progress([], [], false, 0, false);
      new;
      EmptyChecksum();
    }

    /** How much of the input has been taken. */
    ghost function Taken(): nat
      reads this, r
    {
      r.before + r.cur
    }

    ghost predicate Valid()
      reads this, r, ts.repr
    {
      && ts.Sound() && this !in ts.repr && r !in ts.repr && r.Valid()
      && Story(state, zlib, so.window, so.q, so.stray, r, ts, so.made) && StateLean(state, so.stray, r, ts, 8 * Taken())
      && sum == Adler.Checksum(so.summed)
    }

    /** This is where the output so far has gone. */
    ghost predicate Fits(o: Sink)
      requires ts.Sound()
      reads this, r, ts.repr, o`made
    {
      && o !in ts.repr && o.buf !in ts.repr
      && (state.Over? || state.Dead? || (o.made == so.made && StateShape(state, r, ts, o)))
    }

    /** At the start any empty output will do. */
    lemma StartFits(o: Sink)
      requires Valid() && o !in ts.repr && o.buf !in ts.repr && o.made == so.made
      requires state.First? || state == Blocks(AtBlock, false)
      ensures Fits(o)
    {
    }

    /** What the state of the inflater says about the input as a whole. */
    lemma Outcome()
      requires Valid()
      ensures so.stray ==> Text(r.all, zlib) == None
      ensures Readable(r.all, zlib, so.window) ==> !state.Dead? && so.made <= Text(r.all, zlib).value.1
      ensures Readable(r.all, zlib, so.window) && state.Blocks? && PhaseOwes(state.ph) ==>
        |so.made| < |Text(r.all, zlib).value.1|
      ensures Readable(r.all, zlib, so.window) && Short(state, r, ts, 8 * Taken()) ==> Taken() < |r.all|
      ensures state.Over? && !so.stray ==>
        && Readable(r.all, zlib, so.window) && so.made == Text(r.all, zlib).value.1
        && Taken() == StreamSize(r.all, zlib)
        && (zlib ==> forall a :: Sealed(r.all, zlib, a) <==> a == state.v)
    {
      hide BytesToBits, Buffered, Inflate, Says, PhaseBeyond, PhaseLean, PhaseOwes, HeaderOk, Deflate.Value, Folded,
        Aligned, Separate;
      if state.Blocks? && !so.stray {
        if Text(r.all, zlib).Some? {
          SaysGrows(Text(r.all, zlib), state.ph, state.final, so.q, r, ts, so.made);
          if PhaseOwes(state.ph) {
            SaysOwes(Text(r.all, zlib), state.ph, state.final, so.q, r, ts, so.made);
          }
        }
        if PhaseBeyond(state.ph, r, ts, 8 * |r.all|) {
          PhaseBeyondAll(Text(r.all, zlib), state.ph, state.final, so.q, r, ts, so.made);
        }
      } else if state.Over? && !so.stray {
        FollowedAll(r.all, zlib, r.Pos(), so.made, state.v);
      }
    }

    /**
     One call, with the next piece of the input and with word whether more may follow it. Whatever
     the pieces and however little room there is each time: what has been made is the beginning of
     what the input says, the end is reported with all of it made and exactly the stream's own bytes
     taken, a readable input is never refused, and more is asked for only if there is more of it.
     */
    method Run(o: Sink, input: seq<byte>, more: bool) returns (st: Status, used: nat)
      requires Valid() && o.Valid() && Fits(o)
      requires Taken() + |input| <= |r.all| && r.all[Taken()..Taken() + |input|] == input
      modifies this, r, ts.repr, o`cur, o`made, o.buf
      ensures Valid() && o.Valid() && Fits(o) && o.base == old(o.base)
      ensures used <= |input| && Taken() == old(Taken()) + used
      ensures old(so.made) <= so.made && o.made == old(o.made) + so.made[|old(so.made)|..]
      ensures st in {Done, Failed, NeedsInput, Stuck, HasMoreOutput, Mismatch}
      ensures (st in {Done, Mismatch} <==> state.Over?) && (st == Failed <==> state.Dead?)
      ensures st in {NeedsInput, Stuck} ==>
        more == (st == NeedsInput) && used == |input| && Short(state, r, ts, 8 * Taken())
      ensures st == HasMoreOutput ==> o.cur == o.buf.Length && state.Blocks? && PhaseOwes(state.ph)
      ensures st == Mismatch <==> state.Over? && zlib && state.v != sum
      ensures old(so.summed == so.made) && st != Failed && st != Stuck ==> so.summed == so.made
      ensures so.window == if old(state).First? || old(state).Second? then o.wrap else old(so.window)
      ensures old(so.stray) ==> so.stray
    {
      hide BytesToBits, Buffered, Story, Short, StateLean, StateShape, PhaseOwes, Ring, ts.Sound, Adler.Checksum;
      NotYetJudged(so.window, o.wrap);
      ghost var p := if state.First? || state.Second? then so.(window := o.wrap) else so;
      var s, total;
      st, s, total, p := Turn(r, ts, o, input, more, state, zlib, sum, p);
      used := r.cur;
      Keep(o, s, total, p);
    }

    method Keep(ghost o: Sink, s: State, total: nat, ghost p: Progress)
      requires ts.Sound() && this !in ts.repr && r !in ts.repr && o !in ts.repr && o.buf !in ts.repr && r.Valid()
      requires o.Valid()
      requires Story(s, zlib, p.window, p.q, p.stray, r, ts, p.made) && StateLean(s, p.stray, r, ts, 8 * Taken())
      requires total == Adler.Checksum(p.summed)
      requires s.Over? || s.Dead? || (o.made == p.made && StateShape(s, r, ts, o))
      modifies this`state, this`sum, this`so
      ensures state == s && sum == total && so == p && Valid() && Fits(o) && o.Valid() && Taken() == old(Taken())
      ensures old(Short(s, r, ts, 8 * Taken())) ==> Short(s, r, ts, 8 * Taken())
    {
      hide BytesToBits, Buffered, Story, Short, StateLean, StateShape, PhaseOwes, Ring, ts.Sound, Adler.Checksum;
      state, sum, so := s, total, p;
    }

    lemma NotYetJudged(w0: bool, w1: bool)
      requires ts.Sound()
      ensures state.First? || state.Second? ==>
        Story(state, zlib, w0, so.q, so.stray, r, ts, so.made) ==> Story(state, zlib, w1, so.q, so.stray, r, ts,
          so.made)
    {
    }
  }
}

/** Inflating a stored block, with input and output that may end at any point. */
module StoredReader {
  import opened Arith
  import opened Bits
  import opened Format
  import opened Blocks
  import opened BitReader
  import opened MatchCopy
  import opened OutputBuffer
  import opened Inflater

  /**
   The places at which the inflater may be waiting: in the length and its complement, for bytes, for
   room for a byte.
   */
  datatype Raw = RawHead(h: seq<byte>) | RawBytes(n: nat) | RawPut(n: nat, b: byte)

  /** What the block says from each of these places on. */
  ghost function RawGoes(w: Raw, bits: seq<bool>, pos: nat, out: seq<byte>): (r: Result) {
    match w
    case RawHead(h) =>
      if |h| > 4 || pos + 8 * (4 - |h|) > |bits| then None
      else
        var q := h + BytesAt(bits, pos, 4 - |h|);
        if RawLength(q).None? then None else BytesGo(RawLength(q).value, bits, pos + 8 * (4 - |h|), out)
    case RawBytes(n) => BytesGo(n, bits, pos, out)
    case RawPut(n, b) => BytesGo(n, bits, pos, out + [b])
  }

  ghost function BytesGo(n: nat, bits: seq<bool>, pos: nat, out: seq<byte>): (r: Result) {
    if pos + 8 * n <= |bits| then Some((pos + 8 * n, out + BytesAt(bits, pos, n))) else None
  }

  /** The length in the four bytes at the front of a block, if its complement goes with it. */
  function RawLength(q: seq<byte>): (r: Option<nat>)
    requires |q| == 4
    ensures r.Some? ==> r.value <= 0xFFFF
  {
    var len, check := q[0] as nat + 256 * q[1] as nat, q[2] as nat + 256 * q[3] as nat;
    if len == 0xFFFF - check then Some(len) else None
  }

  /** Two bytes, low byte first, are a sixteen-bit number. */
  lemma TwoBytes(bits: seq<bool>, p: nat)
    requires p + 16 <= |bits|
    ensures Number(bits, p, 16) == Some(Number(bits, p, 8).value + 256 * Number(bits, p + 8, 8).value)
  {
    var a, b := bits[p..p + 8], bits[p + 8..p + 16];
    assert bits[p..p + 16] == a + b;
    FromBitsConcat(a, b);
    EightUp(FromBits(b));
  }

  lemma EightUp(v: nat)
    ensures Shl(v, 8) == 256 * v
  {
  }

  lemma BytesAtStep(bits: seq<bool>, p: nat, n: nat)
    requires p + 8 * n + 8 <= |bits|
    ensures BytesAt(bits, p, n + 1) == BytesAt(bits, p, n) + [Number(bits, p + 8 * n, 8).value]
  {
  }

  /** The first byte and the rest. */
  lemma {:induction false} BytesAtFirst(bits: seq<bool>, p: nat, n: nat)
    requires p + 8 * n + 8 <= |bits|
    ensures Number(bits, p, 8).Some? && Number(bits, p, 8).value < 256
    ensures BytesAt(bits, p, n + 1) == [Number(bits, p, 8).value] + BytesAt(bits, p + 8, n)
  {
    hide BytesAt, Number;
    Pow2Eight();
    NumberIsSome(bits, p, 8);
    BytesAtNone(bits, p);
    BytesAtNone(bits, p + 8);
    if n == 0 {
      BytesAtStep(bits, p, 0);
    } else {
      BytesAtFirst(bits, p, n - 1);
      BytesAtStep(bits, p, n);
      BytesAtStep(bits, p + 8, n - 1);
    }
  }

  lemma NumberIsSome(bits: seq<bool>, p: nat, n: nat)
    ensures Number(bits, p, n).Some? <==> p + n <= |bits|
  {
  }

  lemma BytesAtNone(bits: seq<bool>, p: nat)
    requires p <= |bits|
    ensures BytesAt(bits, p, 0) == []
  {
  }

  lemma {:induction false} BytesAtSplit(bits: seq<bool>, p: nat, m: nat, n: nat)
    requires p + 8 * (m + n) <= |bits|
    ensures BytesAt(bits, p, m + n) == BytesAt(bits, p, m) + BytesAt(bits, p + 8 * m, n)
  {
    hide BytesAt, Number;
    BytesAtNone(bits, p + 8 * m);
    if n == 0 {
    } else {
      BytesAtSplit(bits, p, m, n - 1);
      BytesAtStep(bits, p, m + n - 1);
      BytesAtStep(bits, p + 8 * m, n - 1);
    }
  }

  /** A stored block begins with its length, at the next byte boundary. */
  lemma StoredGoes(bits: seq<bool>, pos: nat, out: seq<byte>)
    ensures InflateStored(bits, pos, out) == RawGoes(RawHead([]), bits, Aligned(pos), out)
  {
    hide BytesAt, Number, Aligned;
    var p := Aligned(pos);
    NumberIsSome(bits, p, 16);
    NumberIsSome(bits, p + 16, 16);
    if p + 32 <= |bits| {
      LengthIs(bits, p);
      assert [] + BytesAt(bits, p, 4) == BytesAt(bits, p, 4);
    }
  }

  lemma LengthIs(bits: seq<bool>, p: nat)
    requires p + 32 <= |bits|
    ensures var len, check := Number(bits, p, 16).value, Number(bits, p + 16, 16).value;
      RawLength(BytesAt(bits, p, 4)) == if len + check == 0xFFFF then Some(len) else None
  {
    hide BytesAt, Number;
    TwoBytes(bits, p);
    TwoBytes(bits, p + 16);
    FourBytes(bits, p);
    var q := BytesAt(bits, p, 4);
    assert Number(bits, p + 8 * 0, 8) == Some(q[0]) && Number(bits, p + 8 * 1, 8) == Some(q[1]);
    assert Number(bits, p + 8 * 2, 8) == Some(q[2]) && Number(bits, p + 8 * 3, 8) == Some(q[3]);
    assert p + 16 + 8 == p + 8 * 3;
  }

  lemma FourBytes(bits: seq<bool>, p: nat)
    requires p + 32 <= |bits|
    ensures forall i :: 0 <= i < 4 ==> Number(bits, p + 8 * i, 8) == Some(BytesAt(bits, p, 4)[i])
  {
    hide BytesAt, Number;
    BytesAtNone(bits, p);
    forall i | 0 <= i < 4 ensures Number(bits, p + 8 * i, 8).Some? {
      NumberIsSome(bits, p + 8 * i, 8);
    }
    BytesAtStep(bits, p, 0);
    BytesAtStep(bits, p, 1);
    BytesAtStep(bits, p, 2);
    BytesAtStep(bits, p, 3);
  }

  lemma RawGrows(w: Raw, bits: seq<bool>, pos: nat, out: seq<byte>)
    requires RawGoes(w, bits, pos, out).Some?
    ensures out <= RawGoes(w, bits, pos, out).value.1
  {
    hide BytesAt;
  }

  /** The bytes of the input as they stand in its bits. */
  lemma BytesInStream(input: seq<byte>, k: nat, n: nat)
    requires k + n <= |input|
    ensures 8 * k + 8 * n <= |BytesToBits(input)| && BytesAt(BytesToBits(input), 8 * k, n) == input[k..k + n]
  {
    hide BytesToBits, BytesAt;
    var a, b, c := input[..k], input[k..k + n], input[k + n..];
    assert input == a + b + c;
    BytesToBitsConcat(a + b, c);
    BytesToBitsConcat(a, b);
    var bits := BytesToBits(input);
    assert bits[8 * k..8 * k + 8 * n] == BytesToBits(b);
    BytesAtIs(bits, 8 * k, b);
  }

  /** Passes over whole bytes when the bit buffer is empty. */
  method Skip(r: Reader, n: nat)
    requires r.Valid() && r.numBits == 0 && r.cur + n <= |r.piece|
    modifies r`cur
    ensures r.Valid() && r.numBits == 0 && r.cur == old(r.cur) + n
  {
    hide BytesToBits;
    r.cur := r.cur + n;
    assert ToBits(r.bitBuf, 0) == [];
  }

  /** A byte of the header or of the data. */
  lemma ByteGoes(w: Raw, bits: seq<bool>, pos: nat, out: seq<byte>, b: byte)
    requires Number(bits, pos, 8) == Some(b)
    ensures w.RawHead? && |w.h| < 4 ==> RawGoes(w, bits, pos, out) == RawGoes(RawHead(w.h + [b]), bits, pos + 8, out)
    ensures w.RawBytes? && w.n > 0 ==> RawGoes(w, bits, pos, out) == RawGoes(RawPut(w.n - 1, b), bits, pos + 8, out)
  {
    hide BytesAt, Number;
    NumberIsSome(bits, pos, 8);
    if w.RawHead? && |w.h| < 4 {
      var n := 3 - |w.h|;
      if pos + 8 * n + 8 <= |bits| {
        BytesAtFirst(bits, pos, n);
        assert w.h + ([b] + BytesAt(bits, pos + 8, n)) == w.h + [b] + BytesAt(bits, pos + 8, n);
      }
    } else if w.RawBytes? && w.n > 0 && pos + 8 * w.n <= |bits| {
      BytesAtFirst(bits, pos, w.n - 1);
      assert out + ([b] + BytesAt(bits, pos + 8, w.n - 1)) == out + [b] + BytesAt(bits, pos + 8, w.n - 1);
    }
  }

  lemma PieceGoes(all: seq<byte>, k: nat, m: nat, n: nat, out: seq<byte>)
    requires m <= n && k + m <= |all|
    ensures RawGoes(RawBytes(n), BytesToBits(all), 8 * k, out) ==
      RawGoes(RawBytes(n - m), BytesToBits(all), 8 * (k + m), out + all[k..k + m])
  {
    hide BytesAt, BytesToBits;
    var bits := BytesToBits(all);
    BytesInStream(all, k, m);
    if 8 * k + 8 * n <= |bits| {
      BytesAtSplit(bits, 8 * k, m, n - m);
      assert out + (BytesAt(bits, 8 * k, m) + BytesAt(bits, 8 * k + 8 * m, n - m)) ==
        out + all[k..k + m] + BytesAt(bits, 8 * (k + m), n - m);
    }
  }

  /** There are bytes to come. */
  ghost predicate RawOwes(w: Raw) {
    w.RawPut? || (w.RawBytes? && w.n > 0)
  }

  lemma RawOwesMore(w: Raw, bits: seq<bool>, pos: nat, out: seq<byte>)
    requires RawOwes(w) && RawGoes(w, bits, pos, out).Some?
    ensures |out| < |RawGoes(w, bits, pos, out).value.1|
  {
    hide BytesAt;
  }

  /** If the block ends with the input there is nothing more to be said. */
  lemma RawCutShort(w: Raw, bits: seq<bool>, pos: nat, out: seq<byte>)
    requires pos + 8 > |bits| && ((w.RawHead? && |w.h| < 4) || (w.RawBytes? && w.n > 0))
    ensures RawGoes(w, bits, pos, out) == None
  {
    hide BytesAt;
  }

  /** Reads the length and its complement. */
  method HeadStep(r: Reader, h: seq<byte>, ghost out: seq<byte>) returns (st: Status, w: Raw)
    requires r.Valid() && r.Pos() % 8 == 0 && |h| <= 4
    modifies r`cur, r`bitBuf, r`numBits
    ensures r.Valid() && st in {Going, Failed, NeedsInput} && (w.RawHead? ==> |w.h| <= 4) && r.Pos() % 8 == 0
    ensures st == Going ==> r.Pos() > old(r.Pos()) || (r.Pos() == old(r.Pos()) && w.RawBytes?)
    ensures r.Pos() >= old(r.Pos())
    ensures Agrees(RawGoes(RawHead(h), BytesToBits(r.all), old(r.Pos()), out), false, st,
      RawGoes(w, BytesToBits(r.all), r.Pos(), out), r.Pos(), out)
    ensures st == NeedsInput ==> r.cur == |r.piece| && r.Pos() + 8 > r.End() && w.RawHead? && |w.h| < 4
  {
    hide BytesToBits, Buffered, Number, RawGoes, RawLength, r.Valid;
    ghost var bits, pos := BytesToBits(r.all), r.Pos();
    r.InBounds();
    if |h| < 4 {
      var ok, b := r.GetBits(8);
      if !ok {
        return NeedsInput, RawHead(h);
      }
      ByteBound(bits, pos, b);
      ByteGoes(RawHead(h), bits, pos, out, b);
      st, w := Going, RawHead(h + [b]);
    } else {
      HeadDone(h, bits, pos, out);
      var n := RawLength(h);
      st, w := if n.None? then Failed else Going, if n.None? then RawHead(h) else RawBytes(n.value);
    }
  }

  lemma PieceIs(all: seq<byte>, before: nat, piece: seq<byte>, a: nat, b: nat)
    requires a <= b <= |piece| && before + |piece| <= |all| && all[before..before + |piece|] == piece
    ensures piece[a..b] == all[before + a..before + b]
  {
    assert forall i :: a <= i < b ==> piece[i] == all[before..before + |piece|][i] == all[before + i];
  }

  /** Copies bytes of the piece. */
  method CopyPiece(r: Reader, o: Sink, n: nat) returns (m: nat)
    requires r.Valid() && o.Valid() && r.numBits == 0 && o.cur < o.buf.Length && r.cur < |r.piece| && n > 0
    modifies r`cur, o`cur, o`made, o.buf
    ensures r.Valid() && o.Valid() && 1 <= m <= n && r.Pos() == old(r.Pos()) + 8 * m && o.base == old(o.base)
    ensures o.cur == old(o.cur) + m
    ensures old(o.made) <= o.made
    ensures RawGoes(RawBytes(n), BytesToBits(r.all), old(r.Pos()), old(o.made)) ==
      RawGoes(RawBytes(n - m), BytesToBits(r.all), r.Pos(), o.made)
  {
    hide BytesToBits, Buffered, Ring, RawGoes;
    m := Min(Min(o.buf.Length - o.cur, |r.piece| - r.cur), n);
    PieceGoes(r.all, r.before + r.cur, m, n, o.made);
    PieceIs(r.all, r.before, r.piece, r.cur, r.cur + m);
    o.PutAll(r.piece[r.cur..r.cur + m]);
    Skip(r, m);
  }

  /** Takes a byte out of the bit buffer. */
  method BufferedByte(r: Reader, n: nat, ghost out: seq<byte>) returns (w: Raw)
    requires r.Valid() && r.Pos() % 8 == 0 && r.numBits > 0 && n > 0
    modifies r`bitBuf, r`numBits
    ensures r.Valid() && w.RawPut? && r.Pos() == old(r.Pos()) + 8
    ensures RawGoes(RawBytes(n), BytesToBits(r.all), old(r.Pos()), out) ==
      RawGoes(w, BytesToBits(r.all), r.Pos(), out)
  {
    hide BytesToBits, Buffered, Number, RawGoes;
    ghost var bits, pos := BytesToBits(r.all), r.Pos();
    r.WholeBytes();
    var b := r.Drop(8);
    ByteBound(bits, pos, b);
    ByteGoes(RawBytes(n), bits, pos, out, b);
    w := RawPut(n - 1, b);
  }

  /**
   Takes bytes out of the bit buffer one by one, and then from the piece as many as there are and there
   is room for.
   */
  method BytesStep(r: Reader, o: Sink, n: nat) returns (st: Status, w: Raw)
    requires r.Valid() && o.Valid() && r.Pos() % 8 == 0
    modifies r`cur, r`bitBuf, r`numBits, o`cur, o`made, o.buf
    ensures r.Valid() && o.Valid() && st in {Going, Done, NeedsInput, HasMoreOutput} && old(o.made) <= o.made
    ensures o.base == old(o.base)
    ensures r.Pos() >= old(r.Pos()) && o.cur >= old(o.cur) && r.Pos() % 8 == 0 && !w.RawHead?
    ensures st == Going ==> r.Pos() > old(r.Pos())
    ensures Agrees(RawGoes(RawBytes(n), BytesToBits(r.all), old(r.Pos()), old(o.made)), false, st,
      RawGoes(w, BytesToBits(r.all), r.Pos(), o.made), r.Pos(), o.made)
    ensures st == NeedsInput ==> r.cur == |r.piece| && r.Pos() + 8 > r.End() && w.RawBytes? && w.n > 0
    ensures st == HasMoreOutput ==> o.cur == o.buf.Length && RawOwes(w)
  {
    hide BytesToBits, Buffered, Number, Ring, RawGoes, RawLength;
    ghost var bits, pos, out := BytesToBits(r.all), r.Pos(), o.made;
    o.Bounds();
    r.InBounds();
    st, w := Going, RawBytes(n);
    if n == 0 {
      NoBytesLeft(bits, pos, out);
      st := Done;
    } else if r.numBits > 0 {
      w := BufferedByte(r, n, o.made);
    } else if o.cur >= o.buf.Length {
      st := HasMoreOutput;
    } else if r.cur >= |r.piece| {
      st := NeedsInput;
    } else {
      var m := CopyPiece(r, o, n);
      w := RawBytes(n - m);
    }
  }

  /** One step, from one place at which the inflater may wait to the next. */
  method RawStep(r: Reader, o: Sink, w: Raw) returns (st: Status, w': Raw)
    requires r.Valid() && o.Valid() && r.Pos() % 8 == 0 && (w.RawHead? ==> |w.h| <= 4)
    modifies r`cur, r`bitBuf, r`numBits, o`cur, o`made, o.buf
    ensures r.Valid() && o.Valid() && st in {Going, Done, Failed, NeedsInput, HasMoreOutput} && old(o.made) <= o.made
    ensures o.base == old(o.base)
    ensures r.Pos() >= old(r.Pos()) && o.cur >= old(o.cur) && r.Pos() % 8 == 0 && (w'.RawHead? ==> |w'.h| <= 4)
    ensures st == Going ==>
      r.Pos() > old(r.Pos()) || o.cur > old(o.cur) || (o.cur == old(o.cur) && w.RawHead? && w'.RawBytes?)
    ensures Agrees(RawGoes(w, BytesToBits(r.all), old(r.Pos()), old(o.made)), false, st,
      RawGoes(w', BytesToBits(r.all), r.Pos(), o.made), r.Pos(), o.made)
    ensures st == NeedsInput ==>
      r.cur == |r.piece| && r.Pos() + 8 > r.End() && ((w'.RawHead? && |w'.h| < 4) || (w'.RawBytes? && w'.n > 0))
    ensures st == HasMoreOutput ==> o.cur == o.buf.Length && RawOwes(w')
  {
    hide BytesToBits, Buffered, Ring, BytesGo;
    o.Bounds();
    match w {
      case RawHead(h) => st, w' := HeadStep(r, h, o.made);
      case RawBytes(n) => st, w' := BytesStep(r, o, n);
      case RawPut(n, c) =>
        if o.cur >= o.buf.Length {
          return HasMoreOutput, w;
        }
        o.Put(c);
        st, w' := Going, RawBytes(n);
    }
  }

  /** Steps until the block ends, the piece is used up, the output is full or the block turns out to be bad. */
  method RunRaw(r: Reader, o: Sink, w0: Raw) returns (st: Status, w: Raw)
    requires r.Valid() && o.Valid() && r.Pos() % 8 == 0 && (w0.RawHead? ==> |w0.h| <= 4)
    modifies r`cur, r`bitBuf, r`numBits, o`cur, o`made, o.buf
    ensures r.Valid() && o.Valid() && st in {Done, Failed, NeedsInput, HasMoreOutput} && old(o.made) <= o.made
    ensures o.base == old(o.base)
    ensures r.Pos() >= old(r.Pos()) && r.Pos() % 8 == 0 && (w.RawHead? ==> |w.h| <= 4)
    ensures Agrees(RawGoes(w0, BytesToBits(r.all), old(r.Pos()), old(o.made)), false, st,
      RawGoes(w, BytesToBits(r.all), r.Pos(), o.made), r.Pos(), o.made)
    ensures st == NeedsInput ==>
      r.cur == |r.piece| && r.Pos() + 8 > r.End() && ((w.RawHead? && |w.h| < 4) || (w.RawBytes? && w.n > 0))
    ensures st == HasMoreOutput ==> o.cur == o.buf.Length && RawOwes(w)
  {
    hide BytesToBits, Buffered, Ring, RawGoes;
    ghost var bits := BytesToBits(r.all);
    w := w0;
    while true
      invariant r.Valid() && o.Valid() && old(o.made) <= o.made && o.base == old(o.base)
      invariant r.Pos() >= old(r.Pos()) && r.Pos() % 8 == 0 && (w.RawHead? ==> |w.h| <= 4)
      invariant RawGoes(w0, bits, old(r.Pos()), old(o.made)) == RawGoes(w, bits, r.Pos(), o.made)
      decreases r.End() - r.Pos(), o.buf.Length - o.cur, if w.RawHead? then 1 else 0
    {
      o.Bounds();
      st, w := RawStep(r, o, w);
      o.Bounds();
      if st != Going {
        return;
      }
    }
  }

  lemma ByteBound(bits: seq<bool>, pos: nat, v: nat)
    requires Number(bits, pos, 8) == Some(v)
    ensures v < 256
  {
    Pow2Eight();
  }

  lemma HeadDone(h: seq<byte>, bits: seq<bool>, pos: nat, out: seq<byte>)
    requires |h| == 4 && pos <= |bits|
    ensures RawGoes(RawHead(h), bits, pos, out) ==
      if RawLength(h).None? then None else RawGoes(RawBytes(RawLength(h).value), bits, pos, out)
  {
    assert h + [] == h;
  }

  lemma NoBytesLeft(bits: seq<bool>, pos: nat, out: seq<byte>)
    requires pos <= |bits|
    ensures RawGoes(RawBytes(0), bits, pos, out) == Some((pos, out))
  {
    assert out + [] == out;
  }
}

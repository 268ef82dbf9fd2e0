/** Whole buffers in, whole buffers out: compress and uncompress. */
module Zlib {
  import opened Bits
  import opened Format
  import opened Blocks
  import opened StoredReader
  import opened Parser
  import opened Compressor
  import opened Inflater
  import opened Decompressor
  import Deflate
  import Adler
  import W = InflateWindow

  datatype Result = Ok(bytes: seq<byte>) | BufError | DataError | StreamError

  /**
   Inflates a whole buffer into one of the given size. A readable stream whose text fits comes out as
   what it says, and only its own bytes are taken; and unless the decoder went astray, which it never
   does on a readable stream, what is reported done was one.
   */
  method Decompress(input: seq<byte>, zlib: bool, size: nat)
    returns (st: Status, out: seq<byte>, used: nat, ghost stray: bool)
    ensures |out| <= size && used <= |input| && (stray ==> Text(input, zlib) == None)
    ensures W.Good(input, zlib) && |Text(input, zlib).value.1| <= size ==> st == Done
    ensures st in {Done, Mismatch} && !stray ==>
      && Readable(input, zlib, false) && out == Text(input, zlib).value.1 && used == StreamSize(input, zlib)
      && (st == Done <==> Sealed(input, zlib, Adler.Checksum(out)))
  {
    hide W.Good, Text, Readable, Sealed, StreamSize, Adler.Checksum;
    var d := new Inflator(zlib, input);
    hide d.Valid;
    assert input[0..|input|] == input;
    st, used, out := W.AllAtOnce(d, input, size);
    W.GoodIsReadable(input, zlib);
    stray := d.so.stray;
  }

  // ----- what the compressor writes is what the inflater reads

  lemma BytesFit(input: seq<byte>, k: nat, w: seq<byte>)
    requires At(BytesToBits(input), 8 * k, BytesToBits(w))
    ensures k + |w| <= |input|
  {
    hide BytesToBits;
  }

  lemma SameBytes(input: seq<byte>, k: nat, w: seq<byte>)
    requires k + |w| <= |input| && At(BytesToBits(input), 8 * k, BytesToBits(w))
    ensures input[k..k + |w|] == w
  {
    hide BytesToBits, BytesAt, At;
    BytesInStream(input, k, |w|);
    BytesAtIs(BytesToBits(input), 8 * k, w);
  }

  lemma BytesThere(input: seq<byte>, k: nat, w: seq<byte>)
    requires At(BytesToBits(input), 8 * k, BytesToBits(w))
    ensures k + |w| <= |input| && input[k..k + |w|] == w
  {
    hide BytesToBits, At;
    BytesFit(input, k, w);
    SameBytes(input, k, w);
  }

  /** The compressor's header passes the inflater's checks. */
  lemma OurHeader(input: seq<byte>)
    requires At(BytesToBits(input), 0, BytesToBits([0x78, 0x01]))
    ensures |input| >= 2 && HeaderOk(input[0], input[1], true)
  {
    hide BytesToBits, At;
    BytesThere(input, 0, [0x78, 0x01]);
    assert input[0..2][0] == input[0] && input[0..2][1] == input[1];
  }

  lemma OurChecksum(input: seq<byte>, p: nat, data: seq<byte>)
    requires Adler.Checksum(data) < 0x1_0000_0000 && p % 8 == 0
    requires At(BytesToBits(input), p, BytesToBits(Deflate.BigEndian(Adler.Checksum(data))))
    ensures p / 8 + 4 <= |input| && Deflate.Value(input[p / 8..p / 8 + 4]) == Adler.Checksum(data)
  {
    hide BytesToBits, At, Adler.Checksum, Deflate.BigEndian, Deflate.Value;
    assert p == 8 * (p / 8);
    BytesThere(input, p / 8, Deflate.BigEndian(Adler.Checksum(data)));
    Deflate.ValueIs(Adler.Checksum(data));
  }

  /** A stream in the compressor's wrapping passes all the checks. */
  lemma WrappedIsGood(input: seq<byte>, zlib: bool, data: seq<byte>)
    requires Deflate.Wrapped(BytesToBits(input), zlib, data)
    ensures W.Good(input, zlib) && Text(input, zlib).value.1 == data && StreamSize(input, zlib) == |input|
  {
    hide BytesToBits, Inflate, At, Adler.Checksum, Deflate.Value, Deflate.BigEndian, Aligned, HeaderOk;
    Deflate.ChecksumFits(data);
    var n := Inflate(BytesToBits(input), Deflate.HeaderSize(zlib), []).value.0;
    if zlib {
      OurHeader(input);
      OurChecksum(input, Aligned(n), data);
    }
  }

  /**
   Compresses a buffer in one go. It fails only with all of the room filled, and not at all if there is room
   for what such data can take at most.
   */
  method Compress(source: seq<byte>, flags: Flags, destSize: nat) returns (r: Result, ghost written: seq<byte>)
    ensures r.Ok? ==> r.bytes == written && |written| <= destSize
    ensures r.Ok? ==> Deflate.Wrapped(BytesToBits(r.bytes), flags.zlib, source)
    ensures r.Ok? || (r.BufError? && |written| == destSize < StreamBound(|source|))
  {
    hide BytesToBits, Deflate.Wrapped, StreamBound, Deflater.Valid;
    written := [];
    if destSize == 0 {
      BoundGrows(0, |source|);
      return BufError, [];
    }
    var d := new Deflater(flags);
    var st, taken, out := d.Compress(source, destSize, Deflate.Finish);
    assert d.Delivered() == out;
    assert d.m.la.data == [] + source[..taken] == source[..taken];
    d.SmallStream();
    BoundGrows(taken, |source|);
    written := out;
    r := if st == Deflate.Done then Ok(out) else BufError;
    assert source[..|source|] == source;
  }

  lemma BoundGrows(m: nat, n: nat)
    requires m <= n
    ensures 0 < StreamBound(m) <= StreamBound(n)
  {
  }

  /**
   Compresses with all input offered at every call and room for rooms[k] bytes at the k-th. The bytes of
   all calls together are the stream; and if every call has some room, the end is reached before there are
   as many calls as the stream can have bytes.
   */
  method CompressPieces(source: seq<byte>, flags: Flags, rooms: seq<nat>) returns (out: seq<byte>, done: bool)
    ensures done ==> Deflate.Wrapped(BytesToBits(out), flags.zlib, source)
    ensures |out| <= StreamBound(|source|)
    ensures W.Positive(rooms) && |rooms| >= StreamBound(|source|) ==> done
  {
    hide BytesToBits, Deflate.Wrapped, StreamBound;
    var d := new Deflater(flags);
    hide d.Valid;
    var st, at, k := Deflate.Okay, 0, 0;
    out := [];
    while k < |rooms| && st == Deflate.Okay
      invariant d.Valid() && fresh(d) && fresh(d.w) && fresh(d.m) && fresh(d.m.la) && fresh(d.m.lz)
      invariant fresh(d.m.Arrays()) && fresh(d.tb.Repr())
      invariant 0 <= k <= |rooms| && at <= |source| && d.m.la.data == source[..at] && d.Delivered() == out
      invariant d.flags == flags && st != Deflate.BadParam && d.cut <= (if d.finished then 1 else 0)
      invariant st == Deflate.Okay ==> d.status == Deflate.Okay && (!d.finished || d.pending != [])
      invariant d.finished ==> at == |source|
      invariant st == Deflate.Done ==> Deflate.Wrapped(BytesToBits(out), flags.zlib, source)
      invariant W.Positive(rooms) && st == Deflate.Okay ==> |out| >= k
    {
      var taken, more;
      st, taken, more := d.Compress(source[at..], rooms[k], Deflate.Finish);
      assert source[..at] + source[at..][..taken] == source[..at + taken];
      out, at, k := out + more, at + taken, k + 1;
      assert at == |source| ==> source[..at] == source;
    }
    d.SmallStream();
    BoundGrows(at, |source|);
    done := st == Deflate.Done;
  }

  /** Uncompresses a buffer in one call. */
  method Uncompress(source: seq<byte>, zlib: bool, destSize: nat) returns (r: Result)
    ensures W.Good(source, zlib) ==>
      if |Text(source, zlib).value.1| <= destSize then r == Ok(Text(source, zlib).value.1) else !r.Ok?
    ensures !r.StreamError?
  {
    hide W.Good, Text, Readable, Sealed, StreamSize, Adler.Checksum;
    var s := new W.Stream(zlib, source);
    hide s.Valid;
    assert source[0..|source|] == source;
    W.GoodIsReadable(source, zlib);
    var reply, out, taken := s.Inflate(W.Finish, source, destSize);
    r := if reply == W.StreamEnd then Ok(out)
         else if reply == W.BufError && taken < |source| then BufError
         else DataError;
  }

  /** What is compressed comes back when it is uncompressed into a buffer that holds it. */
  method RoundTrip(source: seq<byte>, flags: Flags, destSize: nat, room: nat) returns (c: Result, r: Result)
    requires |source| <= room
    ensures c.Ok? ==> r == Ok(source)
    ensures c.Ok? || (c.BufError? && destSize < StreamBound(|source|))
  {
    hide BytesToBits, Deflate.Wrapped, W.Good, Text, StreamSize;
    ghost var written;
    c, written := Compress(source, flags, destSize);
    r := c;
    if c.Ok? {
      WrappedIsGood(c.bytes, flags.zlib, source);
      r := Uncompress(c.bytes, flags.zlib, room);
    }
  }

  /**
   What is compressed comes back in whatever pieces it is fed to the inflater and however little room
   each call is given; nothing else comes out on the way, and the inflater gets to the end.
   */
  method StreamedRoundTrip(source: seq<byte>, flags: Flags, destSize: nat, cuts: seq<nat>, rooms: seq<nat>)
    returns (c: Result, text: seq<byte>, done: bool)
    requires |cuts| == |rooms|
    ensures c.Ok? || (c.BufError? && destSize < StreamBound(|source|))
    ensures c.Ok? ==> text <= source && (done ==> text == source)
    ensures c.Ok? && W.Positive(cuts) && W.Positive(rooms) && |cuts| > |c.bytes| + |source| ==> done
  {
    hide BytesToBits, Deflate.Wrapped, W.Good, W.Positive, Text, Readable, StreamSize;
    ghost var written;
    c, written := Compress(source, flags, destSize);
    text, done := [], false;
    if c.Ok? {
      WrappedIsGood(c.bytes, flags.zlib, source);
      W.GoodIsReadable(c.bytes, flags.zlib);
      var used;
      text, done, used := W.PieceByPiece(flags.zlib, c.bytes, cuts, rooms);
    }
  }
}

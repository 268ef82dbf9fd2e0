/** Turns recorded tokens into the bits of a block. */
module BlockWriter {
  import opened Arith
  import opened Bits
  import opened BitIO
  import opened Canonical
  import opened Tokens
  import opened CodeBuffer
  import opened Format
  import opened Blocks

  ghost predicate Coding(codes: array<nat>, sizes: array<nat>)
    reads codes, sizes
  {
    codes.Length == sizes.Length && ValidLens(sizes[..], MAX_BITS) && CodesAssigned(codes[..], sizes[..], sizes.Length)
  }

  method PutSymbol(w: BitWriter, codes: array<nat>, sizes: array<nat>, s: nat)
    requires w.Valid() && Coding(codes, sizes) && s < sizes.Length && sizes[s] > 0
    modifies w
    ensures w.Valid() && Sent(w.capacity, old(w.Bits()), old(w.clean), CodeWord(sizes[..], s), w.Bits(), w.clean)
  {
    hide CodeWord, FromBits, ToBits, Pow2, w.Valid, w.Bits;
    FromBitsBound(CodeWord(sizes[..], s));
    ToFromBits(CodeWord(sizes[..], s));
    w.PutBits(codes[s], sizes[s]);
  }

  /** Sends a match as recorded: its length less three and its distance less one. */
  method PutMatch(w: BitWriter, codes0: array<nat>, sizes0: array<nat>, codes1: array<nat>, sizes1: array<nat>, l: nat,
                  d: nat)
    requires w.Valid() && Coding(codes0, sizes0) && Coding(codes1, sizes1)
    requires Codable(sizes0[..], sizes1[..], Match(l + 3, d + 1))
    modifies w
    ensures w.Valid()
    ensures Sent(w.capacity, old(w.Bits()), old(w.clean), TokenBits(sizes0[..], sizes1[..], Match(l + 3, d + 1)),
      w.Bits(), w.clean)
  {
    hide CodeWord, ToBits, Low, Pow2, w.Valid, w.Bits, Sent, LenSym, LenExtra, Coding;
    ghost var cap, b0, c0, lit, dst := w.capacity, w.Bits(), w.clean, sizes0[..], sizes1[..];
    PutSymbol(w, codes0, sizes0, LenSym(l));
    ghost var b1, c1 := w.Bits(), w.clean;
    LowBound(l, LenExtra(l));
    ToBitsLow(l, LenExtra(l));
    w.PutBits(Low(l, LenExtra(l)), LenExtra(l));
    ghost var b2, c2 := w.Bits(), w.clean;
    ghost var x, y := CodeWord(lit, LenSym(l)), ToBits(l, LenExtra(l));
    SentMore(cap, b0, c0, x, b1, c1, y, b2, c2);
    var sym, extra;
    if d < 512 {
      sym, extra := SmallDistSym(d), SmallDistExtra(d);
    } else {
      sym, extra := LargeDistSym(Shr(d, 8)), LargeDistExtra(Shr(d, 8));
    }
    PutSymbol(w, codes1, sizes1, sym);
    ghost var b3, c3 := w.Bits(), w.clean;
    ghost var z := CodeWord(dst, DistSym(d));
    SentMore(cap, b0, c0, x + y, b2, c2, z, b3, c3);
    LowBound(d, extra);
    ToBitsLow(d, extra);
    w.PutBits(Low(d, extra), extra);
    SentMore(cap, b0, c0, x + y + z, b3, c3, ToBits(d, DistExtra(d)), w.Bits(), w.clean);
  }

  lemma TokensBitsStep(lit: seq<nat>, dst: seq<nat>, ts: seq<Token>, n: nat)
    requires AllCodable(lit, dst, ts) && n < |ts|
    ensures AllCodable(lit, dst, ts[..n]) && AllCodable(lit, dst, ts[..n + 1])
    ensures TokensBits(lit, dst, ts[..n + 1]) == TokensBits(lit, dst, ts[..n]) + TokenBits(lit, dst, ts[n])
  {
    assert ts[..n + 1][..n] == ts[..n];
  }

  lemma TokensBitsEnds(lit: seq<nat>, dst: seq<nat>, ts: seq<Token>)
    requires AllCodable(lit, dst, ts)
    ensures ts[..|ts|] == ts && AllCodable(lit, dst, ts[..0]) && TokensBits(lit, dst, ts[..0]) == []
  {
  }

  lemma CursorStart(ts: seq<Token>)
    requires AllValid(ts)
    ensures Cursor(ts, 0, 0, 1)
  {
  }

  /** The payload bytes of a token, read as the encoder reads them. */
  lemma PayloadIs(packed: seq<byte>, p: nat, t: Token)
    requires ValidToken(t) && p + |TokenBytes(t)| <= |packed| && packed[p..p + |TokenBytes(t)|] == TokenBytes(t)
    ensures t.Literal? ==> |TokenBytes(t)| == 1 && packed[p] == t.b
    ensures t.Match? ==>
      |TokenBytes(t)| == 3 && t == Match(packed[p] as nat + 3, packed[p + 1] as nat + 256 * packed[p + 2] as nat + 1)
  {
    forall i | 0 <= i < |TokenBytes(t)| ensures packed[p + i] == TokenBytes(t)[i] {
      assert packed[p..p + |TokenBytes(t)|][i] == packed[p + i];
    }
    if t.Match? {
      assert packed[p] == packed[p + 0];
    }
  }

  /** Reads the packed tokens back and sends them, then the end of block; false when the output buffer filled up. */
  method CompressLzCodes(w: BitWriter, buf: array<byte>, end: nat, codes0: array<nat>, sizes0: array<nat>,
                         codes1: array<nat>, sizes1: array<nat>, ghost ts: seq<Token>)
    returns (ok: bool)
    requires w.Valid() && Coding(codes0, sizes0) && Coding(codes1, sizes1) && sizes0.Length > 256 && sizes0[256] > 0
    requires AllValid(ts) && AllCodable(sizes0[..], sizes1[..], ts) && end <= buf.Length && buf[..end] == Pack(ts)
    modifies w
    ensures w.Valid() && ok == (|w.out| < w.capacity) && (ok ==> w.clean)
    ensures Sent(w.capacity, old(w.Bits()), old(w.clean), CodesBits(sizes0[..], sizes1[..], ts), w.Bits(), w.clean)
  {
    hide CodeWord, w.Bits, Sent, Coding, Cursor, Pack, InGroup, AllValid, AllCodable, TokensBits, TokenBits, Codable;
    ghost var cap, b0, c0, lit, dst := w.capacity, w.Bits(), w.clean, sizes0[..], sizes1[..];
    ghost var n: nat := 0;
    var p: nat, flags: nat := 0, 1;
    CursorStart(ts);
    TokensBitsEnds(lit, dst, ts);
    SentNothing(cap, b0, c0);
    while p < end
      invariant w.Valid() && n <= |ts| && Cursor(ts, n, p, flags)
      invariant AllCodable(lit, dst, ts[..n])
      invariant Sent(cap, b0, c0, TokensBits(lit, dst, ts[..n]), w.Bits(), w.clean)
      decreases |ts| - n
    {
      CursorInside(ts, n, p, flags);
      if flags == 1 {
        EnterGroup(ts, n, p);
        assert buf[p] == buf[..end][p];
        flags := 256 + buf[p] as nat;
        p := p + 1;
      } else {
        CursorGroup(ts, n, p, flags);
      }
      ghost var t, b1, c1 := ts[n], w.Bits(), w.clean;
      ReadToken(ts, n, p, flags);
      TokensBitsStep(lit, dst, ts, n);
      CodableAt(lit, dst, ts, n);
      PayloadIs(buf[..end], p, t);
      if flags % 2 == 1 {
        var len, dist := buf[p], buf[p + 1] as nat + 256 * buf[p + 2] as nat;
        p := p + 3;
        PutMatch(w, codes0, sizes0, codes1, sizes1, len, dist);
      } else {
        var lit' := buf[p];
        p := p + 1;
        PutSymbol(w, codes0, sizes0, lit');
      }
      SentMore(cap, b0, c0, TokensBits(lit, dst, ts[..n]), b1, c1, TokenBits(lit, dst, t), w.Bits(), w.clean);
      flags := flags / 2;
      n := n + 1;
    }
    CursorInside(ts, n, p, flags);
    ghost var b1, c1 := w.Bits(), w.clean;
    PutSymbol(w, codes0, sizes0, 256);
    SentMore(cap, b0, c0, TokensBits(lit, dst, ts), b1, c1, CodeWord(lit, 256), w.Bits(), w.clean);
    return |w.out| < w.capacity;
  }

  lemma CursorGroup(ts: seq<Token>, n: nat, p: nat, flags: nat)
    requires Cursor(ts, n, p, flags) && flags != 1 && n < |ts|
    ensures InGroup(ts, n, p, flags)
  {
  }

  lemma CodableAt(lit: seq<nat>, dst: seq<nat>, ts: seq<Token>, n: nat)
    requires AllCodable(lit, dst, ts) && n < |ts|
    ensures Codable(lit, dst, ts[n]) && ValidToken(ts[n]) && |lit| > 256
    ensures ts[n].Literal? ==> lit[ts[n].b] > 0 && TokenBits(lit, dst, ts[n]) == CodeWord(lit, ts[n].b)
  {
  }
}

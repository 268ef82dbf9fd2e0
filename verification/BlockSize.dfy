/** How large blocks can get: whatever is recorded, its block fits the output buffer. */
module BlockSize {
  import opened Arith
  import opened Bits
  import opened Canonical
  import opened DecodeTable
  import opened Optimality
  import opened LimitedCode
  import opened HuffmanTable
  import opened Tokens
  import opened CodeBuffer
  import opened Format
  import opened Blocks
  import CL = CodeLengths

  const OUT_BUF_SIZE: nat := 85196
  const OUT_BUF_LIMIT: nat := 85180

  // ----- static blocks

  lemma StaticCodableToken(t: Token)
    requires ValidToken(t)
    ensures Codable(StaticLit(), StaticDst(), t)
  {
    hide LenSym, DistSym, LenExtra, DistExtra, LengthBase, LengthExtra, DistanceBase, DistanceExtra, Low;
    if t.Match? {
      LengthRoundTrip(t.len);
      DistanceRoundTrip(t.dist);
    }
  }

  lemma StaticCodable(ts: seq<Token>)
    requires AllValid(ts)
    ensures AllCodable(StaticLit(), StaticDst(), ts)
  {
    hide Codable, StaticLit, StaticDst;
    forall i | 0 <= i < |ts| ensures Codable(StaticLit(), StaticDst(), ts[i]) {
      StaticCodableToken(ts[i]);
    }
  }

  lemma StaticTokenSize(t: Token)
    requires Codable(StaticLit(), StaticDst(), t)
    ensures 25 * |TokenBits(StaticLit(), StaticDst(), t)| <= 31 * (8 * |TokenBytes(t)| + 1)
  {
    hide LenSym, DistSym, LenExtra, DistExtra, CodeWord, ToBits;
    if t.Match? {
      LengthRoundTrip(t.len);
    }
  }

  lemma {:induction false} StaticTokensSize(ts: seq<Token>)
    requires AllValid(ts) && AllCodable(StaticLit(), StaticDst(), ts)
    ensures 25 * |TokensBits(StaticLit(), StaticDst(), ts)| <= 31 * (8 * |Payload(ts)| + |ts|)
    decreases |ts|
  {
    if ts == [] {
    } else {
      hide TokenBits, TokenBytes, StaticLit, StaticDst;
      StaticTokensSize(ts[..|ts| - 1]);
      StaticTokenSize(ts[|ts| - 1]);
    }
  }

  lemma {:induction false} PackSize(ts: seq<Token>)
    requires AllValid(ts)
    ensures 8 * |Pack(ts)| >= 8 * |Payload(ts)| + |ts|
    decreases |ts|
  {
    hide FlagByte, Pack, LastGroup, AllValid, Payload;
    if ts == [] {
      PayloadNone();
    } else {
      var k := LastGroup(|ts|);
      var a, b := ts[..k], ts[k..];
      assert ts[k..|ts|] == b;
      AllValidSlice(ts, k, |ts|);
      AllValidSlice(ts, 0, k);
      PackSplit(ts, k);
      PackSize(a);
      PayloadConcat(a, b);
      assert a + b == ts;
    }
  }

  lemma PayloadNone()
    ensures Payload([]) == []
  {
  }

  lemma {:induction false} PayloadConcat(a: seq<Token>, b: seq<Token>)
    requires AllValid(a) && AllValid(b)
    ensures AllValid(a + b) && |Payload(a + b)| == |Payload(a)| + |Payload(b)|
    decreases |b|
  {
    hide TokenBytes;
    if b == [] {
      assert a + b == a;
    } else {
      var c, t := b[..|b| - 1], b[|b| - 1];
      PayloadConcat(a, c);
      assert a + b == a + c + [t];
      PayloadSnoc(a + c, t);
    }
  }

  /** However the tokens fill their buffer, a static block of them fits the output buffer. */
  lemma StaticBlockFits(ts: seq<Token>)
    requires AllValid(ts) && AllCodable(StaticLit(), StaticDst(), ts) && |Pack(ts)| <= CODE_BUF_SIZE
    ensures |CodesBits(StaticLit(), StaticDst(), ts)| <= 650200 && 650200 + 80 < 8 * OUT_BUF_LIMIT
  {
    hide Pack, Payload, TokensBits, CodeWord, AllValid, AllCodable;
    StaticTokensSize(ts);
    PackSize(ts);
  }

  // ----- the header of a dynamic block

  lemma LensBound(lens: seq<nat>, s: nat)
    requires Accepted(lens) && s < |lens|
    ensures |CodeWord(lens, s)| <= 15
  {
  }

  lemma {:induction false} ItemsSize(cl: seq<nat>, items: seq<CL.Item>)
    requires Accepted(cl) && Sendable(cl, items)
    ensures |ItemsBits(cl, items)| <= 22 * |items|
    decreases |items|
  {
    hide Accepted, CodeWord, ToBits, Pow2;
    if items == [] {
    } else {
      ItemsSize(cl, items[..|items| - 1]);
      LensBound(cl, items[|items| - 1].sym);
    }
  }

  lemma {:induction false} ItemsCount(items: seq<CL.Item>)
    requires CL.Expand(items).Some?
    ensures |items| <= |CL.Expand(items).value|
    decreases |items|
  {
    if items == [] {
    } else {
      ItemsCount(items[..|items| - 1]);
    }
  }

  lemma HeaderSize(h: Header)
    requires ValidHeader(h)
    ensures |HeaderBits(h)| <= 7111
  {
    hide Accepted, ToBits, SizeBits, ItemsBits, Sendable, CL.Expand, Zig;
    ItemsSize(h.cl, h.items);
    ItemsCount(h.items);
  }

  // ----- the tokens of a dynamic block

  /** The bits sent with symbols, which do not depend on the code. */
  ghost function ExtraBits(ts: seq<Token>): nat
    requires AllValid(ts)
  {
    if ts == [] then 0 else ExtraBits(ts[..|ts| - 1]) + TokenExtra(ts[|ts| - 1])
  }

  ghost function TokenExtra(t: Token): nat
    requires ValidToken(t)
  {
    match t
    case Literal(_) => 0
    case Match(len, dist) => LenExtra(len - 3) + DistExtra(dist - 1)
  }

  /** The bits of the literal and length symbols. */
  ghost function LitCost(lit: seq<nat>, ts: seq<Token>): nat
    requires AllValid(ts) && |lit| == 288
  {
    if ts == [] then 0 else LitCost(lit, ts[..|ts| - 1]) + lit[LitSym(ts[|ts| - 1])]
  }

  ghost function DistBits(dst: seq<nat>, t: Token): nat
    requires ValidToken(t) && |dst| == 32
  {
    match t
    case Literal(_) => 0
    case Match(_, dist) =>
      DistSymSmall(t);
      dst[DistSym(dist - 1)]
  }

  /** The bits of the distance symbols. */
  ghost function DistCost(dst: seq<nat>, ts: seq<Token>): nat
    requires AllValid(ts) && |dst| == 32
  {
    if ts == [] then 0 else DistCost(dst, ts[..|ts| - 1]) + DistBits(dst, ts[|ts| - 1])
  }

  lemma {:induction false} DotZero(x: seq<nat>, m: seq<nat>)
    requires |x| == |m| && forall i :: 0 <= i < |x| ==> x[i] == 0
    ensures Dot(x, m) == 0
  {
    if x == [] {
    } else {
      DotZero(x[..|x| - 1], m[..|x| - 1]);
    }
  }

  lemma {:induction false} DotOneMore(x: seq<nat>, m: seq<nat>, i: nat)
    requires |x| == |m| && i < |x|
    ensures Dot(x[i := x[i] + 1], m) == Dot(x, m) + m[i]
  {
    var n := |x| - 1;
    if i == n {
      assert x[i := x[i] + 1][..n] == x[..n];
      assert (x[i] + 1) * m[i] == x[i] * m[i] + m[i];
    } else {
      DotOneMore(x[..n], m[..n], i);
      assert x[i := x[i] + 1][..n] == x[..n][i := x[i] + 1];
    }
  }

  lemma {:induction false} LitDot(lit: seq<nat>, x: seq<nat>, ts: seq<Token>)
    requires AllValid(ts) && |lit| == |x| == 288 && forall s :: 0 <= s < 288 ==> x[s] == LitUses(ts, s)
    ensures LitCost(lit, ts) == Dot(x, lit)
    decreases |ts|
  {
    if ts == [] {
      DotZero(x, lit);
    } else {
      hide Dot, LitSym;
      var s := LitSym(ts[|ts| - 1]);
      var x' := x[s := x[s] - 1];
      LitDot(lit, x', ts[..|ts| - 1]);
      DotOneMore(x', lit, s);
      assert x'[s := x[s]] == x;
    }
  }

  lemma {:induction false} DistDot(dst: seq<nat>, y: seq<nat>, ts: seq<Token>)
    requires AllValid(ts) && |dst| == |y| == 32 && forall s :: 0 <= s < 32 ==> y[s] == DistUses(ts, s)
    ensures DistCost(dst, ts) == Dot(y, dst)
    decreases |ts|
  {
    if ts == [] {
      DotZero(y, dst);
    } else {
      hide Dot, DistSym;
      var us, t := ts[..|ts| - 1], ts[|ts| - 1];
      if t.Match? {
        DistSymSmall(t);
        var s := DistSym(t.dist - 1);
        var y' := y[s := y[s] - 1];
        DistDot(dst, y', us);
        DotOneMore(y', dst, s);
        assert y'[s := y[s]] == y;
      } else {
        DistDot(dst, y, us);
      }
    }
  }

  lemma TokenSize(lit: seq<nat>, dst: seq<nat>, t: Token)
    requires Codable(lit, dst, t) && |lit| == 288 && |dst| == 32
    ensures |TokenBits(lit, dst, t)| == lit[LitSym(t)] + DistBits(dst, t) + TokenExtra(t)
  {
    hide LenSym, DistSym, LenExtra, DistExtra, CodeWord, ToBits;
  }

  /** The size of the tokens is what their symbols cost, and the extra bits. */
  lemma {:induction false} TokensSize(lit: seq<nat>, dst: seq<nat>, ts: seq<Token>)
    requires |lit| == 288 && |dst| == 32 && AllValid(ts) && AllCodable(lit, dst, ts)
    ensures |TokensBits(lit, dst, ts)| == LitCost(lit, ts) + DistCost(dst, ts) + ExtraBits(ts)
    decreases |ts|
  {
    if ts == [] {
    } else {
      hide TokenBits, LitSym, DistBits, TokenExtra, Codable;
      TokensSize(lit, dst, ts[..|ts| - 1]);
      TokenSize(lit, dst, ts[|ts| - 1]);
    }
  }

  // ----- a code to compare with

  /** Nine bits for a literal and the end of block, six for a length. */
  function PlainLit(): (r: seq<nat>)
    ensures |r| == 288
  {
    seq(288, i => if i <= 256 then 9 else 6)
  }

  lemma {:induction false} KSumRun(m: seq<nat>, n: nat, l: nat)
    requires n <= |m| && l <= LIMIT && forall i :: n <= i < |m| ==> m[i] == l
    ensures KSum(m, LIMIT) == KSum(m[..n], LIMIT) + (|m| - n) * Pow2(LIMIT - l)
    decreases |m| - n
  {
    hide Pow2;
    if n == |m| {
      assert m[..n] == m;
    } else {
      KSumRun(m[..|m| - 1], n, l);
      assert m[..|m| - 1][..n] == m[..n];
      var q := |m| - 1 - n;
      assert (q + 1) * Pow2(LIMIT - l) == q * Pow2(LIMIT - l) + Pow2(LIMIT - l);
    }
  }

  /** They are lengths of a code, and so are five bits for every distance. */
  lemma PlainLens()
    ensures CodeLens(PlainLit(), LIMIT) && CodeLens(StaticDst(), LIMIT)
  {
    var p, q := PlainLit(), StaticDst();
    KSumRun(p, 257, 6);
    KSumRun(p[..257], 0, 9);
    KSumRun(q, 0, 5);
    assert p[..257][..0] == [] && q[..0] == [];
    assert Pow2(9) == 512 && Pow2(6) == 64 && Pow2(10) == 1024;
    assert Pow2(15) == 32768 by { Pow2Fifteen(); }
  }

  lemma PlainCompetes(x: seq<nat>, y: seq<nat>)
    requires |x| == 288 && |y| == 32
    ensures Competes(PlainLit(), x, LIMIT) && Competes(StaticDst(), y, LIMIT)
  {
    hide CodeLens, PlainLit, StaticDst, Used;
    PlainLens();
    WholeCompetes(PlainLit(), x, LIMIT);
    WholeCompetes(StaticDst(), y, LIMIT);
  }

  lemma PlainToken(t: Token)
    requires ValidToken(t)
    ensures 25 * (PlainLit()[LitSym(t)] + DistBits(StaticDst(), t) + TokenExtra(t)) <= 29 * (8 * |TokenBytes(t)| + 1)
  {
    hide DistSym, LenExtra, DistExtra, LitSym;
    PlainSymbol(t);
    if t.Match? {
      DistSymSmall(t);
      ExtraSmall(t.len - 3, t.dist - 1);
    }
  }

  lemma PlainSymbol(t: Token)
    requires ValidToken(t)
    ensures PlainLit()[LitSym(t)] == if t.Literal? then 9 else 6
  {
    hide LenSym;
    if t.Match? {
      LengthRoundTrip(t.len);
      hide LengthBase, LengthExtra, LenExtra, Low;
    }
  }

  lemma ExtraSmall(l: nat, d: nat)
    requires l < 256 && d < 32768
    ensures LenExtra(l) <= 5 && DistExtra(d) <= 13
  {
  }

  lemma {:induction false} PlainTokens(ts: seq<Token>)
    requires AllValid(ts)
    ensures 25 * (LitCost(PlainLit(), ts) + DistCost(StaticDst(), ts) + ExtraBits(ts)) <=
      29 * (8 * |Payload(ts)| + |ts|)
    decreases |ts|
  {
    if ts == [] {
    } else {
      hide LitSym, DistBits, TokenExtra, TokenBytes, PlainLit, StaticDst;
      PlainTokens(ts[..|ts| - 1]);
      PlainToken(ts[|ts| - 1]);
    }
  }

  // ----- a dynamic block

  /** The tables of a dynamic block are hardly longer than the best, so their tokens take few bits. */
  lemma DynamicTokens(lit: seq<nat>, dst: seq<nat>, x: seq<nat>, y: seq<nat>, ts: seq<Token>)
    requires |lit| == 288 && |dst| == 32 && AllValid(ts) && AllCodable(lit, dst, ts) && |Pack(ts)| <= CODE_BUF_SIZE
    requires |x| == 288 && (forall s :: 0 <= s < 288 ==> x[s] == LitUses(ts, s))
    requires |y| == 32 && (forall s :: 0 <= s < 32 ==> y[s] == DistUses(ts, s))
    requires NearlyOptimal(x[256 := x[256] + 1], lit) && NearlyOptimal(y, dst)
    ensures |CodesBits(lit, dst, ts)| <= 666750
  {
    hide Dot, NearlyOptimal, AllCodable, AllValid, TokensBits, LitUses, DistUses, Pack, PlainLit, StaticDst, Competes,
      CodeWord;
    TokensSize(lit, dst, ts);
    LitDot(lit, x, ts);
    DistDot(dst, y, ts);
    LitDot(PlainLit(), x, ts);
    DistDot(StaticDst(), y, ts);
    DotOneMore(x, lit, 256);
    DotOneMore(x, PlainLit(), 256);
    PlainCompetes(x[256 := x[256] + 1], y);
    NearlyUse(x[256 := x[256] + 1], lit, PlainLit());
    NearlyUse(y, dst, StaticDst());
    PlainTokens(ts);
    PackSize(ts);
    assert PlainLit()[256] == 9 by { PlainEnd(); }
  }

  lemma PlainEnd()
    ensures PlainLit()[256] == 9
  {
  }

  lemma NearlyUse(x: seq<nat>, c: seq<nat>, m: seq<nat>)
    requires NearlyOptimal(x, c) && Competes(m, x, LIMIT)
    ensures |c| == |x| == |m| && Dot(x, c) <= Dot(x, m) + 183 * |x|
  {
    hide Used, Dot, KSum;
    UsedBound(x);
  }

  // ----- whole blocks

  /** The bits of a block after its first, which says whether it is the last. */
  ghost function BodyBits(b: Block): seq<bool>
    requires ValidBlock(b) && !b.Stored?
  {
    match b
    case Static(ts) => ToBits(1, 2) + CodesBits(StaticLit(), StaticDst(), ts)
    case Dynamic(h, ts) => ToBits(2, 2) + HeaderBits(h) + CodesBits(h.lit, h.dst, ts)
  }

  lemma TokensBound(ts: seq<Token>)
    requires AllValid(ts) && |Pack(ts)| <= CODE_BUF_SIZE
    ensures |ts| < 65535
  {
    hide Pack;
    assert 8 * |Pack(ts)| >= 9 * |ts|;
  }

  /** No block of recorded tokens is larger than this, in bits, which leaves room for what a flush adds. */
  const BODY_LIMIT: nat := 674000

  lemma StaticBody(b: Block)
    requires ValidBlock(b) && b.Static? && AllValid(b.ts) && |Pack(b.ts)| <= CODE_BUF_SIZE
    ensures |BodyBits(b)| <= BODY_LIMIT
  {
    hide ToBits, CodesBits, StaticLit, StaticDst, Pack;
    StaticBlockFits(b.ts);
  }

  lemma DynamicBody(b: Block)
    requires ValidBlock(b) && b.Dynamic? && |CodesBits(b.h.lit, b.h.dst, b.ts)| <= 666750
    ensures |BodyBits(b)| <= BODY_LIMIT
  {
    hide ToBits, CodesBits, HeaderBits, ValidHeader, AllCodable;
    HeaderSize(b.h);
  }
}

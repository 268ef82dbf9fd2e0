/**
 The DEFLATE format read as RFC 1951 describes it: what a stream of bits says, independently of the
 tables and buffers a decoder uses to find out.
 */
module Format {
  import opened Arith
  import opened Bits
  import opened Canonical
  import opened DecodeTable
  import opened Tokens
  import CL = CodeLengths

  /** The bits from a position on begin with w. */
  ghost predicate At(bits: seq<bool>, pos: nat, w: seq<bool>) {
    pos + |w| <= |bits| && bits[pos..pos + |w|] == w
  }

  lemma AtConcat(bits: seq<bool>, pos: nat, a: seq<bool>, b: seq<bool>)
    ensures At(bits, pos, a + b) <==> At(bits, pos, a) && At(bits, pos + |a|, b)
  {
    if pos + |a| + |b| <= |bits| {
      var u, v := bits[pos..pos + |a|], bits[pos + |a|..pos + |a| + |b|];
      assert bits[pos..pos + |a + b|] == u + v;
      if u + v == a + b {
        assert u == (u + v)[..|a|] == a;
        assert v == (u + v)[|a|..] == b;
      }
    }
  }

  ghost predicate Begins(lens: seq<nat>, bits: seq<bool>, pos: nat, s: nat) {
    s < |lens| && lens[s] > 0 && At(bits, pos, CodeWord(lens, s))
  }

  /** The symbol whose code word stands at a position. */
  ghost function Symbol(lens: seq<nat>, bits: seq<bool>, pos: nat): (r: Option<nat>)
    ensures r.Some? ==> Begins(lens, bits, pos, r.value)
  {
    if exists s: nat :: Begins(lens, bits, pos, s) then
      var s: nat :| Begins(lens, bits, pos, s);
      Some(s)
    else None
  }

  /** No two code words can stand at one position. */
  lemma SymbolIs(lens: seq<nat>, bits: seq<bool>, pos: nat, s: nat)
    requires Coded(lens) && Begins(lens, bits, pos, s)
    ensures Symbol(lens, bits, pos) == Some(s)
  {
    var t := Symbol(lens, bits, pos).value;
    var rest := bits[pos..];
    assert CodeWord(lens, s) == rest[..lens[s]];
    assert CodeWord(lens, t) == rest[..lens[t]];
    NoOtherPrefix(lens, s, t, rest);
  }

  /** The n bits at a position, as a number. */
  ghost function Number(bits: seq<bool>, pos: nat, n: nat): (r: Option<nat>)
    ensures r.Some? ==> pos + n <= |bits| && r.value < Pow2(n)
  {
    if pos + n > |bits| then None
    else
      FromBitsBound(bits[pos..pos + n]);
      Some(FromBits(bits[pos..pos + n]))
  }

  lemma NumberIs(bits: seq<bool>, pos: nat, v: nat, n: nat)
    requires At(bits, pos, ToBits(v, n))
    ensures Number(bits, pos, n) == Some(Low(v, n))
  {
    FromToBits(v, n);
  }

  // ----- compressed data

  datatype Step = Bad | End(next: nat) | Next(tok: Token, next: nat)

  /** The literal, match or end-of-block marker at a position. */
  ghost function NextToken(lit: seq<nat>, dst: seq<nat>, bits: seq<bool>, pos: nat): (r: Step)
    ensures !r.Bad? ==> pos < r.next <= |bits|
  {
    var s := Symbol(lit, bits, pos);
    if s.None? then Bad
    else
      var p := pos + lit[s.value];
      if s.value < 256 then Next(Literal(s.value), p)
      else if s.value == 256 then End(p)
      else if s.value > 285 then Bad
      else MatchAt(s.value - 257, dst, bits, p)
  }

  /** A match whose length symbol has been read. */
  ghost function MatchAt(i: nat, dst: seq<nat>, bits: seq<bool>, p: nat): (r: Step)
    requires i < 29
    ensures !r.Bad? ==> r.Next? && p < r.next <= |bits|
  {
    var l := Number(bits, p, LengthExtra(i));
    if l.None? then Bad else DistAt(LengthBase(i) + l.value, dst, bits, p + LengthExtra(i))
  }

  /** A match whose length is known. */
  ghost function DistAt(len: nat, dst: seq<nat>, bits: seq<bool>, p: nat): (r: Step)
    ensures !r.Bad? ==> r.Next? && p < r.next <= |bits|
  {
    var d := Symbol(dst, bits, p);
    if d.None? || d.value > 29 then Bad else DistBitsAt(len, d.value, bits, p + dst[d.value])
  }

  /** A match whose length and distance symbol are known. */
  ghost function DistBitsAt(len: nat, d: nat, bits: seq<bool>, p: nat): (r: Step)
    requires d < 30
    ensures !r.Bad? ==> r.Next? && p <= r.next <= |bits|
  {
    var x := Number(bits, p, DistanceExtra(d));
    if x.None? then Bad else Next(Match(len, DistanceBase(d) + x.value), p + DistanceExtra(d))
  }

  /** Reads to the end of the block, appending what it says to the output so far. */
  ghost function InflateCodes(lit: seq<nat>, dst: seq<nat>, bits: seq<bool>, pos: nat,
    out: seq<byte>): (r: Option<(nat, seq<byte>)>)
    ensures r.Some? ==> pos < r.value.0 <= |bits|
    decreases |bits| - pos
  {
    match NextToken(lit, dst, bits, pos)
    case Bad => None
    case End(p) => Some((p, out))
    case Next(t, p) => if Applies(out, t) then InflateCodes(lit, dst, bits, p, Apply(out, t)) else None
  }

  ghost predicate Codable(lit: seq<nat>, dst: seq<nat>, t: Token) {
    && |lit| > 256 && ValidToken(t)
    && (t.Literal? ==> lit[t.b] > 0)
    && (t.Match? ==> LenSym(t.len - 3) < |lit| && lit[LenSym(t.len - 3)] > 0)
    && (t.Match? ==> DistSym(t.dist - 1) < |dst| && dst[DistSym(t.dist - 1)] > 0)
  }

  /** What the encoder sends for a token. */
  ghost function TokenBits(lit: seq<nat>, dst: seq<nat>, t: Token): seq<bool>
    requires Codable(lit, dst, t)
  {
    match t
    case Literal(b) => CodeWord(lit, b)
    case Match(len, dist) =>
      CodeWord(lit, LenSym(len - 3)) + ToBits(len - 3, LenExtra(len - 3))
      + CodeWord(dst, DistSym(dist - 1)) + ToBits(dist - 1, DistExtra(dist - 1))
  }

  ghost predicate AllCodable(lit: seq<nat>, dst: seq<nat>, ts: seq<Token>) {
    forall i :: 0 <= i < |ts| ==> Codable(lit, dst, ts[i])
  }

  ghost function TokensBits(lit: seq<nat>, dst: seq<nat>, ts: seq<Token>): seq<bool>
    requires AllCodable(lit, dst, ts)
  {
    if ts == [] then [] else TokensBits(lit, dst, ts[..|ts| - 1]) + TokenBits(lit, dst, ts[|ts| - 1])
  }

  lemma TokenRoundTrip(lit: seq<nat>, dst: seq<nat>, bits: seq<bool>, pos: nat, t: Token)
    requires Coded(lit) && Coded(dst) && Codable(lit, dst, t) && At(bits, pos, TokenBits(lit, dst, t))
    ensures NextToken(lit, dst, bits, pos) == Next(t, pos + |TokenBits(lit, dst, t)|)
  {
    hide Coded, CodeWord, At, Number, LenSym, DistSym, LenExtra, DistExtra, LengthBase, LengthExtra, DistanceBase,
      DistanceExtra, ToBits, Low;
    match t
    case Literal(b) => SymbolIs(lit, bits, pos, b);
    case Match(len, dist) =>
      var l, d := len - 3, dist - 1;
      var a, b, c, e := CodeWord(lit, LenSym(l)), ToBits(l, LenExtra(l)), CodeWord(dst, DistSym(d)),
        ToBits(d, DistExtra(d));
      AtConcat(bits, pos, a + b + c, e);
      AtConcat(bits, pos, a + b, c);
      AtConcat(bits, pos, a, b);
      SymbolIs(lit, bits, pos, LenSym(l));
      LengthRoundTrip(len);
      NumberIs(bits, pos + |a|, l, LenExtra(l));
      SymbolIs(dst, bits, pos + |a + b|, DistSym(d));
      DistanceRoundTrip(dist);
      NumberIs(bits, pos + |a + b + c|, d, DistExtra(d));
  }

  /** Decoding passes over the bits of a sequence of tokens, expanding them. */
  lemma {:induction false} TokensRoundTrip(lit: seq<nat>, dst: seq<nat>, bits: seq<bool>, pos: nat, ts: seq<Token>,
                                           out: seq<byte>)
    requires Coded(lit) && Coded(dst) && AllCodable(lit, dst, ts) && At(bits, pos, TokensBits(lit, dst, ts))
    requires Expand(out, ts).Some?
    ensures InflateCodes(lit, dst, bits, pos, out)
         == InflateCodes(lit, dst, bits, pos + |TokensBits(lit, dst, ts)|, Expand(out, ts).value)
    decreases |ts|
  {
    hide Coded, Codable, TokenBits, At, NextToken, InflateCodes, Expand;
    if ts == [] {
      ExpandNone(out);
    } else {
      var us, t := ts[..|ts| - 1], ts[|ts| - 1];
      assert ts == us + [t];
      ExpandSnoc(out, us, t);
      AtConcat(bits, pos, TokensBits(lit, dst, us), TokenBits(lit, dst, t));
      TokensRoundTrip(lit, dst, bits, pos, us, out);
      TokenStep(lit, dst, bits, pos + |TokensBits(lit, dst, us)|, t, Expand(out, us).value);
    }
  }

  lemma TokenStep(lit: seq<nat>, dst: seq<nat>, bits: seq<bool>, pos: nat, t: Token, out: seq<byte>)
    requires Coded(lit) && Coded(dst) && Codable(lit, dst, t) && At(bits, pos, TokenBits(lit, dst, t))
    requires Applies(out, t)
    ensures InflateCodes(lit, dst, bits, pos, out)
         == InflateCodes(lit, dst, bits, pos + |TokenBits(lit, dst, t)|, Apply(out, t))
  {
    hide Coded, Codable, TokenBits, At, NextToken, Apply, Applies;
    TokenRoundTrip(lit, dst, bits, pos, t);
  }

  lemma EndIs(lit: seq<nat>, dst: seq<nat>, bits: seq<bool>, pos: nat)
    requires Coded(lit) && Begins(lit, bits, pos, 256)
    ensures NextToken(lit, dst, bits, pos) == End(pos + lit[256])
  {
    hide Coded, Begins;
    SymbolIs(lit, bits, pos, 256);
  }

  /** A block's tokens and end marker decode to what the tokens expand to. */
  lemma CodesRoundTrip(lit: seq<nat>, dst: seq<nat>, bits: seq<bool>, pos: nat, ts: seq<Token>, out: seq<byte>)
    requires Coded(lit) && Coded(dst) && AllCodable(lit, dst, ts) && |lit| > 256 && lit[256] > 0
    requires At(bits, pos, TokensBits(lit, dst, ts) + CodeWord(lit, 256)) && Expand(out, ts).Some?
    ensures InflateCodes(lit, dst, bits, pos, out)
         == Some((pos + |TokensBits(lit, dst, ts) + CodeWord(lit, 256)|, Expand(out, ts).value))
  {
    hide Coded, Codable, At, TokensBits, CodeWord, NextToken, Expand;
    AtConcat(bits, pos, TokensBits(lit, dst, ts), CodeWord(lit, 256));
    TokensRoundTrip(lit, dst, bits, pos, ts, out);
    EndIs(lit, dst, bits, pos + |TokensBits(lit, dst, ts)|);
  }

  // ----- the code lengths of a dynamic block

  /** The order in which the lengths of the code length codes are sent. */
  function Zig(i: nat): (s: nat)
    requires i < 19
    ensures s < 19 && Zag(s) == i
  {
    [16, 17, 18, 0, 8, 7, 9, 6, 10, 5, 11, 4, 12, 3, 13, 2, 14, 1, 15][i]
  }

  function Zag(s: nat): (i: nat)
    requires s < 19
    ensures i < 19
  {
    if s >= 16 then s - 16 else if s == 0 then 3 else if s >= 8 then 2 * s - 12 else 19 - 2 * s
  }

  /** The lengths of the code length codes, of which n were sent. */
  ghost function SizeCodes(bits: seq<bool>, pos: nat, n: nat): (r: seq<nat>)
    requires n <= 19 && pos + 3 * n <= |bits|
    ensures |r| == 19
  {
    seq(19, s requires 0 <= s < 19 =>
      if Zag(s) < n then FromBits(bits[pos + 3 * Zag(s)..pos + 3 * Zag(s) + 3]) else 0)
  }

  /** Reads run-length coded lengths until there are enough. */
  ghost function InflateLens(cl: seq<nat>, bits: seq<bool>, pos: nat, total: nat,
    lens: seq<nat>): (r: Option<(nat, seq<nat>)>)
    requires |cl| == 19
    ensures r.Some? ==> pos <= r.value.0 <= Max(pos, |bits|) && |r.value.1| == total
    decreases |bits| - pos
  {
    if |lens| >= total then
      if |lens| == total then Some((pos, lens)) else None
    else
      var s := Symbol(cl, bits, pos);
      if s.None? then None
      else
        var p := pos + cl[s.value];
        var x := Number(bits, p, CL.ExtraBits(s.value));
        if x.None? then None
        else
          Pow2Mono(CL.ExtraBits(s.value), 7);
          var more := CL.Apply(lens, CL.Item(s.value, x.value));
          if more.None? then None
          else InflateLens(cl, bits, p + CL.ExtraBits(s.value), total, more.value)
  }

  ghost predicate SendableItem(cl: seq<nat>, it: CL.Item) {
    |cl| == 19 && it.sym < 19 && cl[it.sym] > 0 && it.extra < Pow2(CL.ExtraBits(it.sym))
  }

  ghost predicate Sendable(cl: seq<nat>, items: seq<CL.Item>) {
    forall i :: 0 <= i < |items| ==> SendableItem(cl, items[i])
  }

  ghost function ItemBits(cl: seq<nat>, it: CL.Item): seq<bool>
    requires SendableItem(cl, it)
  {
    CodeWord(cl, it.sym) + ToBits(it.extra, CL.ExtraBits(it.sym))
  }

  ghost function ItemsBits(cl: seq<nat>, items: seq<CL.Item>): seq<bool>
    requires Sendable(cl, items)
  {
    if items == [] then [] else ItemsBits(cl, items[..|items| - 1]) + ItemBits(cl, items[|items| - 1])
  }

  lemma ItemRoundTrip(cl: seq<nat>, bits: seq<bool>, pos: nat, total: nat, lens: seq<nat>, it: CL.Item)
    requires Coded(cl) && SendableItem(cl, it) && At(bits, pos, ItemBits(cl, it))
    requires |lens| < total && CL.Apply(lens, it).Some?
    ensures InflateLens(cl, bits, pos, total, lens)
         == InflateLens(cl, bits, pos + |ItemBits(cl, it)|, total, CL.Apply(lens, it).value)
  {
    hide Coded, At, CodeWord, CL.Apply, CL.ExtraBits, ToBits, Low, Pow2, Number, Symbol;
    var e := CL.ExtraBits(it.sym);
    LowSmall(it.extra, e);
    AtConcat(bits, pos, CodeWord(cl, it.sym), ToBits(it.extra, e));
    SymbolIs(cl, bits, pos, it.sym);
    NumberIs(bits, pos + cl[it.sym], it.extra, e);
  }

  /** Reading the lengths of a dynamic block passes over the packed items, expanding them. */
  lemma {:induction false} ItemsRoundTrip(cl: seq<nat>, bits: seq<bool>, pos: nat, total: nat, items: seq<CL.Item>)
    requires |cl| == 19 && Coded(cl) && Sendable(cl, items) && At(bits, pos, ItemsBits(cl, items))
    requires CL.Expand(items).Some? && |CL.Expand(items).value| <= total
    ensures InflateLens(cl, bits, pos, total, [])
         == InflateLens(cl, bits, pos + |ItemsBits(cl, items)|, total, CL.Expand(items).value)
    decreases |items|
  {
    hide Coded, At, ItemBits, InflateLens, SendableItem;
    if items == [] {
    } else {
      var us, it := items[..|items| - 1], items[|items| - 1];
      AtConcat(bits, pos, ItemsBits(cl, us), ItemBits(cl, it));
      ItemsRoundTrip(cl, bits, pos, total, us);
      ItemRoundTrip(cl, bits, pos + |ItemsBits(cl, us)|, total, CL.Expand(us).value, it);
    }
  }

  /** The lengths of the first n code length codes, in the order sent. */
  ghost function SizeBits(cl: seq<nat>, n: nat): (r: seq<bool>)
    requires |cl| == 19 && n <= 19
    ensures |r| == 3 * n
  {
    if n == 0 then [] else SizeBits(cl, n - 1) + ToBits(cl[Zig(n - 1)], 3)
  }

  lemma {:induction false} SizeBitsAt(cl: seq<nat>, bits: seq<bool>, pos: nat, n: nat, i: nat)
    requires |cl| == 19 && i < n <= 19 && At(bits, pos, SizeBits(cl, n))
    ensures At(bits, pos + 3 * i, ToBits(cl[Zig(i)], 3))
  {
    hide Zig, At, ToBits;
    AtConcat(bits, pos, SizeBits(cl, n - 1), ToBits(cl[Zig(n - 1)], 3));
    if i >= n - 1 {
    } else {
      SizeBitsAt(cl, bits, pos, n - 1, i);
    }
  }

  lemma ZigZag(s: nat)
    requires s < 19
    ensures Zig(Zag(s)) == s
  {
  }

  lemma SizesRoundTrip(cl: seq<nat>, bits: seq<bool>, pos: nat, n: nat)
    requires |cl| == 19 && n <= 19 && At(bits, pos, SizeBits(cl, n))
    requires forall s :: 0 <= s < 19 ==> cl[s] < 8
    requires forall i :: n <= i < 19 ==> cl[Zig(i)] == 0
    ensures SizeCodes(bits, pos, n) == cl
  {
    hide Zig, Zag, ToBits, FromBits, Low, Pow2, SizeBits;
    var r := SizeCodes(bits, pos, n);
    forall s | 0 <= s < 19 ensures r[s] == cl[s] {
      ZigZag(s);
      if Zag(s) < n {
        SizeBitsAt(cl, bits, pos, n, Zag(s));
        FromToBits(cl[s], 3);
        assert Pow2(3) == 8 by { SmallPowers(); }
        LowSmall(cl[s], 3);
      }
    }
  }

}

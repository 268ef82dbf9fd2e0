/**
 Literals and matches, what they expand to, and the symbols and extra bits that stand for them in a
 compressed block (section 3.2.5 of RFC 1951).
 */
module Tokens {
  import opened Arith
  import opened Bits

  const MIN_MATCH: nat := 3
  const MAX_MATCH: nat := 258
  const WINDOW: nat := 32768

  /** One byte, or len bytes starting dist bytes back. */
  datatype Token = Literal(b: byte) | Match(len: nat, dist: nat)

  ghost predicate ValidToken(t: Token) {
    t.Match? ==> MIN_MATCH <= t.len <= MAX_MATCH && 1 <= t.dist <= WINDOW
  }

  /** Copies one byte at a time, so that a match may overlap its own output. */
  function Copy(out: seq<byte>, len: nat, dist: nat): (r: seq<byte>)
    requires 1 <= dist <= |out|
    ensures |r| == |out| + len && out <= r
    ensures forall i :: |out| <= i < |r| ==> r[i] == r[i - dist]
  {
    if len == 0 then out
    else
      var r := Copy(out, len - 1, dist);
      r + [r[|r| - dist]]
  }

  ghost predicate Applies(out: seq<byte>, t: Token) {
    t.Match? ==> 1 <= t.dist <= |out|
  }

  ghost function Apply(out: seq<byte>, t: Token): seq<byte>
    requires Applies(out, t)
  {
    match t
    case Literal(b) => out + [b]
    case Match(len, dist) => Copy(out, len, dist)
  }

  ghost function Expand(out: seq<byte>, ts: seq<Token>): Option<seq<byte>>
    decreases |ts|
  {
    if ts == [] then Some(out)
    else if Applies(out, ts[0]) then Expand(Apply(out, ts[0]), ts[1..])
    else None
  }

  lemma {:induction false} ExpandConcat(out: seq<byte>, ts: seq<Token>, us: seq<Token>)
    ensures Expand(out, ts + us) == if Expand(out, ts).Some? then Expand(Expand(out, ts).value, us) else None
    decreases |ts|
  {
    if ts == [] {
      assert ts + us == us;
    } else {
      assert (ts + us)[1..] == ts[1..] + us;
      if Applies(out, ts[0]) {
        ExpandConcat(Apply(out, ts[0]), ts[1..], us);
      }
    }
  }

  lemma ExpandNone(out: seq<byte>)
    ensures Expand(out, []) == Some(out)
  {
  }

  lemma ExpandSnoc(out: seq<byte>, ts: seq<Token>, t: Token)
    ensures Expand(out, ts + [t])
         == if Expand(out, ts).Some? && Applies(Expand(out, ts).value, t)
            then Some(Apply(Expand(out, ts).value, t)) else None
  {
    ExpandConcat(out, ts, [t]);
    if Expand(out, ts).Some? && Applies(Expand(out, ts).value, t) {
      assert Expand(Apply(Expand(out, ts).value, t), []) == Some(Apply(Expand(out, ts).value, t));
    }
  }

  /** A copy is determined by what it says of each byte. */
  lemma {:induction false} CopyIs(out: seq<byte>, len: nat, dist: nat, r: seq<byte>)
    requires 1 <= dist <= |out| && |r| == |out| + len && out <= r
    requires forall i :: |out| <= i < |r| ==> r[i] == r[i - dist]
    ensures r == Copy(out, len, dist)
  {
    if len == 0 {
      assert r == out;
    } else {
      CopyIs(out, len - 1, dist, r[..|r| - 1]);
      assert r == r[..|r| - 1] + [r[|r| - 1]];
      assert r[|r| - 1] == r[|r| - 1 - dist];
    }
  }

  // ----- the decoder's tables

  function LengthBase(i: nat): (r: nat)
    requires i < 31
  {
    [3, 4, 5, 6, 7, 8, 9, 10, 11, 13, 15, 17, 19, 23, 27, 31, 35, 43, 51, 59, 67, 83, 99, 115, 131, 163, 195, 227, 258,
      0, 0][i]
  }

  function LengthExtra(i: nat): (r: nat)
    requires i < 31
  {
    [0, 0, 0, 0, 0, 0, 0, 0, 1, 1, 1, 1, 2, 2, 2, 2, 3, 3, 3, 3, 4, 4, 4, 4, 5, 5, 5, 5, 0, 0, 0][i]
  }

  function DistanceBase(i: nat): (r: nat)
    requires i < 32
  {
    [1, 2, 3, 4, 5, 7, 9, 13, 17, 25, 33, 49, 65, 97, 129, 193, 257, 385, 513, 769, 1025, 1537, 2049, 3073,
     4097, 6145, 8193, 12289, 16385, 24577, 0, 0][i]
  }

  function DistanceExtra(i: nat): (r: nat)
    requires i < 32
  {
    [0, 0, 0, 0, 1, 1, 2, 2, 3, 3, 4, 4, 5, 5, 6, 6, 7, 7, 8, 8, 9, 9, 10, 10, 11, 11, 12, 12, 13, 13, 0, 0][i]
  }

  // ----- the encoder's tables: entry l of the length tables is for match length l + 3, entry d of
  // the distance tables for distance d + 1

  function LenExtra(l: nat): (k: nat)
    requires l < 256
    ensures k <= 5
  {
    if l < 8 || l == 255 then 0
    else if l < 16 then 1
    else if l < 32 then 2
    else if l < 64 then 3
    else if l < 128 then 4
    else 5
  }

  function LenSym(l: nat): (s: nat)
    requires l < 256
  {
    if l == 255 then 285 else 257 + 4 * LenExtra(l) + Shr(l, LenExtra(l))
  }

  function SmallDistExtra(d: nat): (k: nat)
    requires d < 512
    ensures k <= 7
  {
    if d < 4 then 0
    else if d < 8 then 1
    else if d < 16 then 2
    else if d < 32 then 3
    else if d < 64 then 4
    else if d < 128 then 5
    else if d < 256 then 6
    else 7
  }

  function SmallDistSym(d: nat): (s: nat)
    requires d < 512
  {
    2 * SmallDistExtra(d) + Shr(d, SmallDistExtra(d))
  }

  /** Indexed by the high bits of a distance of more than 512. */
  function LargeDistExtra(q: nat): (k: nat)
    requires 2 <= q < 128
    ensures 8 <= k <= 13
  {
    if q < 4 then 8
    else if q < 8 then 9
    else if q < 16 then 10
    else if q < 32 then 11
    else if q < 64 then 12
    else 13
  }

  function LargeDistSym(q: nat): (s: nat)
    requires 2 <= q < 128
  {
    2 * LargeDistExtra(q) + Shr(q, LargeDistExtra(q) - 8)
  }

  function DistExtra(d: nat): (k: nat)
    requires d < WINDOW
    ensures k <= 13
  {
    if d < 512 then SmallDistExtra(d) else LargeDistExtra(Shr(d, 8))
  }

  function DistSym(d: nat): (s: nat)
    requires d < WINDOW
  {
    if d < 512 then SmallDistSym(d) else LargeDistSym(Shr(d, 8))
  }

  // ----- the decoder's tables undo the encoder's

  lemma LengthBaseIs(i: nat)
    requires i < 28
    ensures LengthBase(i) == if i < 8 then 3 + i else if i < 12 then 2 * i - 5 else if i < 16 then 4 * i - 29
      else if i < 20 then 8 * i - 93 else if i < 24 then 16 * i - 253 else 32 * i - 637
  {
  }

  lemma LengthExtraIs(i: nat)
    requires i < 28
    ensures LengthExtra(i) == if i < 8 then 0 else i / 4 - 1
  {
  }

  lemma LengthTop(l: nat)
    requires l < 255
    ensures Shr(l, LenExtra(l)) < 8 && (LenExtra(l) > 0 ==> Shr(l, LenExtra(l)) >= 4)
  {
  }

  lemma LengthTables(k: nat, q: nat)
    requires k <= 5 && q < 8 && (k > 0 ==> q >= 4)
    ensures LengthExtra(4 * k + q) == k && LengthBase(4 * k + q) == 3 + Shl(q, k)
  {
    hide LengthBase, LengthExtra;
    LengthBaseIs(4 * k + q);
    LengthExtraIs(4 * k + q);
    ShlSmall(q);
  }

  lemma ShlSmall(q: nat)
    ensures Shl(q, 0) == q && Shl(q, 1) == 2 * q && Shl(q, 2) == 4 * q && Shl(q, 3) == 8 * q && Shl(q, 4) == 16 * q
    ensures Shl(q, 5) == 32 * q && Shl(q, 6) == 64 * q && Shl(q, 7) == 128 * q && Shl(q, 8) == 256 * q
    ensures Shl(q, 9) == 512 * q && Shl(q, 10) == 1024 * q && Shl(q, 11) == 2048 * q && Shl(q, 12) == 4096 * q
    ensures Shl(q, 13) == 8192 * q
  {
  }

  lemma LongestMatch()
    ensures LenSym(255) == 285 && LenExtra(255) == 0 && LengthExtra(28) == 0 && LengthBase(28) == MAX_MATCH
    ensures Low(255, 0) == 0
  {
  }

  lemma LenSymIs(l: nat)
    requires l < 255
    ensures LenSym(l) == 257 + 4 * LenExtra(l) + Shr(l, LenExtra(l))
  {
  }

  /** The length symbol and extra bits the encoder sends are read back as the length. */
  lemma LengthRoundTrip(len: nat)
    requires MIN_MATCH <= len <= MAX_MATCH
    ensures var l := len - MIN_MATCH;
      && 257 <= LenSym(l) <= 285 && LengthExtra(LenSym(l) - 257) == LenExtra(l)
      && LengthBase(LenSym(l) - 257) + Low(l, LenExtra(l)) == len
  {
    hide LengthBase, LengthExtra, LenSym, LenExtra, Shr, Low, Shl;
    var l, k := len - MIN_MATCH, LenExtra(len - MIN_MATCH);
    if l == 255 {
      LongestMatch();
    } else {
      LenSymIs(l);
      LowShr(l, k);
      LengthTop(l);
      LengthTables(k, Shr(l, k));
    }
  }

  lemma DistanceBaseIs(i: nat)
    requires i < 30
    ensures DistanceBase(i) == if i < 4 then 1 + i else if i < 6 then 2 * i - 3 else if i < 8 then 4 * i - 15
      else if i < 10 then 8 * i - 47
      else if i < 12 then 16 * i - 127 else if i < 14 then 32 * i - 319 else if i < 16 then 64 * i - 767
      else if i < 18 then 128 * i - 1791 else if i < 20 then 256 * i - 4095 else if i < 22 then 512 * i - 9215
      else if i < 24 then 1024 * i - 20479 else if i < 26 then 2048 * i - 45055 else if i < 28 then 4096 * i - 98303
      else 8192 * i - 212991
  {
  }

  lemma DistanceExtraIs(i: nat)
    requires i < 30
    ensures DistanceExtra(i) == if i < 4 then 0 else i / 2 - 1
  {
  }

  lemma DistanceTables(k: nat, q: nat)
    requires k <= 13 && q < 4 && (k > 0 ==> q >= 2)
    ensures DistanceExtra(2 * k + q) == k && DistanceBase(2 * k + q) == 1 + Shl(q, k)
  {
    hide DistanceBase, DistanceExtra;
    DistanceBaseIs(2 * k + q);
    DistanceExtraIs(2 * k + q);
    ShlSmall(q);
  }

  lemma SmallDistanceTop(d: nat)
    requires d < 512
    ensures Shr(d, SmallDistExtra(d)) < 4 && (SmallDistExtra(d) > 0 ==> Shr(d, SmallDistExtra(d)) >= 2)
  {
    ShrSmall(d);
  }

  lemma LargeDistanceTop(q: nat)
    requires 2 <= q < 128
    ensures 2 <= Shr(q, LargeDistExtra(q) - 8) < 4
  {
    ShrSmall(q);
  }

  lemma ShrSmall(d: nat)
    ensures Shr(d, 0) == d && Shr(d, 1) == d / 2 && Shr(d, 2) == d / 4 && Shr(d, 3) == d / 8
    ensures Shr(d, 4) == d / 16 && Shr(d, 5) == d / 32 && Shr(d, 6) == d / 64 && Shr(d, 7) == d / 128
  {
  }

  lemma DistanceTop(d: nat)
    requires d < WINDOW
    ensures var k := DistExtra(d);
      DistSym(d) == 2 * k + Shr(d, k) && Shr(d, k) < 4 && (k > 0 ==> Shr(d, k) >= 2)
  {
    if d < 512 {
      SmallDistanceTop(d);
    } else {
      var q := Shr(d, 8);
      LargeDistanceTop(q);
      ShrShr(d, 8, LargeDistExtra(q) - 8);
    }
  }

  /** The distance symbol and extra bits the encoder sends are read back as the distance. */
  lemma DistanceRoundTrip(dist: nat)
    requires 1 <= dist <= WINDOW
    ensures var d := dist - 1;
      && DistSym(d) < 30 && DistanceExtra(DistSym(d)) == DistExtra(d)
      && DistanceBase(DistSym(d)) + Low(d, DistExtra(d)) == dist
  {
    hide DistanceBase, DistanceExtra, DistSym, DistExtra, Shr, Low, Shl;
    var d, k := dist - 1, DistExtra(dist - 1);
    LowShr(d, k);
    DistanceTop(d);
    DistanceTables(k, Shr(d, k));
  }
}

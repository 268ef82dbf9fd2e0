/** The Adler-32 checksum (section 9 of RFC 1950), accumulated in blocks without a reduction per byte. */
module Adler {
  import opened Bits

  const BASE: nat := 65521
  const BLOCK: nat := 5552

  newtype uint32 = x: int | 0 <= x < 0x1_0000_0000

  /** The sum of the bytes, starting from a. */
  ghost function SumA(a: nat, s: seq<byte>): nat {
    if s == [] then a else SumA(a, s[..|s| - 1]) + s[|s| - 1]
  }

  /** The sum of the running sums, starting from b. */
  ghost function SumB(a: nat, b: nat, s: seq<byte>): nat {
    if s == [] then b else SumB(a, b, s[..|s| - 1]) + SumA(a, s)
  }

  ghost function Checksum(s: seq<byte>): nat {
    SumB(1, 0, s) % BASE * 65536 + SumA(1, s) % BASE
  }

  lemma {:induction false} SumsConcat(a: nat, b: nat, s: seq<byte>, t: seq<byte>)
    ensures SumA(a, s + t) == SumA(SumA(a, s), t)
    ensures SumB(a, b, s + t) == SumB(SumA(a, s), SumB(a, b, s), t)
    decreases |t|
  {
    if t == [] {
      assert s + t == s;
    } else {
      var u := t[..|t| - 1];
      SumsConcat(a, b, s, u);
      assert (s + t)[..|s + t| - 1] == s + u;
    }
  }

  lemma AddCongruent(x: nat, y: nat, u: nat, v: nat)
    requires x % BASE == y % BASE && u % BASE == v % BASE
    ensures (x + u) % BASE == (y + v) % BASE
  {
    AddMod(x, u);
    AddMod(y, v);
  }

  lemma AddMod(x: nat, u: nat)
    ensures (x + u) % BASE == (x % BASE + u % BASE) % BASE
  {
    var q := x / BASE + u / BASE;
    assert x + u == BASE * q + (x % BASE + u % BASE);
  }

  lemma {:induction false} SumsReduce(a: nat, b: nat, a': nat, b': nat, s: seq<byte>)
    requires a % BASE == a' % BASE && b % BASE == b' % BASE
    ensures SumA(a, s) % BASE == SumA(a', s) % BASE
    ensures SumB(a, b, s) % BASE == SumB(a', b', s) % BASE
    decreases |s|
  {
    if s == [] {
    } else {
      var t, c := s[..|s| - 1], s[|s| - 1];
      SumsReduce(a, b, a', b', t);
      AddCongruent(SumA(a, t), SumA(a', t), c, c);
      AddCongruent(SumB(a, b, t), SumB(a', b', t), SumA(a, s), SumA(a', s));
    }
  }

  // ----- no sum overflows thirty-two bits within a block

  ghost function Triangle(n: nat): nat {
    if n == 0 then 0 else Triangle(n - 1) + n
  }

  lemma {:induction false} TriangleMono(m: nat, n: nat)
    requires m <= n
    ensures Triangle(m) <= Triangle(n)
  {
    if m >= n {
    } else {
      TriangleMono(m, n - 1);
    }
  }

  lemma {:induction false} TriangleIs(n: nat)
    ensures 2 * Triangle(n) == n * (n + 1)
  {
    if n == 0 {
    } else {
      TriangleIs(n - 1);
    }
  }

  lemma {:induction false} SumsBound(a: nat, b: nat, s: seq<byte>)
    requires a < 65536 && b < 65536
    ensures SumA(a, s) <= 65535 + 255 * |s|
    ensures SumB(a, b, s) <= 65535 + 65535 * |s| + 255 * Triangle(|s|)
    decreases |s|
  {
    if s == [] {
    } else {
      SumsBound(a, b, s[..|s| - 1]);
    }
  }

  lemma BlockFits(a: nat, b: nat, s: seq<byte>)
    requires a < 65536 && b < 65536 && |s| <= BLOCK
    ensures SumA(a, s) < 0x1_0000_0000 && SumB(a, b, s) < 0x1_0000_0000
  {
    SumsBound(a, b, s);
    TriangleMono(|s|, BLOCK);
    TriangleIs(BLOCK);
  }

  /** Adds byte i of a block to the sums of those before it. */
  method AddByte(buf: seq<byte>, start: nat, i: nat, s1: uint32, s2: uint32, ghost a: nat, ghost b: nat)
    returns (r1: uint32, r2: uint32)
    requires start + i < |buf| && i < BLOCK && a < 65536 && b < 65536
    requires s1 as nat == SumA(a, buf[start..start + i]) && s2 as nat == SumB(a, b, buf[start..start + i])
    ensures r1 as nat == SumA(a, buf[start..start + i + 1]) && r2 as nat == SumB(a, b, buf[start..start + i + 1])
  {
    ghost var s := buf[start..start + i + 1];
    assert s[..|s| - 1] == buf[start..start + i];
    BlockFits(a, b, s);
    r1 := s1 + buf[start + i] as uint32;
    r2 := s2 + r1;
  }

  /** The sums of one block, eight bytes at a time. */
  method AddBlock(buf: seq<byte>, start: nat, n: nat, a: uint32, b: uint32) returns (s1: uint32, s2: uint32)
    requires start + n <= |buf| && n <= BLOCK && a < 65536 && b < 65536
    ensures s1 as nat == SumA(a as nat, buf[start..start + n])
    ensures s2 as nat == SumB(a as nat, b as nat, buf[start..start + n])
  {
    hide SumA, SumB;
    var i := 0;
    s1, s2 := a, b;
    NoSums(a as nat, b as nat, buf[start..start]);
    while i + 7 < n
      invariant i <= n && s1 as nat == SumA(a as nat, buf[start..start + i])
      invariant s2 as nat == SumB(a as nat, b as nat, buf[start..start + i])
    {
      s1, s2 := AddByte(buf, start, i, s1, s2, a as nat, b as nat);
      s1, s2 := AddByte(buf, start, i + 1, s1, s2, a as nat, b as nat);
      s1, s2 := AddByte(buf, start, i + 2, s1, s2, a as nat, b as nat);
      s1, s2 := AddByte(buf, start, i + 3, s1, s2, a as nat, b as nat);
      s1, s2 := AddByte(buf, start, i + 4, s1, s2, a as nat, b as nat);
      s1, s2 := AddByte(buf, start, i + 5, s1, s2, a as nat, b as nat);
      s1, s2 := AddByte(buf, start, i + 6, s1, s2, a as nat, b as nat);
      s1, s2 := AddByte(buf, start, i + 7, s1, s2, a as nat, b as nat);
      i := i + 8;
    }
    while i < n
      invariant i <= n && s1 as nat == SumA(a as nat, buf[start..start + i])
      invariant s2 as nat == SumB(a as nat, b as nat, buf[start..start + i])
    {
      s1, s2 := AddByte(buf, start, i, s1, s2, a as nat, b as nat);
      i := i + 1;
    }
  }

  lemma NoSums(a: nat, b: nat, s: seq<byte>)
    requires s == []
    ensures SumA(a, s) == a && SumB(a, b, s) == b
  {
  }

  /** Continues a checksum over more data: from that of what came before to that of the whole. */
  method Adler32(adler: nat, buf: seq<byte>, ghost before: seq<byte>) returns (r: nat)
    requires adler == Checksum(before)
    ensures r == Checksum(before + buf)
  {
    hide SumA, SumB;
    ghost var a0, b0 := SumA(1, before), SumB(1, 0, before);
    var s1: uint32, s2: uint32 := (adler % 65536) as uint32, (adler / 65536) as uint32;
    assert s1 as nat == a0 % BASE && s2 as nat == b0 % BASE;
    var at, left := 0, |buf|;
    var block := left % BLOCK;
    NoSums(a0, b0, buf[..0]);
    while left > 0
      invariant 0 <= at && 0 <= left && at + left == |buf| && 0 <= block <= BLOCK && left % BLOCK == block % BLOCK
      invariant s1 as nat == SumA(a0, buf[..at]) % BASE && s2 as nat == SumB(a0, b0, buf[..at]) % BASE
      decreases left, BLOCK - block
    {
      ghost var a, b := SumA(a0, buf[..at]), SumB(a0, b0, buf[..at]);
      ghost var chunk := buf[at..at + block];
      ghost var x, y := s1 as nat, s2 as nat;
      s1, s2 := AddBlock(buf, at, block, s1, s2);
      SumsReduce(a, b, x, y, chunk);
      SumsConcat(a0, b0, buf[..at], chunk);
      assert buf[..at] + chunk == buf[..at + block];
      s1, s2 := s1 % 65521, s2 % 65521;
      at, left := at + block, left - block;
      block := BLOCK;
    }
    assert buf[..at] == buf;
    SumsConcat(1, 0, before, buf);
    r := s2 as nat * 65536 + s1 as nat;
  }
}

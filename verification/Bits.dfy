/**
 Bit strings as DEFLATE packs them (section 3.1.1 of RFC 1951): a number is written least
 significant bit first, and the first bit of a stream is the least significant bit of its first byte.
 */
module Bits {
  import opened Arith

  datatype Option<T> = None | Some(value: T)

  type byte = x: int | 0 <= x < 256

  /** The first byte boundary from a bit position on. */
  function Aligned(pos: nat): (r: nat)
    ensures pos <= r < pos + 8 && r % 8 == 0
  {
    (pos + 7) / 8 * 8
  }

  /** The n low bits of v, least significant first. */
  function ToBits(v: nat, n: nat): (r: seq<bool>)
    ensures |r| == n
    decreases n
  {
    if n == 0 then [] else [v % 2 == 1] + ToBits(v / 2, n - 1)
  }

  /** The number whose bits, least significant first, are b. */
  function FromBits(b: seq<bool>): nat {
    if b == [] then 0 else (if b[0] then 1 else 0) + 2 * FromBits(b[1..])
  }

  /** The bits of a byte buffer. */
  function BytesToBits(s: seq<byte>): (r: seq<bool>)
    ensures |r| == 8 * |s|
  {
    if s == [] then [] else BytesToBits(s[..|s| - 1]) + ToBits(s[|s| - 1], 8)
  }

  lemma {:induction false} FromBitsBound(b: seq<bool>)
    ensures FromBits(b) < Pow2(|b|)
  {
    if b == [] {
    } else {
      FromBitsBound(b[1..]);
    }
  }

  lemma {:induction false} FromToBits(v: nat, n: nat)
    ensures FromBits(ToBits(v, n)) == Low(v, n)
    decreases n
  {
    if n == 0 {
    } else {
      FromToBits(v / 2, n - 1);
      assert ToBits(v, n)[1..] == ToBits(v / 2, n - 1);
    }
  }

  lemma {:induction false} ToFromBits(b: seq<bool>)
    ensures ToBits(FromBits(b), |b|) == b
  {
    if b == [] {
    } else {
      ToFromBits(b[1..]);
      assert FromBits(b) / 2 == FromBits(b[1..]);
      assert b == [b[0]] + b[1..];
    }
  }

  lemma {:induction false} FromBitsConcat(a: seq<bool>, b: seq<bool>)
    ensures FromBits(a + b) == FromBits(a) + Shl(FromBits(b), |a|)
  {
    if a == [] {
      assert a + b == b;
    } else {
      FromBitsConcat(a[1..], b);
      assert (a + b)[1..] == a[1..] + b;
    }
  }

  /** Two numbers packed side by side: or-ing a shifted value in is appending its bits. */
  lemma {:induction false} ToBitsConcat(x: nat, m: nat, y: nat, n: nat)
    requires x < Pow2(m)
    ensures ToBits(x + Shl(y, m), m + n) == ToBits(x, m) + ToBits(y, n)
    decreases m
  {
    if m == 0 {
      assert ToBits(x, m) + ToBits(y, n) == ToBits(y, n);
    } else {
      ToBitsConcat(x / 2, m - 1, y, n);
      var z := Shl(y, m - 1);
      assert (x + 2 * z) / 2 == x / 2 + z && (x + 2 * z) % 2 == x % 2;
      assert m + n - 1 == m - 1 + n;
    }
  }

  /** Shifting right by k drops the first k bits. */
  lemma {:induction false} ToBitsDrop(v: nat, n: nat, k: nat)
    requires k <= n
    ensures ToBits(v, n)[k..] == ToBits(Shr(v, k), n - k)
    decreases k
  {
    if k == 0 {
    } else {
      ToBitsDrop(v / 2, n - 1, k - 1);
      assert ToBits(v, n)[k..] == ToBits(v / 2, n - 1)[k - 1..];
    }
  }

  /** Masking keeps the first k bits. */
  lemma {:induction false} ToBitsTake(v: nat, n: nat, k: nat)
    requires k <= n
    ensures ToBits(v, n)[..k] == ToBits(v, k)
    decreases k
  {
    if k == 0 {
    } else {
      ToBitsTake(v / 2, n - 1, k - 1);
      assert ToBits(v, n)[..k] == [v % 2 == 1] + ToBits(v / 2, n - 1)[..k - 1];
    }
  }

  lemma {:induction false} ToBitsLow(v: nat, n: nat)
    ensures ToBits(Low(v, n), n) == ToBits(v, n)
    decreases n
  {
    if n == 0 {
    } else {
      ToBitsLow(v / 2, n - 1);
      assert Low(v, n) / 2 == Low(v / 2, n - 1);
    }
  }

  /** Bit k of a number. */
  lemma ToBitsIndex(v: nat, n: nat, k: nat)
    requires k < n
    ensures ToBits(v, n)[k] == (Shr(v, k) % 2 == 1)
  {
    ToBitsDrop(v, n, k);
    assert ToBits(v, n)[k] == ToBits(v, n)[k..][0];
  }

  lemma FromBitsSplit(b: seq<bool>, k: nat)
    requires k <= |b|
    ensures Low(FromBits(b), k) == FromBits(b[..k])
    ensures Shr(FromBits(b), k) == FromBits(b[k..])
  {
    hide *;
    var x, y := FromBits(b[..k]), FromBits(b[k..]);
    assert FromBits(b) == x + Shl(y, k) by {
      assert b == b[..k] + b[k..];
      FromBitsConcat(b[..k], b[k..]);
    }
    FromBitsBound(b[..k]);
    LowShrPack(x, y, k);
  }

  lemma FromBitsInjective(a: seq<bool>, b: seq<bool>)
    requires |a| == |b| && FromBits(a) == FromBits(b)
    ensures a == b
  {
    hide *;
    ToFromBits(a);
    ToFromBits(b);
  }

  lemma ConcatAssoc<T>(a: seq<T>, b: seq<T>, c: seq<T>)
    ensures (a + b) + c == a + (b + c)
  {
  }

  lemma BytesToBitsSnoc(s: seq<byte>, b: byte)
    ensures BytesToBits(s + [b]) == BytesToBits(s) + ToBits(b, 8)
  {
    assert (s + [b])[..|s + [b]| - 1] == s;
  }

  lemma {:induction false} BytesToBitsConcat(s: seq<byte>, t: seq<byte>)
    ensures BytesToBits(s + t) == BytesToBits(s) + BytesToBits(t)
  {
    if t == [] {
      assert s + t == s;
    } else {
      hide *;
      var t', last := t[..|t| - 1], t[|t| - 1];
      assert t == t' + [last];
      calc {
        BytesToBits(s + t);
        { ConcatAssoc(s, t', [last]); }
        BytesToBits((s + t') + [last]);
        { BytesToBitsSnoc(s + t', last); }
        BytesToBits(s + t') + ToBits(last, 8);
        { BytesToBitsConcat(s, t'); }
        (BytesToBits(s) + BytesToBits(t')) + ToBits(last, 8);
        { ConcatAssoc(BytesToBits(s), BytesToBits(t'), ToBits(last, 8)); }
        BytesToBits(s) + (BytesToBits(t') + ToBits(last, 8));
        { BytesToBitsSnoc(t', last); }
        BytesToBits(s) + BytesToBits(t);
      }
    }
  }

  /** Byte i of a buffer is bits 8i to 8i+7. */
  lemma BytesToBitsSlice(s: seq<byte>, i: nat)
    requires i < |s|
    ensures BytesToBits(s)[8 * i..8 * i + 8] == ToBits(s[i], 8)
  {
    hide *;
    assert s == s[..i] + [s[i]] + s[i + 1..];
    BytesToBitsConcat(s[..i] + [s[i]], s[i + 1..]);
    BytesToBitsSnoc(s[..i], s[i]);
  }
}

/**
 Canonical Huffman codes (section 3.2.2 of RFC 1951): the code words determined by a table of
 code lengths, and the loops of the encoder and the decoder that assign them.
 */
module Canonical {
  import opened Arith
  import opened Bits

  const MAX_BITS: nat := 15

  ghost predicate ValidLens(lens: seq<nat>, top: nat) {
    forall i :: 0 <= i < |lens| ==> lens[i] <= top
  }

  /** How many symbols have code length l. */
  function Count(lens: seq<nat>, l: nat): (r: nat) {
    if lens == [] then 0
    else Count(lens[..|lens| - 1], l) + if lens[|lens| - 1] == l then 1 else 0
  }

  /** The numerically first code of length l. */
  function First(lens: seq<nat>, l: nat): (r: nat) {
    if l <= 1 then 0 else 2 * (First(lens, l - 1) + Count(lens, l - 1))
  }

  /** The code of a used symbol: codes of one length are consecutive in symbol order. */
  function Code(lens: seq<nat>, s: nat): (r: nat)
    requires s < |lens|
  {
    First(lens, lens[s]) + Count(lens[..s], lens[s])
  }

  /** The n low bits of v, most significant first. */
  function MsbBits(v: nat, n: nat): (r: seq<bool>)
    ensures |r| == n
    decreases n
  {
    if n == 0 then [] else MsbBits(v / 2, n - 1) + [v % 2 == 1]
  }

  /** The code word of a symbol as it appears in the stream; empty for an unused symbol. */
  function CodeWord(lens: seq<nat>, s: nat): (r: seq<bool>)
    requires s < |lens|
    ensures |r| == lens[s]
  {
    MsbBits(Code(lens, s), lens[s])
  }

  /** The Kraft sum in units of 2^-top. */
  function Kraft(lens: seq<nat>, top: nat): (r: nat)
  {
    if lens == [] then 0
    else Kraft(lens[..|lens| - 1], top) + Weight(lens[|lens| - 1], top)
  }

  function Weight(l: nat, top: nat): nat {
    if 0 < l <= top then Pow2(top - l) else 0
  }

  /** The part of the Kraft sum due to lengths 1 to l. */
  function Level(lens: seq<nat>, l: nat, top: nat): nat
    requires l <= top
  {
    if l == 0 then 0 else Level(lens, l - 1, top) + Shl(Count(lens, l), top - l)
  }

  // ----- levels and the first codes

  lemma {:induction false} LevelSnoc(lens: seq<nat>, x: nat, l: nat, top: nat)
    requires l <= top
    ensures Level(lens + [x], l, top) == Level(lens, l, top) + if 0 < x <= l then Pow2(top - x) else 0
  {
    if l == 0 {
    } else {
      LevelSnoc(lens, x, l - 1, top);
      assert (lens + [x])[..|lens + [x]| - 1] == lens;
      ShlAdd(Count(lens, l), 1, top - l);
    }
  }

  lemma {:induction false} LevelIsKraft(lens: seq<nat>, top: nat)
    ensures Level(lens, top, top) == Kraft(lens, top)
  {
    if lens == [] {
      LevelEmpty(top, top);
    } else {
      var n := |lens| - 1;
      LevelIsKraft(lens[..n], top);
      LevelSnoc(lens[..n], lens[n], top, top);
      assert lens == lens[..n] + [lens[n]];
    }
  }

  lemma {:induction false} LevelEmpty(l: nat, top: nat)
    requires l <= top
    ensures Level([], l, top) == 0
  {
    if l == 0 {
    } else {
      LevelEmpty(l - 1, top);
      ShlZero(top - l);
    }
  }

  lemma {:induction false} LevelMono(lens: seq<nat>, l: nat, m: nat, top: nat)
    requires l <= m <= top
    ensures Level(lens, l, top) <= Level(lens, m, top)
    decreases m
  {
    if l >= m {
    } else {
      LevelMono(lens, l, m - 1, top);
    }
  }

  /** Scaled to 15 bits, the first code of length l is the Kraft weight of all shorter codes. */
  lemma {:induction false} FirstIsLevel(lens: seq<nat>, l: nat, top: nat)
    requires 1 <= l <= top
    ensures Shl(First(lens, l), top - l) == Level(lens, l - 1, top)
    decreases l
  {
    if l == 1 {
      ShlZero(top - 1);
    } else {
      FirstIsLevel(lens, l - 1, top);
      var f, c, k := First(lens, l - 1), Count(lens, l - 1), top - l;
      ShlShl(f + c, 1, k);
      ShlAdd(f, c, k + 1);
      assert Shl(f + c, 1) == First(lens, l);
    }
  }

  /**
   The decoder's completeness test: the code after the last is all ones plus one exactly when the Kraft
   sum is one.
   */
  lemma TotalIsKraft(lens: seq<nat>, top: nat)
    requires 0 < top
    ensures First(lens, top + 1) == 2 * Kraft(lens, top)
  {
    FirstIsLevel(lens, top, top);
    LevelIsKraft(lens, top);
  }

  /** The Kraft sum in a finer unit. */
  lemma {:induction false} KraftScale(lens: seq<nat>, top: nat, k: nat)
    requires ValidLens(lens, top)
    ensures Kraft(lens, top + k) == Shl(Kraft(lens, top), k)
  {
    if lens == [] {
      ShlZero(k);
    } else {
      var n := |lens| - 1;
      KraftScale(lens[..n], top, k);
      ShlAdd(Kraft(lens[..n], top), Weight(lens[n], top), k);
      if lens[n] == 0 {
        ShlZero(k);
      } else {
        ShlShl(1, top - lens[n], k);
        assert top + k - lens[n] == top - lens[n] + k;
      }
    }
  }

  // ----- codes fit their lengths and are prefix-free

  lemma {:induction false} CountPrefix(lens: seq<nat>, i: nat, j: nat, l: nat)
    requires i <= j <= |lens|
    ensures Count(lens[..i], l) <= Count(lens[..j], l)
    ensures i < j && lens[i] == l ==> Count(lens[..i], l) < Count(lens[..j], l)
    decreases j
  {
    if i >= j {
    } else {
      assert lens[..j][..j - 1] == lens[..j - 1];
      CountPrefix(lens, i, j - 1, l);
    }
  }

  lemma CodeInRange(lens: seq<nat>, s: nat)
    requires s < |lens|
    ensures First(lens, lens[s]) <= Code(lens, s) < First(lens, lens[s]) + Count(lens, lens[s])
  {
    assert lens[..|lens|] == lens;
    CountPrefix(lens, s, |lens|, lens[s]);
  }

  /** Every code fits in its length when the lengths are not over-subscribed. */
  lemma CodeFits(lens: seq<nat>, s: nat, top: nat)
    requires s < |lens| && 0 < lens[s] <= top
    requires Kraft(lens, top) <= Pow2(top)
    ensures Code(lens, s) < Pow2(lens[s])
  {
    var l := lens[s];
    CodeInRange(lens, s);
    LastCodeFits(lens, l, top);
  }

  lemma LastCodeFits(lens: seq<nat>, l: nat, top: nat)
    requires 0 < l <= top
    requires Kraft(lens, top) <= Pow2(top)
    ensures First(lens, l) + Count(lens, l) <= Pow2(l)
  {
    hide First, Count, Kraft;
    var f, c, k := First(lens, l), Count(lens, l), top - l;
    assert Level(lens, l, top) == Shl(f + c, k) by {
      FirstIsLevel(lens, l, top);
      ShlAdd(f, c, k);
    }
    assert Level(lens, l, top) <= Pow2(top) by {
      LevelMono(lens, l, top, top);
      LevelIsKraft(lens, top);
    }
    assert Pow2(top) == Shl(Pow2(l), k) by {
      ShlShl(1, l, k);
    }
    ShlCancel(f + c, Pow2(l), k);
  }

  lemma {:induction false} FirstGrows(lens: seq<nat>, l: nat, m: nat)
    requires 1 <= l < m
    ensures First(lens, m) >= Shl(First(lens, l) + Count(lens, l), m - l)
    decreases m
  {
    if l + 1 >= m {
    } else {
      FirstGrows(lens, l, m - 1);
    }
  }

  lemma {:induction false} MsbPrefix(v: nat, n: nat, d: nat)
    requires d <= n
    ensures MsbBits(v, n)[..d] == MsbBits(Shr(v, n - d), d)
    decreases n
  {
    if d == n {
      assert MsbBits(v, n)[..n] == MsbBits(v, n);
    } else {
      MsbPrefix(v / 2, n - 1, d);
      assert MsbBits(v, n)[..d] == MsbBits(v / 2, n - 1)[..d];
    }
  }

  lemma {:induction false} MsbInjective(v: nat, w: nat, n: nat)
    requires v < Pow2(n) && w < Pow2(n) && MsbBits(v, n) == MsbBits(w, n)
    ensures v == w
    decreases n
  {
    if n == 0 {
    } else {
      var a, b := MsbBits(v / 2, n - 1), MsbBits(w / 2, n - 1);
      assert MsbBits(v, n)[..n - 1] == a && MsbBits(w, n)[..n - 1] == b;
      assert MsbBits(v, n)[n - 1] == (v % 2 == 1) && MsbBits(w, n)[n - 1] == (w % 2 == 1);
      MsbInjective(v / 2, w / 2, n - 1);
    }
  }

  lemma MsbPrefixIsShr(c: nat, m: nat, d: nat, n: nat)
    requires m <= n && c < Pow2(m) && d < Pow2(n)
    requires MsbBits(c, m) <= MsbBits(d, n)
    ensures c == Shr(d, n - m)
  {
    ShrLess(d, n - m, n);
    MsbPrefix(d, n, m);
    MsbInjective(c, Shr(d, n - m), m);
  }

  /** The first ls bits of a longer code are larger than every code of length ls. */
  lemma LongerCodeIsLarger(lens: seq<nat>, s: nat, t: nat)
    requires s < |lens| && t < |lens| && 0 < lens[s] < lens[t]
    ensures Shr(Code(lens, t), lens[t] - lens[s]) > Code(lens, s)
  {
    var k, c := lens[t] - lens[s], Code(lens, s);
    CodeInRange(lens, s);
    CodeInRange(lens, t);
    FirstGrows(lens, lens[s], lens[t]);
    ShlMono(c + 1, First(lens, lens[s]) + Count(lens, lens[s]), k);
    ShrAtLeast(Code(lens, t), k, c + 1);
  }

  lemma SameLengthDistinct(lens: seq<nat>, s: nat, t: nat)
    requires s < |lens| && t < |lens| && s != t && lens[s] == lens[t]
    ensures Code(lens, s) != Code(lens, t)
  {
    CountPrefix(lens, Min(s, t), Max(s, t), lens[s]);
  }

  /** No code word is a prefix of another symbol's code word. */
  lemma PrefixFree(lens: seq<nat>, s: nat, t: nat, top: nat)
    requires ValidLens(lens, top) && Kraft(lens, top) <= Pow2(top)
    requires s < |lens| && t < |lens| && s != t && lens[s] > 0 && lens[t] > 0
    ensures !(CodeWord(lens, s) <= CodeWord(lens, t))
  {
    hide Kraft, Pow2, Shl, Code, MsbBits;
    if CodeWord(lens, s) <= CodeWord(lens, t) {
      assert Code(lens, s) == Shr(Code(lens, t), lens[t] - lens[s]) by {
        CodeFits(lens, s, top);
        CodeFits(lens, t, top);
        MsbPrefixIsShr(Code(lens, s), lens[s], Code(lens, t), lens[t]);
      }
      if lens[s] == lens[t] {
        SameLengthDistinct(lens, s, t);
      } else {
        LongerCodeIsLarger(lens, s, t);
      }
    }
  }

  // ----- the assignment loops

  lemma {:induction false} MsbCons(v: nat, n: nat)
    ensures MsbBits(v, n + 1) == [Shr(v, n) % 2 == 1] + MsbBits(v, n)
    decreases n
  {
    if n == 0 {
    } else {
      MsbCons(v / 2, n - 1);
      ConcatAssoc([Shr(v, n) % 2 == 1], MsbBits(v / 2, n - 1), [v % 2 == 1]);
    }
  }

  /**
   The bit-reversal loop shared by encoder and decoder: the result, written least significant bit
   first, is the code word.
   */
  method ReverseCode(code: nat, size: nat) returns (rev: nat)
    ensures rev == FromBits(MsbBits(code, size))
  {
    rev := 0;
    var c, l := code, size;
    while l > 0
      invariant 0 <= l <= size
      invariant c == Shr(code, size - l)
      invariant rev == FromBits(MsbBits(code, size - l))
    {
      ghost var k := size - l;
      MsbCons(code, k);
      assert MsbBits(code, k + 1)[1..] == MsbBits(code, k);
      ShrShr(code, k, 1);
      rev := 2 * rev + c % 2;
      l := l - 1;
      c := c / 2;
    }
  }

  /** Counting one more symbol. */
  lemma CountNext(lens: seq<nat>, i: nat, l: nat)
    requires i < |lens|
    ensures Count(lens[..i + 1], l) == Count(lens[..i], l) + if lens[i] == l then 1 else 0
  {
    assert lens[..i + 1][..i] == lens[..i];
  }

  /** The next code of every length once the first i symbols have theirs. */
  ghost predicate NextCodes(next: seq<nat>, lens: seq<nat>, i: nat) {
    i <= |lens| && forall l :: 1 <= l < |next| ==> next[l] == First(lens, l) + Count(lens[..i], l)
  }

  lemma NextCodesStep(next: seq<nat>, lens: seq<nat>, i: nat)
    requires NextCodes(next, lens, i) && i < |lens| && lens[i] < |next|
    ensures lens[i] == 0 ==> NextCodes(next, lens, i + 1)
    ensures lens[i] > 0 ==> next[lens[i]] == Code(lens, i) && NextCodes(next[lens[i] := next[lens[i]] + 1], lens, i + 1)
  {
    forall l ensures Count(lens[..i + 1], l) == Count(lens[..i], l) + if lens[i] == l then 1 else 0 {
      CountNext(lens, i, l);
    }
  }

  lemma FirstStart(lens: seq<nat>)
    ensures First(lens, 1) == 0
  {
  }

  lemma FirstStep(lens: seq<nat>, i: nat)
    requires 1 <= i
    ensures First(lens, i + 1) == 2 * (First(lens, i) + Count(lens, i))
  {
  }

  lemma NextCodesStart(next: seq<nat>, lens: seq<nat>)
    requires forall l :: 1 <= l < |next| ==> next[l] == First(lens, l)
    ensures NextCodes(next, lens, 0)
  {
    hide First;
    assert lens[..0] == [];
  }

  /** The encoder's first loop: the first code of every length from the number of codes of each length. */
  method FirstCodes(numCodes: array<nat>, limit: nat, ghost lens: seq<nat>) returns (nextCode: array<nat>)
    requires 1 <= limit < numCodes.Length
    requires forall l :: 1 <= l <= limit ==> numCodes[l] == Count(lens, l)
    ensures fresh(nextCode) && nextCode.Length == limit + 1 && NextCodes(nextCode[..], lens, 0)
  {
    hide Count, First;
    nextCode := new nat[limit + 1](_ => 0);
    var j := 0;
    FirstStart(lens);
    for i := 2 to limit + 1
      invariant j == First(lens, i - 1)
      invariant forall l :: 1 <= l < i ==> nextCode[l] == First(lens, l)
    {
      FirstStep(lens, i - 1);
      j := 2 * (j + numCodes[i - 1]);
      nextCode[i] := j;
    }
    NextCodesStart(nextCode[..], lens);
  }

  ghost predicate CodesAssigned(codes: seq<nat>, lens: seq<nat>, n: nat) {
    n <= |lens| <= |codes| &&
    forall i :: 0 <= i < n && lens[i] > 0 ==> codes[i] == FromBits(CodeWord(lens, i))
  }

  /**
   The encoder's assignment: from the number of codes of each length, every used symbol receives its
   canonical code, bit-reversed.
   */
  method AssignCodes(numCodes: array<nat>, sizes: array<nat>, codes: array<nat>, limit: nat)
    requires sizes.Length == codes.Length && sizes != codes && numCodes != codes
    requires 1 <= limit < numCodes.Length
    requires ValidLens(sizes[..], limit)
    requires forall l :: 1 <= l <= limit ==> numCodes[l] == Count(sizes[..], l)
    modifies codes
    ensures CodesAssigned(codes[..], sizes[..], sizes.Length)
    ensures forall i :: 0 <= i < sizes.Length && sizes[i] == 0 ==> codes[i] == old(codes[i])
  {
    ghost var lens := sizes[..];
    var nextCode := FirstCodes(numCodes, limit, lens);
    for i := 0 to sizes.Length
      invariant sizes[..] == lens
      invariant NextCodes(nextCode[..], lens, i)
      invariant CodesAssigned(codes[..], lens, i)
      invariant forall k :: 0 <= k < sizes.Length && (i <= k || lens[k] == 0) ==> codes[k] == old(codes[k])
    {
      NextCodesStep(nextCode[..], lens, i);
      var size := sizes[i];
      if size != 0 {
        var rev := ReverseCode(nextCode[size], size);
        nextCode[size] := nextCode[size] + 1;
        codes[i] := rev;
      }
    }
  }
}

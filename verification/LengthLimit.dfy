/** Limiting the lengths of a Huffman code, on the histogram of its code lengths. */
module LengthLimit {
  import opened Arith

  /** How many codes have lengths 1 to l. */
  function Codes(num: seq<nat>, l: nat): nat
    requires l < |num|
  {
    if l == 0 then 0 else Codes(num, l - 1) + num[l]
  }

  /** The Kraft sum of the codes of lengths 1 to l, in units of 2^-top. */
  function Total(num: seq<nat>, l: nat, top: nat): nat
    requires l < |num| && l <= top
  {
    if l == 0 then 0 else Total(num, l - 1, top) + Shl(num[l], top - l)
  }

  lemma {:induction false} CodesUpdate(num: seq<nat>, i: nat, v: nat, l: nat)
    requires l < |num| && i < |num|
    ensures Codes(num[i := v], l) + (if 1 <= i <= l then num[i] else 0) ==
      Codes(num, l) + (if 1 <= i <= l then v else 0)
  {
    if l == 0 {
    } else {
      CodesUpdate(num, i, v, l - 1);
    }
  }

  lemma {:induction false} TotalUpdate(num: seq<nat>, i: nat, v: nat, l: nat, top: nat)
    requires l < |num| && i < |num| && l <= top
    ensures Total(num[i := v], l, top) + (if 1 <= i <= l then Shl(num[i], top - i) else 0)
         == Total(num, l, top) + (if 1 <= i <= l then Shl(v, top - i) else 0)
  {
    if l == 0 {
    } else {
      TotalUpdate(num, i, v, l - 1, top);
    }
  }

  lemma {:induction false} TotalScale(num: seq<nat>, l: nat, top: nat, k: nat)
    requires l < |num| && l <= top
    ensures Total(num, l, top + k) == Shl(Total(num, l, top), k)
  {
    if l == 0 {
      ShlZero(k);
    } else {
      TotalScale(num, l - 1, top, k);
      ShlAdd(Total(num, l - 1, top), Shl(num[l], top - l), k);
      ShlShl(num[l], top - l, k);
      assert top - l + k == top + k - l;
    }
  }

  /** Moving all longer codes up to length m does not decrease the sum. */
  lemma {:induction false} FoldedTotal(num: seq<nat>, m: nat, l: nat, top: nat)
    requires 1 <= m <= l < |num| && l <= top
    ensures Codes(num, m) <= Codes(num, l) && Total(num, m, top) <= Total(num, l, top)
    ensures Total(num, l, top) <= Total(num, m, top) + Shl(Codes(num, l) - Codes(num, m), top - m)
    decreases l
  {
    if l == m {
      ShlZero(top - m);
    } else {
      FoldedTotal(num, m, l - 1, top);
      ShlAdd(Codes(num, l - 1) - Codes(num, m), num[l], top - m);
      ShlShl(num[l], top - l, l - m);
      ShlGrows(Shl(num[l], top - l), l - m);
    }
  }

  lemma {:induction false} TotalBound(num: seq<nat>, l: nat, top: nat)
    requires l < |num| && 1 <= top && l <= top
    ensures Total(num, l, top) <= Shl(Codes(num, l), top - 1)
  {
    if l == 0 {
      ShlZero(top - 1);
    } else {
      TotalBound(num, l - 1, top);
      ShlAdd(Codes(num, l - 1), num[l], top - 1);
      ShlShl(num[l], top - l, l - 1);
      ShlGrows(Shl(num[l], top - l), l - 1);
    }
  }

  /** If no code is shorter than m, all are of length m. */
  lemma {:induction false} AllLong(num: seq<nat>, l: nat, top: nat)
    requires l < |num| && l <= top && forall i :: 1 <= i <= l ==> num[i] == 0
    ensures Total(num, l, top) == 0 && Codes(num, l) == 0
  {
    if l == 0 {
    } else {
      AllLong(num, l - 1, top);
      ShlZero(top - l);
    }
  }

  /**
   What the adjusting loop keeps: the number of codes, and a sum that is too large only because of the
   longest codes.
   */
  ghost predicate Adjusting(num: seq<nat>, n: nat, m: nat, total: nat) {
    && 1 <= m < |num|
    && Codes(num, m) == n <= Pow2(m)
    && total == Total(num, m, m) >= Pow2(m)
    && Total(num, m - 1, m) <= Pow2(m)
  }

  /**
   Splitting a code of length i and dropping one of length m keeps the number of codes and lowers the
   sum by one unit.
   */
  lemma AdjustStep(num: seq<nat>, n: nat, m: nat, total: nat, i: nat)
    requires Adjusting(num, n, m, total) && total != Pow2(m) && 1 <= i < m && num[m] >= 1 && num[i] >= 1
    ensures
      var a := num[m := num[m] - 1];
      var b := a[i := a[i] - 1];
      Adjusting(b[i + 1 := b[i + 1] + 2], n, m, total - 1)
  {
    var a := num[m := num[m] - 1];
    var b := a[i := a[i] - 1];
    CodesUpdate(num, m, num[m] - 1, m);
    CodesUpdate(a, i, a[i] - 1, m);
    CodesUpdate(b, i + 1, b[i + 1] + 2, m);
    AdjustTotal(num, m, i, m);
    AdjustTotal(num, m, i, m - 1);
  }

  lemma AdjustTotal(num: seq<nat>, m: nat, i: nat, l: nat)
    requires 1 <= i < m < |num| && m - 1 <= l <= m && num[m] >= 1 && num[i] >= 1
    ensures
      var a := num[m := num[m] - 1];
      var b := a[i := a[i] - 1];
      var c := b[i + 1 := b[i + 1] + 2];
      && (l == m ==> Total(c, m, m) == Total(num, m, m) - 1)
      && (l == m - 1 ==> Total(c, m - 1, m) <= Total(num, m - 1, m))
  {
    var a := num[m := num[m] - 1];
    var b := a[i := a[i] - 1];
    TotalUpdate(num, m, num[m] - 1, l, m);
    TotalUpdate(a, i, a[i] - 1, l, m);
    TotalUpdate(b, i + 1, b[i + 1] + 2, l, m);
    ShlAdd(a[i] - 1, 1, m - i);
    ShlAdd(b[i + 1], 2, m - (i + 1));
    ShlShl(1, 1, m - i - 1);
    assert Shl(1, 1) == 2;
  }

  /** While the sum is too large there is a longest code to drop and a shorter one to split. */
  lemma AdjustPossible(num: seq<nat>, n: nat, m: nat, total: nat)
    requires Adjusting(num, n, m, total) && total != Pow2(m)
    ensures total > Pow2(m) && num[m] >= 1 && exists i :: 1 <= i < m && num[i] >= 1
  {
    if forall i :: 1 <= i < m ==> num[i] == 0 {
      AllLong(num, m - 1, m);
    }
  }

  /** The sum always fits the 32-bit variable that holds it. */
  lemma TotalFits(num: seq<nat>, n: nat, m: nat, total: nat)
    requires Adjusting(num, n, m, total) && m <= 15
    ensures total < Pow2(32)
  {
    TotalBound(num, m, m);
    ShlMono(n, Pow2(m), m - 1);
    ShlShl(1, m, m - 1);
    Pow2Mono(m + (m - 1), 29);
  }

  lemma FoldedStart(num: seq<nat>, n: nat, m: nat, top: nat)
    requires 1 <= m <= top == |num| - 1
    requires Total(num, top, top) == Pow2(top) && Codes(num, top) == n <= Pow2(m)
    ensures Codes(num, m) <= n
    ensures var num' := num[m := num[m] + n - Codes(num, m)];
      Adjusting(num', n, m, Total(num', m, m)) && Total(num', m, m) >= Pow2(m)
  {
    var k, t := top - m, n - Codes(num, m);
    FoldedTotal(num, m, top, top);
    var num' := num[m := num[m] + t];
    CodesUpdate(num, m, num[m] + t, m);
    TotalUpdate(num, m, num[m] + t, m, m);
    TotalUpdate(num, m, num[m] + t, m - 1, m);
    ShlAdd(num[m], t, 0);
    var x := Total(num, m, m);
    assert Total(num, m, top) == Shl(x, k) by { TotalScale(num, m, m, k); }
    assert Pow2(top) == Shl(Pow2(m), k) by { ShlShl(1, m, k); }
    ShlCancel(x, Pow2(m), k);
    ShlAdd(x, t, k);
    ShlCancel(Pow2(m), x + t, k);
  }

  /** The fold: lengths beyond m are counted as m. */
  method Fold(num: array<nat>, m: nat)
    requires 1 <= m < num.Length
    modifies num
    ensures num.Length - 1 >= m && Codes(old(num[..]), m) <= Codes(old(num[..]), num.Length - 1)
    ensures num[..] == old(num[..])[m := old(num[m]) + Codes(old(num[..]), num.Length - 1) - Codes(old(num[..]), m)]
  {
    ghost var s := num[..];
    for i := m + 1 to num.Length
      invariant Codes(s, m) <= Codes(s, i - 1)
      invariant num[..] == s[m := s[m] + Codes(s, i - 1) - Codes(s, m)]
    {
      num[m] := num[m] + num[i];
    }
  }

  /** The loop that computes the sum. */
  method SumUp(num: array<nat>, m: nat) returns (total: nat)
    requires 1 <= m < num.Length
    ensures total == Total(num[..], m, m)
  {
    total := 0;
    var i := m;
    while i > 0
      invariant 0 <= i <= m
      invariant total + Total(num[..], i, m) == Total(num[..], m, m)
      decreases i
    {
      total := total + Shl(num[i], m - i);
      i := i - 1;
    }
  }

  /** The search for the longest code shorter than m. */
  method FindShorter(num: array<nat>, m: nat) returns (i: nat)
    requires 1 <= m < num.Length && exists k :: 1 <= k < m && num[k] >= 1
    ensures 1 <= i < m && num[i] >= 1
    ensures forall k :: i < k < m ==> num[k] == 0
  {
    i := m - 1;
    while num[i] == 0
      invariant 1 <= i < m && forall k :: i < k < m ==> num[k] == 0
      decreases i
    {
      assert exists k :: 1 <= k < i && num[k] >= 1;
      i := i - 1;
    }
  }
}

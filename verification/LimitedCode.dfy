/** What limiting the lengths of a Huffman code costs. */
module LimitedCode {
  import opened Arith
  import opened Canonical
  import opened SymFreqs
  import opened MinRedundancy
  import opened Optimality
  import opened LengthLimit

  const LIMIT: nat := 15

  // ----- sums over the symbols

  function Clip(k: seq<nat>): (r: seq<nat>)
    ensures |r| == |k|
  {
    if k == [] then [] else Clip(k[..|k| - 1]) + [Min(k[|k| - 1], LIMIT)]
  }

  /** How many lengths reach the limit. */
  function Long(k: seq<nat>): nat {
    if k == [] then 0 else Long(k[..|k| - 1]) + if k[|k| - 1] >= LIMIT then 1 else 0
  }

  /** How many of those are shorter now. */
  function Lent(k: seq<nat>, c: seq<nat>): nat
    requires |k| == |c|
  {
    if k == [] then 0
    else Lent(k[..|k| - 1], c[..|k| - 1]) + if k[|k| - 1] >= LIMIT && c[|k| - 1] < LIMIT then 1 else 0
  }

  /** What a code shorter than the limit can free, in units of 2^-15, by being turned into codes at the limit. */
  function Room(l: nat): nat
    decreases LIMIT - l
  {
    if l < LIMIT then 2 * Room(l + 1) + 1 else 0
  }

  lemma {:induction false} RoomIs(l: nat)
    requires l <= LIMIT
    ensures Share(l, LIMIT) == Room(l) + 1
    decreases LIMIT - l
  {
    if l >= LIMIT {
    } else {
      RoomIs(l + 1);
    }
  }

  /** What the lengths that reached the limit and are shorter now could free. */
  function Free(k: seq<nat>, c: seq<nat>): nat
    requires |k| == |c|
  {
    if k == [] then 0
    else Free(k[..|k| - 1], c[..|k| - 1]) + if k[|k| - 1] >= LIMIT then Room(c[|k| - 1]) else 0
  }

  /** What the other lengths have freed by growing. */
  function Paid(k: seq<nat>, c: seq<nat>): int
    requires |k| == |c|
  {
    if k == [] then 0
    else Paid(k[..|k| - 1], c[..|k| - 1]) + if k[|k| - 1] < LIMIT then Room(k[|k| - 1]) - Room(c[|k| - 1]) else 0
  }

  lemma {:induction false} ClipAt(k: seq<nat>, i: nat)
    requires i < |k|
    ensures Clip(k)[i] == Min(k[i], LIMIT)
  {
    if i >= |k| - 1 {
    } else {
      ClipAt(k[..|k| - 1], i);
    }
  }

  lemma {:induction false} ClipDot(x: seq<nat>, k: seq<nat>)
    requires |x| == |k|
    ensures Dot(x, Clip(k)) <= Dot(x, k)
  {
    if k == [] {
    } else {
      var n := |k| - 1;
      ClipDot(x[..n], k[..n]);
      assert Clip(k)[..n] == Clip(k[..n]);
      MulMono(x[n], Min(k[n], LIMIT), k[n]);
    }
  }

  lemma {:induction false} ClipFree(k: seq<nat>)
    ensures Free(k, Clip(k)) == 0 && Lent(k, Clip(k)) == 0
  {
    if k == [] {
    } else {
      var n := |k| - 1;
      ClipFree(k[..n]);
      assert Clip(k)[..n] == Clip(k[..n]);
    }
  }

  /** Folding the longer codes adds less than one unit for each code that reaches the limit. */
  lemma {:induction false} ClipSum(k: seq<nat>)
    requires AllAtMost(k, 32)
    ensures Shl(KSum(Clip(k), LIMIT), 17) + Long(k) <= KSum(k, 32) + Shl(Long(k), 17)
  {
    hide Shl;
    if k == [] {
      ShlZero(17);
    } else {
      var n := |k| - 1;
      ClipSum(k[..n]);
      assert Clip(k)[..n] == Clip(k[..n]);
      ShlAdd(KSum(Clip(k[..n]), LIMIT), Share(Min(k[n], LIMIT), LIMIT), 17);
      ShlAdd(Long(k[..n]), 1, 17);
      ClipOne(k[n]);
    }
  }

  lemma ClipOne(l: nat)
    requires l <= 32
    ensures Shl(Share(Min(l, LIMIT), LIMIT), 17) + (if l >= LIMIT then 1 else 0) <=
      Share(l, 32) + (if l >= LIMIT then Shl(1, 17) else 0)
  {
    if l >= LIMIT {
      ClipLong(l);
    } else {
      ShlShl(1, LIMIT - l, 17);
    }
  }

  lemma ClipLong(l: nat)
    requires LIMIT <= l <= 32
    ensures Share(LIMIT, LIMIT) == 1 && Share(l, 32) >= 1
  {
    Pow2Mono(0, 32 - l);
  }

  /** The units freed are those paid for less those that are free to be taken. */
  lemma {:induction false} Balance(k: seq<nat>, c: seq<nat>)
    requires |k| == |c| && AllAtMost(c, LIMIT)
    ensures KSum(Clip(k), LIMIT) - KSum(c, LIMIT) == Paid(k, c) - Free(k, c)
  {
    if k == [] {
    } else {
      var n := |k| - 1;
      Balance(k[..n], c[..n]);
      assert Clip(k)[..n] == Clip(k[..n]);
      RoomIs(c[n]);
      RoomIs(Min(k[n], LIMIT));
    }
  }

  // ----- what a symbol pays

  /** The heaviest a symbol of a given length can be. */
  function Heaviest(k: nat): nat {
    if k <= 7 then 3120 else if k == 8 then 1927 else if k == 9 then 1191 else if k == 10 then 736
    else if k == 11 then 455 else if k == 12 then 281 else if k == 13 then 173 else 107
  }

  lemma HeaviestRate(k: nat, c: nat)
    requires 7 <= k <= c <= LIMIT
    ensures Heaviest(k) * (c - k) <= 122 * (Room(k) - Room(c))
  {
    RoomFacts();
    hide Room;
  }

  lemma HeaviestIs(x: nat, k: nat)
    requires 7 <= k < LIMIT && Fib(x, k + 1) < 65536
    ensures x <= Heaviest(k)
  {
    FibFacts(x);
    hide Fib;
  }

  /** A symbol whose length was 7 or more before pays at most 122 bits for each unit it frees. */
  lemma Rate(x: nat, k: nat, c: nat)
    requires 7 <= k <= c <= LIMIT && k < LIMIT && Fib(x, k + 1) < 65536
    ensures x * (c - k) <= 122 * (Room(k) - Room(c))
  {
    hide Fib, Room, Heaviest;
    HeaviestIs(x, k);
    HeaviestRate(k, c);
    MulMono(c - k, x, Heaviest(k));
  }

  lemma FibFacts(x: nat)
    ensures Fib(x, 8) == 21 * x && Fib(x, 9) == 34 * x && Fib(x, 10) == 55 * x && Fib(x, 11) == 89 * x
    ensures Fib(x, 12) == 144 * x && Fib(x, 13) == 233 * x && Fib(x, 14) == 377 * x && Fib(x, 15) == 610 * x
  {
    assert Fib(x, 2) == x && Fib(x, 3) == 2 * x && Fib(x, 4) == 3 * x && Fib(x, 5) == 5 * x;
    assert Fib(x, 6) == 8 * x && Fib(x, 7) == 13 * x;
  }

  lemma RoomFacts()
    ensures Room(6) == 511 && Room(7) == 255 && Room(8) == 127 && Room(9) == 63 && Room(10) == 31 && Room(11) == 15
    ensures Room(12) == 7 && Room(13) == 3 && Room(14) == 1 && Room(15) == 0
  {
  }

  // ----- lengths handed to the symbols as the histogram is adjusted

  /** num counts the lengths in lens. */
  ghost predicate HistogramOf(num: seq<nat>, lens: seq<nat>, l: nat) {
    l < |num| && forall i :: 1 <= i <= l ==> num[i] == Count(lens, i)
  }

  /** A length below the limit only grows, and only from 7 on; one that reached the limit may shrink. */
  ghost predicate Grown(k: seq<nat>, c: seq<nat>) {
    && |k| == |c|
    && forall s :: 0 <= s < |k| ==> 1 <= c[s] <= LIMIT && (k[s] < LIMIT ==> k[s] <= c[s] && (c[s] == k[s] || k[s] >= 7))
  }

  /** What has shrunk below the limit is at least as long as what was below it all along. */
  ghost predicate Layered(k: seq<nat>, c: seq<nat>) {
    && |k| == |c|
    && forall b, s ::
         0 <= b < |k| && 0 <= s < |k| && k[b] >= LIMIT && c[b] < LIMIT && k[s] < LIMIT && c[s] < LIMIT ==> c[s] <= c[b]
  }

  /** The lengths the symbols have when the histogram is num. */
  ghost predicate Assigned(k: seq<nat>, c: seq<nat>, num: seq<nat>) {
    && Grown(k, c) && Layered(k, c) && HistogramOf(num, c, LIMIT)
    && Lent(k, c) + KSum(c, LIMIT) <= KSum(Clip(k), LIMIT)
    && 2 * Free(k, c) <= |k|
  }

  /** Every unit that has been freed or may be taken costs at most 122 bits. */
  lemma {:induction false} CostBound(x: seq<nat>, k: seq<nat>, c: seq<nat>)
    requires |x| == |k| && Grown(k, c) && FibonacciHeavy(x, k)
    ensures Dot(x, c) <= Dot(x, Clip(k)) + 122 * Paid(k, c)
  {
    if k == [] {
    } else {
      hide Fib;
      var n := |k| - 1;
      CostBound(x[..n], k[..n], c[..n]);
      assert Clip(k)[..n] == Clip(k[..n]);
      CostOne(x[n], k[n], c[n]);
    }
  }

  lemma CostOne(x: nat, k: nat, c: nat)
    requires 1 <= c <= LIMIT && (k < LIMIT ==> k <= c && (c == k || k >= 7)) && Fib(x, k + 1) < 65536
    ensures x * c <= x * Min(k, LIMIT) + 122 * (if k < LIMIT then Room(k) - Room(c) else 0)
  {
    hide Fib, Room;
    if k < LIMIT {
      if c != k {
        Rate(x, k, c);
        assert x * (c - k) == x * c - x * k;
      }
    } else {
      MulMono(x, c, LIMIT);
    }
  }

  /** A histogram cannot be reached without the symbols paying for it. */
  lemma AssignedCost(x: seq<nat>, k: seq<nat>, c: seq<nat>, num: seq<nat>)
    requires |x| == |k| && FibonacciHeavy(x, k) && Assigned(k, c, num) && AllAtMost(k, 32) && KSum(k, 32) == Pow2(32)
    requires KSum(c, LIMIT) == Pow2(LIMIT)
    ensures Dot(x, c) <= Dot(x, k) + 183 * |k|
  {
    hide Fib, KSum, Dot, Paid, Free, Lent, Layered, HistogramOf, FibonacciHeavy, Shl;
    CostBound(x, k, c);
    ClipDot(x, k);
    assert AllAtMost(c, LIMIT);
    Balance(k, c);
    Excess(k);
  }

  lemma Excess(k: seq<nat>)
    requires AllAtMost(k, 32) && KSum(k, 32) == Pow2(32)
    ensures KSum(Clip(k), LIMIT) <= Pow2(LIMIT) + Long(k)
    ensures Long(k) > 0 ==> KSum(Clip(k), LIMIT) < Pow2(LIMIT) + Long(k)
    ensures Long(k) <= |k|
  {
    hide Shl, KSum, Clip;
    ClipSum(k);
    ShlShl(1, LIMIT, 17);
    ShlAdd(Pow2(LIMIT), Long(k), 17);
    ShlCancel(KSum(Clip(k), LIMIT), Pow2(LIMIT) + Long(k), 17);
    LongAtMost(k);
  }

  lemma {:induction false} LongAtMost(k: seq<nat>)
    ensures Long(k) <= |k|
  {
    if k == [] {
    } else {
      LongAtMost(k[..|k| - 1]);
    }
  }

  // ----- one adjustment

  lemma {:induction false} FreeUpdate(k: seq<nat>, c: seq<nat>, s: nat, v: nat)
    requires |k| == |c| && s < |k|
    ensures k[s] >= LIMIT ==> Free(k, c[s := v]) + Room(c[s]) == Free(k, c) + Room(v)
    ensures k[s] < LIMIT ==> Free(k, c[s := v]) == Free(k, c)
  {
    hide Room;
    var n := |k| - 1;
    if s == n {
      assert c[s := v][..n] == c[..n];
    } else {
      FreeUpdate(k[..n], c[..n], s, v);
      assert c[s := v][..n] == c[..n][s := v];
    }
  }

  lemma {:induction false} LentUpdate(k: seq<nat>, c: seq<nat>, s: nat, v: nat)
    requires |k| == |c| && s < |k|
    ensures Lent(k, c[s := v]) <= Lent(k, c) + if k[s] >= LIMIT && c[s] >= LIMIT then 1 else 0
  {
    var n := |k| - 1;
    if s == n {
      assert c[s := v][..n] == c[..n];
    } else {
      LentUpdate(k[..n], c[..n], s, v);
      assert c[s := v][..n] == c[..n][s := v];
    }
  }

  /** Of the codes that reached the limit one still does, unless all have been shortened. */
  lemma {:induction false} FindLong(k: seq<nat>, c: seq<nat>) returns (t: nat)
    requires |k| == |c| && AllAtMost(c, LIMIT) && Lent(k, c) < Long(k)
    ensures t < |k| && k[t] >= LIMIT && c[t] == LIMIT
  {
    var n := |k| - 1;
    if k[n] >= LIMIT && c[n] == LIMIT {
      t := n;
    } else {
      t := FindLong(k[..n], c[..n]);
    }
  }

  lemma {:induction false} NothingFree(k: seq<nat>, c: seq<nat>)
    requires |k| == |c| && forall b :: 0 <= b < |k| && k[b] >= LIMIT ==> c[b] == LIMIT
    ensures Free(k, c) == 0
  {
    if k == [] {
    } else {
      NothingFree(k[..|k| - 1], c[..|k| - 1]);
    }
  }

  lemma {:induction false} CountUpdate(lens: seq<nat>, x: nat, v: nat, l: nat)
    requires x < |lens|
    ensures Count(lens[x := v], l) + (if lens[x] == l then 1 else 0) == Count(lens, l) + (if v == l then 1 else 0)
  {
    var n := |lens| - 1;
    if x == n {
      assert lens[x := v][..n] == lens[..n];
    } else {
      CountUpdate(lens[..n], x, v, l);
      assert lens[x := v][..n] == lens[..n][x := v];
    }
  }

  lemma {:induction false} CountFind(c: seq<nat>, l: nat)
    ensures Count(c, l) <= |c|
    ensures Count(c, l) > 0 <==> exists s :: 0 <= s < |c| && c[s] == l
  {
    if c == [] {
    } else {
      var n := |c| - 1;
      CountFind(c[..n], l);
      if s :| 0 <= s < n && c[s] == l {
        assert c[..n][s] == l;
      }
    }
  }

  /** What an adjustment does to the histogram. */
  function Adjusted(num: seq<nat>, i: nat): seq<nat>
    requires 1 <= i < LIMIT < |num| && num[i] >= 1 && num[LIMIT] >= 1
  {
    var a := num[LIMIT := num[LIMIT] - 1];
    var b := a[i := a[i] - 1];
    b[i + 1 := b[i + 1] + 2]
  }

  /** The code split is one of the longest below the limit. */
  ghost predicate Longest(num: seq<nat>, i: nat) {
    1 <= i < LIMIT < |num| && num[i] >= 1 && num[LIMIT] >= 1 && forall j :: i < j < LIMIT ==> num[j] == 0
  }

  lemma NoneLonger(c: seq<nat>, num: seq<nat>, i: nat, s: nat)
    requires HistogramOf(num, c, LIMIT) && Longest(num, i) && s < |c| && 1 <= c[s] < LIMIT
    ensures c[s] <= i
  {
    CountFind(c, c[s]);
  }

  lemma AdjustedCounts(c: seq<nat>, num: seq<nat>, i: nat, s: nat, t: nat)
    requires HistogramOf(num, c, LIMIT) && Longest(num, i) && s < |c| && t < |c| && c[s] == i && c[t] == LIMIT
    ensures HistogramOf(Adjusted(num, i), if i == LIMIT - 1 then c[s := LIMIT] else c[s := i + 1][t := i + 1], LIMIT)
  {
    hide Count;
    var c' := if i == LIMIT - 1 then c[s := LIMIT] else c[s := i + 1][t := i + 1];
    forall l | 1 <= l <= LIMIT
      ensures Adjusted(num, i)[l] == Count(c', l)
    {
      CountUpdate(c, s, i + 1, l);
      CountUpdate(c[s := i + 1], t, i + 1, l);
    }
  }

  lemma AdjustedSum(c: seq<nat>, i: nat, s: nat, t: nat)
    requires s < |c| && t < |c| && c[s] == i < LIMIT && c[t] == LIMIT
    ensures KSum(if i == LIMIT - 1 then c[s := LIMIT] else c[s := i + 1][t := i + 1], LIMIT) == KSum(c, LIMIT) - 1
  {
    hide KSum, Share;
    KSumUpdate(c, s, i + 1, LIMIT);
    KSumUpdate(c[s := i + 1], t, i + 1, LIMIT);
    RoomIs(i);
    RoomIs(i + 1);
    RoomIs(LIMIT);
  }

  /** Splitting a code that reached the limit before takes up a unit that was free. */
  lemma SplitLent(k: seq<nat>, c: seq<nat>, num: seq<nat>, i: nat, s: nat, t: nat)
    requires Assigned(k, c, num) && Longest(num, i) && s < |c| && t < |c|
    requires c[s] == i && k[s] >= LIMIT && c[t] == LIMIT && k[t] >= LIMIT
    ensures Assigned(k, if i == LIMIT - 1 then c[s := LIMIT] else c[s := i + 1][t := i + 1], Adjusted(num, i))
  {
    hide KSum, Lent, Free, HistogramOf, Adjusted, Clip;
    AdjustedCounts(c, num, i, s, t);
    AdjustedSum(c, i, s, t);
    FreeUpdate(k, c, s, i + 1);
    FreeUpdate(k, c[s := i + 1], t, i + 1);
    LentUpdate(k, c, s, i + 1);
    LentUpdate(k, c[s := i + 1], t, i + 1);
    forall r | 0 <= r < |c| && c[r] < LIMIT
      ensures c[r] <= i
    {
      NoneLonger(c, num, i, r);
    }
  }

  /** Splitting another code, when nothing is free, frees as many units as the code has room for. */
  lemma SplitOther(k: seq<nat>, c: seq<nat>, num: seq<nat>, i: nat, s: nat, t: nat)
    requires Assigned(k, c, num) && Longest(num, i) && s < |c| && t < |c|
    requires c[s] == i && k[s] < LIMIT && c[t] == LIMIT && k[t] >= LIMIT
    requires forall b :: 0 <= b < |k| && k[b] >= LIMIT ==> c[b] != i
    requires 7 <= i && Room(i) <= |k|
    ensures Assigned(k, if i == LIMIT - 1 then c[s := LIMIT] else c[s := i + 1][t := i + 1], Adjusted(num, i))
  {
    hide KSum, Lent, Free, HistogramOf, Adjusted, Clip;
    AdjustedCounts(c, num, i, s, t);
    AdjustedSum(c, i, s, t);
    forall r | 0 <= r < |c| && c[r] < LIMIT
      ensures c[r] <= i
    {
      NoneLonger(c, num, i, r);
    }
    NothingFree(k, c);
    FreeUpdate(k, c, s, i + 1);
    FreeUpdate(k, c[s := i + 1], t, i + 1);
    LentUpdate(k, c, s, i + 1);
    LentUpdate(k, c[s := i + 1], t, i + 1);
  }

  // ----- giving the shorter lengths to the heavier symbols is best

  ghost predicate SameLengths(y: seq<nat>, c: seq<nat>) {
    |y| == |c| && forall l: nat :: Count(y, l) == Count(c, l)
  }

  lemma SwapLast(x: seq<nat>, c: seq<nat>, q: nat)
    requires |x| == |c| && q < |c| && Ascending(x) && c[q] <= c[|c| - 1]
    ensures var n := |c| - 1; var d := c[q := c[n]]; Dot(x[..n], d[..n]) + x[n] * c[q] <= Dot(x, c)
    ensures var n := |c| - 1; forall l: nat :: Count(c[q := c[n]][..n], l) + (if c[q] == l then 1 else 0) == Count(c, l)
  {
    var n := |c| - 1;
    var d := c[q := c[n]][n := c[q]];
    assert d[..n] == c[q := c[n]][..n];
    DotUpdate(x, c, q, c[n]);
    DotUpdate(x, c[q := c[n]], n, c[q]);
    Rearrange(x[q], x[n], c[q], c[n]);
    forall l: nat
      ensures Count(d, l) == Count(c, l)
    {
      CountUpdate(c, q, c[n], l);
      CountUpdate(c[q := c[n]], n, c[q], l);
    }
  }

  lemma {:induction false} SortedIsBest(x: seq<nat>, y: seq<nat>, c: seq<nat>)
    requires |x| == |y| && Ascending(x) && Descending(y) && SameLengths(y, c)
    ensures Dot(x, y) <= Dot(x, c)
  {
    if x == [] {
    } else {
      var n := |x| - 1;
      var v := y[n];
      CountFind(y, v);
      CountFind(c, v);
      var q :| 0 <= q < |c| && c[q] == v;
      CountFind(c, c[n]);
      CountFind(y, c[n]);
      SwapLast(x, c, q);
      var d := c[q := c[n]][..n];
      forall l: nat
        ensures Count(y[..n], l) == Count(d, l)
      {
        assert Count(y, l) == Count(y[..n], l) + if v == l then 1 else 0;
      }
      SortedIsBest(x[..n], y[..n], d);
    }
  }

  // ----- the sum of the lengths and of the histogram

  lemma {:induction false} TotalIsLevel(num: seq<nat>, lens: seq<nat>, l: nat, top: nat)
    requires HistogramOf(num, lens, l) && l <= top
    ensures Total(num, l, top) == Level(lens, l, top)
  {
    if l == 0 {
    } else {
      TotalIsLevel(num, lens, l - 1, top);
    }
  }

  /** How many of the lengths are between 1 and l. */
  function CountUpTo(lens: seq<nat>, l: nat): nat {
    if l == 0 then 0 else CountUpTo(lens, l - 1) + Count(lens, l)
  }

  lemma {:induction false} CountUpToSnoc(lens: seq<nat>, x: nat, l: nat)
    ensures CountUpTo(lens + [x], l) == CountUpTo(lens, l) + if 1 <= x <= l then 1 else 0
  {
    if l == 0 {
    } else {
      CountUpToSnoc(lens, x, l - 1);
      assert (lens + [x])[..|lens + [x]| - 1] == lens;
    }
  }

  lemma {:induction false} CountUpToAll(lens: seq<nat>, l: nat)
    requires forall i :: 0 <= i < |lens| ==> 1 <= lens[i] <= l
    ensures CountUpTo(lens, l) == |lens|
  {
    if lens == [] {
      CountUpToNone(l);
    } else {
      var n := |lens| - 1;
      CountUpToAll(lens[..n], l);
      CountUpToSnoc(lens[..n], lens[n], l);
      assert lens == lens[..n] + [lens[n]];
    }
  }

  lemma {:induction false} CountUpToNone(l: nat)
    ensures CountUpTo([], l) == 0
  {
    if l == 0 {
    } else {
      CountUpToNone(l - 1);
    }
  }

  lemma {:induction false} CodesIsCount(num: seq<nat>, lens: seq<nat>, l: nat)
    requires HistogramOf(num, lens, l)
    ensures Codes(num, l) == CountUpTo(lens, l)
  {
    if l == 0 {
    } else {
      CodesIsCount(num, lens, l - 1);
    }
  }

  /** The Kraft sum after handing out a histogram. */
  lemma HandedKraft(num: seq<nat>, sizes: seq<nat>, limit: nat)
    requires HistogramOf(num, sizes, limit)
    ensures Kraft(sizes, limit) == Total(num, limit, limit)
  {
    TotalIsLevel(num, sizes, limit, limit);
    LevelIsKraft(sizes, limit);
  }

  lemma {:induction false} KSumIsKraft(c: seq<nat>, top: nat)
    requires AllAtLeast(c, 1)
    ensures KSum(c, top) == Kraft(c, top)
  {
    if c == [] {
    } else {
      KSumIsKraft(c[..|c| - 1], top);
    }
  }

  lemma AssignedTotal(k: seq<nat>, c: seq<nat>, num: seq<nat>)
    requires Assigned(k, c, num)
    ensures KSum(c, LIMIT) == Total(num, LIMIT, LIMIT) && num[LIMIT] <= |k|
  {
    hide Layered, Lent, Free, Clip, Kraft, KSum, Total;
    HandedKraft(num, c, LIMIT);
    KSumIsKraft(c, LIMIT);
    CountFind(c, LIMIT);
  }

  /** When the sum is too large, more codes stand at the limit than the code to be split has room for. */
  lemma ManyLong(num: seq<nat>, i: nat)
    requires Longest(num, i) && Total(num, LIMIT, LIMIT) > Pow2(LIMIT) && Total(num, LIMIT - 1, LIMIT) < Pow2(LIMIT)
    ensures Room(i) < num[LIMIT]
  {
    hide Shl, Room;
    LastTerm(num);
    SkipEmpty(num, i, LIMIT - 1, LIMIT);
    TotalScale(num, i, i, LIMIT - i);
    var q := Total(num, i, i);
    ShlShl(1, i, LIMIT - i);
    if q >= Pow2(i) {
      ShlMono(Pow2(i), q, LIMIT - i);
    }
    ShlMono(q + 1, Pow2(i), LIMIT - i);
    ShlAdd(q, 1, LIMIT - i);
    RoomIs(i);
  }

  lemma {:induction false} SkipEmpty(num: seq<nat>, i: nat, l: nat, top: nat)
    requires i <= l < |num| && l <= top && forall j :: i < j <= l ==> num[j] == 0
    ensures Total(num, l, top) == Total(num, i, top)
    decreases l
  {
    if i >= l {
    } else {
      SkipEmpty(num, i, l - 1, top);
      ShlZero(top - l);
    }
  }

  lemma {:induction false} RoomMono(i: nat, j: nat)
    requires i <= j
    ensures Room(i) >= Room(j)
    decreases j - i
  {
    if i >= j {
    } else {
      RoomMono(i + 1, j);
    }
  }

  /** The lengths after an adjustment. */
  lemma AssignStep(k: seq<nat>, c: seq<nat>, num: seq<nat>, i: nat) returns (c': seq<nat>)
    requires Assigned(k, c, num) && Longest(num, i) && |k| <= 288 && AllAtMost(k, 32) && KSum(k, 32) == Pow2(32)
    requires Total(num, LIMIT, LIMIT) > Pow2(LIMIT) && Total(num, LIMIT - 1, LIMIT) < Pow2(LIMIT)
    ensures Assigned(k, c', Adjusted(num, i))
  {
    hide Total, KSum, Lent, Free, Clip, Shl, Adjusted, Room, Layered, Long;
    AssignedTotal(k, c, num);
    Excess(k);
    var t := FindLong(k, c);
    ManyLong(num, i);
    if i < 7 {
      RoomMono(i, 6);
      RoomFacts();
    }
    CountFind(c, i);
    c' := [];
    if s :| 0 <= s < |c| && c[s] == i && k[s] >= LIMIT {
      SplitLent(k, c, num, i, s, t);
      c' := if i == LIMIT - 1 then c[s := LIMIT] else c[s := i + 1][t := i + 1];
    } else {
      var s :| 0 <= s < |c| && c[s] == i;
      SplitOther(k, c, num, i, s, t);
      c' := if i == LIMIT - 1 then c[s := LIMIT] else c[s := i + 1][t := i + 1];
    }
  }

  // ----- the fold

  lemma {:induction false} ClipCount(k: seq<nat>, l: nat)
    requires l <= LIMIT
    ensures Count(Clip(k), l) == if l < LIMIT then Count(k, l) else Long(k)
  {
    if k == [] {
    } else {
      ClipCount(k[..|k| - 1], l);
      assert Clip(k)[..|k| - 1] == Clip(k[..|k| - 1]);
    }
  }

  lemma {:induction false} CountRest(k: seq<nat>)
    requires AllAtLeast(k, 1)
    ensures CountUpTo(k, LIMIT - 1) + Long(k) == |k|
  {
    if k == [] {
      CountUpToNone(LIMIT - 1);
    } else {
      hide CountUpTo;
      var n := |k| - 1;
      CountRest(k[..n]);
      CountUpToSnoc(k[..n], k[n], LIMIT - 1);
      assert k == k[..n] + [k[n]];
    }
  }

  /** The clipped lengths are counted by the folded histogram. */
  lemma AssignStart(k: seq<nat>, num: seq<nat>)
    requires HistogramOf(num, k, 32) && AllAtLeast(k, 1) && Codes(num, LIMIT) <= |k|
    ensures Assigned(k, Clip(k), num[LIMIT := num[LIMIT] + |k| - Codes(num, LIMIT)])
  {
    assert Codes(num, LIMIT) == Codes(num, LIMIT - 1) + num[LIMIT];
    hide CountUpTo, Codes, Count, KSum, Lent, Free;
    var num' := num[LIMIT := num[LIMIT] + |k| - Codes(num, LIMIT)];
    CodesIsCount(num, k, LIMIT - 1);
    CountRest(k);
    forall l | 1 <= l <= LIMIT
      ensures num'[l] == Count(Clip(k), l)
    {
      ClipCount(k, l);
    }
    forall s | 0 <= s < |k|
      ensures Clip(k)[s] == Min(k[s], LIMIT)
    {
      ClipAt(k, s);
    }
    ClipFree(k);
  }

  /** The adjusting loop: the histogram and, for the limit of 15 bits, the lengths it counts. */
  ghost predicate Limiting(num: seq<nat>, n: nat, m: nat, total: nat, k: seq<nat>, c: seq<nat>) {
    && Adjusting(num, n, m, total)
    && (m == LIMIT && n <= 288 ==> Assigned(k, c, num) && (total > Pow2(m) ==> Total(num, m - 1, m) < Pow2(m)))
  }

  /** A complete code of n lengths up to 32. */
  ghost predicate Complete(num: seq<nat>, n: nat, k: seq<nat>) {
    && |num| == 33 && |k| == n && AllAtLeast(k, 1) && AllAtMost(k, 32) && KSum(k, 32) == Pow2(32)
    && HistogramOf(num, k, 32)
  }

  lemma CompleteTotal(num: seq<nat>, n: nat, k: seq<nat>)
    requires Complete(num, n, k)
    ensures Codes(num, 32) == n && Total(num, 32, 32) == Pow2(32)
  {
    hide Codes, Total, KSum, Kraft, CountUpTo, Shl;
    CodesIsCount(num, k, 32);
    CountUpToAll(k, 32);
    HandedKraft(num, k, 32);
    KSumIsKraft(k, 32);
  }

  lemma LimitStart(num: seq<nat>, n: nat, m: nat, k: seq<nat>)
    requires Complete(num, n, k) && 1 <= m <= LIMIT && n <= Pow2(m)
    ensures Codes(num, m) <= n
    ensures var num' := num[m := num[m] + n - Codes(num, m)]; Limiting(num', n, m, Total(num', m, m), k, Clip(k))
  {
    hide Total, Codes, Adjusting, Assigned, HistogramOf, KSum, Shl;
    CompleteTotal(num, n, k);
    FoldedStart(num, n, m, 32);
    if m == LIMIT {
      AssignStart(k, num);
      StartLow(k, num[m := num[m] + n - Codes(num, m)]);
    }
  }

  lemma StartLow(k: seq<nat>, num: seq<nat>)
    requires Assigned(k, Clip(k), num) && AllAtMost(k, 32) && KSum(k, 32) == Pow2(32)
    ensures Total(num, LIMIT, LIMIT) > Pow2(LIMIT) ==> Total(num, LIMIT - 1, LIMIT) < Pow2(LIMIT)
  {
    hide Layered, Lent, Free, Clip, KSum, Pow2, Total, Long;
    AssignedTotal(k, Clip(k), num);
    Excess(k);
    ClipCount(k, LIMIT);
    LastTerm(num);
  }

  lemma LastTerm(num: seq<nat>)
    requires LIMIT < |num|
    ensures Total(num, LIMIT, LIMIT) == Total(num, LIMIT - 1, LIMIT) + num[LIMIT]
  {
    assert Shl(num[LIMIT], 0) == num[LIMIT];
  }

  /** One adjustment. */
  lemma LimitStep(num: seq<nat>, n: nat, m: nat, total: nat, k: seq<nat>, c: seq<nat>, i: nat) returns (c': seq<nat>)
    requires Limiting(num, n, m, total, k, c) && total != Pow2(m) && |k| == n && AllAtMost(k, 32)
    requires KSum(k, 32) == Pow2(32)
    requires 1 <= i < m && num[m] >= 1 && num[i] >= 1 && forall j :: i < j < m ==> num[j] == 0
    ensures
      var a := num[m := num[m] - 1];
      var b := a[i := a[i] - 1];
      Limiting(b[i + 1 := b[i + 1] + 2], n, m, total - 1, k, c')
  {
    hide Total, Codes, Assigned, KSum, Shl;
    AdjustStep(num, n, m, total, i);
    AdjustPossible(num, n, m, total);
    c' := c;
    if m == LIMIT && n <= 288 {
      AdjustTotal(num, m, i, m - 1);
      c' := AssignStep(k, c, num, i);
    }
  }

  /**
   From a complete code with at most 2^m code words, the histogram is changed to one with the same
   number of codes, none longer than m, and Kraft sum one. With the limit of 15 bits the symbols can be
   given the new lengths at little cost.
   */
  method EnforceMaxCodeSize(num: array<nat>, n: nat, m: nat, ghost k: seq<nat>) returns (ghost c: seq<nat>)
    requires 1 <= m <= LIMIT && num.Length == 33
    requires n > 1 ==> Complete(num[..], n, k) && n <= Pow2(m)
    modifies num
    ensures n <= 1 ==> num[..] == old(num[..])
    ensures n > 1 ==> Codes(num[..], m) == n && Total(num[..], m, m) == Pow2(m)
    ensures n > 1 && m == LIMIT && n <= 288 ==> Assigned(k, c, num[..]) && KSum(c, LIMIT) == Pow2(LIMIT)
  {
    hide Codes, Total, Shl, Limiting, Assigned, KSum, HistogramOf;
    c := Clip(k);
    if n <= 1 {
      return;
    }
    LimitStart(num[..], n, m, k);
    CompleteTotal(num[..], n, k);
    Fold(num, m);
    var total: nat := SumUp(num, m);
    while total != Pow2(m)
      invariant Limiting(num[..], n, m, total, k, c)
      decreases total
    {
      ghost var s := num[..];
      LimitingFacts(s, n, m, total, k, c);
      TotalFits(s, n, m, total);
      AdjustPossible(s, n, m, total);
      ghost var j :| 1 <= j < m && s[j] >= 1;
      num[m] := num[m] - 1;
      assert num[j] >= 1;
      var i := FindShorter(num, m);
      assert forall l :: i <= l < m ==> s[l] == num[l];
      c := LimitStep(s, n, m, total, k, c, i);
      num[i] := num[i] - 1;
      num[i + 1] := num[i + 1] + 2;
      ghost var a := s[m := s[m] - 1];
      assert num[..] == a[i := a[i] - 1][i + 1 := a[i := a[i] - 1][i + 1] + 2];
      total := total - 1;
    }
    LimitingFacts(num[..], n, m, total, k, c);
  }

  lemma LimitingFacts(num: seq<nat>, n: nat, m: nat, total: nat, k: seq<nat>, c: seq<nat>)
    requires Limiting(num, n, m, total, k, c)
    ensures Adjusting(num, n, m, total) && Codes(num, m) == n && Total(num, m, m) == total
    ensures m == LIMIT && n <= 288 ==> Assigned(k, c, num) && KSum(c, LIMIT) == total
  {
    hide Assigned, Total, Codes, KSum;
    if m == LIMIT && n <= 288 {
      AssignedTotal(k, c, num);
    }
  }
}

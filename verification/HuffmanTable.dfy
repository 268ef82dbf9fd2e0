/** Building a length-limited Huffman table from symbol counts, as the encoder does for each dynamic block. */
module HuffmanTable {
  import opened Arith
  import opened Canonical
  import opened SymFreqs
  import opened MinRedundancy
  import opened Optimality
  import opened LengthLimit
  import opened LimitedCode
  import opened RadixSort

  /** The histogram of the computed depths. */
  method LengthHistogram(syms: array<SymFreq>) returns (num: array<nat>)
    requires forall i :: 0 <= i < syms.Length ==> 1 <= syms[i].key <= 32
    ensures fresh(num) && num.Length == 33
    ensures HistogramOf(num[..], Keys(syms[..]), 32)
  {
    num := new nat[33](_ => 0);
    ghost var lens := Keys(syms[..]);
    for i := 0 to syms.Length
      invariant Keys(syms[..]) == lens
      invariant HistogramOf(num[..], lens[..i], 32)
    {
      forall l ensures Count(lens[..i + 1], l) == Count(lens[..i], l) + if lens[i] == l then 1 else 0 {
        CountNext(lens, i, l);
      }
      num[syms[i].key] := num[syms[i].key] + 1;
    }
    assert lens[..syms.Length] == lens;
  }

  // ----- handing the lengths to the symbols

  ghost predicate DistinctSyms(syms: seq<SymFreq>, n: nat) {
    && (forall i :: 0 <= i < |syms| ==> syms[i].sym < n)
    && (forall i, j :: 0 <= i < j < |syms| ==> syms[i].sym != syms[j].sym)
  }

  /** The symbols from j on have lengths at most i, longer ones first, and no other symbol has one. */
  ghost predicate Handed(sizes: seq<nat>, syms: seq<SymFreq>, j: nat, i: nat) {
    && DistinctSyms(syms, |sizes|) && j <= |syms|
    && (forall x :: j <= x < |syms| ==> 1 <= sizes[syms[x].sym] <= i)
    && (forall x, y :: j <= x <= y < |syms| ==> sizes[syms[x].sym] >= sizes[syms[y].sym])
    && (forall s :: 0 <= s < |sizes| && sizes[s] > 0 ==> exists x :: j <= x < |syms| && syms[x].sym == s)
  }

  /** Of each length below i all codes have been handed out, of length i all but left. */
  ghost predicate Given(sizes: seq<nat>, num: seq<nat>, limit: nat, i: nat, left: nat) {
    && limit < |num| && i <= limit + 1
    && forall l :: 1 <= l <= limit ==>
      Count(sizes, l) == if l < i then num[l] else if l == i then num[l] - left else 0
  }

  lemma HandFresh(sizes: seq<nat>, syms: seq<SymFreq>, j: nat, i: nat)
    requires Handed(sizes, syms, j, i) && j >= 1
    ensures syms[j - 1].sym < |sizes| && sizes[syms[j - 1].sym] == 0
  {
    assert forall x :: j <= x < |syms| ==> syms[j - 1].sym != syms[x].sym;
  }

  lemma HandStep(sizes: seq<nat>, syms: seq<SymFreq>, j: nat, i: nat)
    requires Handed(sizes, syms, j, i) && j >= 1 && 1 <= i
    ensures Handed(sizes[syms[j - 1].sym := i], syms, j - 1, i)
  {
    var s0 := syms[j - 1].sym;
    var b := sizes[s0 := i];
    forall x | j <= x < |syms| ensures b[syms[x].sym] == sizes[syms[x].sym] {
      assert syms[x].sym != s0;
    }
    forall s | 0 <= s < |b| && b[s] > 0 ensures exists x :: j - 1 <= x < |syms| && syms[x].sym == s {
      if s == s0 {
        assert syms[j - 1].sym == s;
      } else {
        assert sizes[s] > 0;
      }
    }
  }

  lemma GiveStep(sizes: seq<nat>, num: seq<nat>, limit: nat, i: nat, left: nat, s: nat)
    requires Given(sizes, num, limit, i, left) && 1 <= i <= limit && 1 <= left <= num[i]
    requires s < |sizes| && sizes[s] == 0
    ensures Given(sizes[s := i], num, limit, i, left - 1)
  {
    var b := sizes[s := i];
    forall l: nat ensures Count(b, l) + (if sizes[s] == l then 1 else 0) ==
      Count(sizes, l) + (if i == l then 1 else 0) {
      CountUpdate(sizes, s, i, l);
    }
  }

  /** The inner loop: num[i] symbols, from the most frequent not yet served, get length i. */
  method HandLength(syms: array<SymFreq>, num: array<nat>, sizes: array<nat>, limit: nat, i: nat, j: nat)
    returns (j': nat)
    requires 1 <= i <= limit < num.Length && num != sizes && num[i] <= j
    requires Handed(sizes[..], syms[..], j, i) && Given(sizes[..], num[..], limit, i, num[i])
    modifies sizes
    ensures j' == j - num[i] && Handed(sizes[..], syms[..], j', i) && Given(sizes[..], num[..], limit, i, 0)
  {
    hide Handed, Given;
    j' := j;
    var l := num[i];
    while l > 0
      invariant 0 <= l <= num[i] && num[..] == old(num[..])
      invariant j' == j - (num[i] - l)
      invariant Handed(sizes[..], syms[..], j', i)
      invariant Given(sizes[..], num[..], limit, i, l)
      decreases l
    {
      HandSize(sizes[..], syms[..], j', i);
      HandFresh(sizes[..], syms[..], j', i);
      HandStep(sizes[..], syms[..], j', i);
      GiveStep(sizes[..], num[..], limit, i, l, syms[j' - 1].sym);
      j' := j' - 1;
      ghost var b := sizes[..];
      sizes[syms[j'].sym] := i;
      assert sizes[..] == b[syms[j'].sym := i];
      l := l - 1;
    }
  }

  lemma HandSize(sizes: seq<nat>, syms: seq<SymFreq>, j: nat, i: nat)
    requires Handed(sizes, syms, j, i)
    ensures j <= |syms|
  {
  }

  /** The loop that hands the lengths to the symbols, the shortest to the most frequent. */
  method HandOut(syms: array<SymFreq>, num: array<nat>, sizes: array<nat>, limit: nat)
    requires 1 <= limit < num.Length && num != sizes
    requires Codes(num[..], limit) == syms.Length && DistinctSyms(syms[..], sizes.Length)
    requires forall i :: 0 <= i < sizes.Length ==> sizes[i] == 0
    modifies sizes
    ensures Handed(sizes[..], syms[..], 0, limit)
    ensures HistogramOf(num[..], sizes[..], limit)
  {
    hide Handed, Given, HistogramOf, DistinctSyms;
    ghost var ns := num[..];
    var j: nat := syms.Length;
    HandStart(sizes[..], syms[..], ns, limit);
    for i: nat := 1 to limit + 1
      invariant num[..] == ns
      invariant Handed(sizes[..], syms[..], j, i - 1)
      invariant Given(sizes[..], ns, limit, i, ns[if i <= limit then i else 0])
      invariant j + Codes(ns, i - 1) == syms.Length
    {
      HandWiden(sizes[..], syms[..], j, i);
      CodesNext(ns, i, limit);
      j := HandLength(syms, num, sizes, limit, i, j);
      GivenNext(sizes[..], ns, limit, i);
    }
    GivenAll(sizes[..], ns, limit);
  }

  lemma HandStart(sizes: seq<nat>, syms: seq<SymFreq>, num: seq<nat>, limit: nat)
    requires 1 <= limit < |num| && DistinctSyms(syms, |sizes|) && forall i :: 0 <= i < |sizes| ==> sizes[i] == 0
    ensures Handed(sizes, syms, |syms|, 0) && Given(sizes, num, limit, 1, num[1])
  {
    forall l | 1 <= l ensures Count(sizes, l) == 0 {
      CountZeros(sizes, l);
    }
  }

  lemma {:induction false} CountZeros(sizes: seq<nat>, l: nat)
    requires 1 <= l && forall i :: 0 <= i < |sizes| ==> sizes[i] == 0
    ensures Count(sizes, l) == 0
  {
    if sizes == [] {
    } else {
      CountZeros(sizes[..|sizes| - 1], l);
    }
  }

  lemma HandWiden(sizes: seq<nat>, syms: seq<SymFreq>, j: nat, i: nat)
    requires 1 <= i && Handed(sizes, syms, j, i - 1)
    ensures Handed(sizes, syms, j, i)
  {
  }

  lemma {:induction false} CodesNext(num: seq<nat>, i: nat, limit: nat)
    requires 1 <= i <= limit < |num|
    ensures Codes(num, i) == Codes(num, i - 1) + num[i] <= Codes(num, limit)
    decreases limit
  {
    if i >= limit {
    } else {
      CodesNext(num, i, limit - 1);
    }
  }

  lemma GivenNext(sizes: seq<nat>, num: seq<nat>, limit: nat, i: nat)
    requires Given(sizes, num, limit, i, 0) && i <= limit
    ensures Given(sizes, num, limit, i + 1, num[if i + 1 <= limit then i + 1 else 0])
  {
  }

  lemma GivenAll(sizes: seq<nat>, num: seq<nat>, limit: nat)
    requires limit < |num| && Given(sizes, num, limit, limit + 1, num[0])
    ensures HistogramOf(num, sizes, limit)
  {
  }

  // ----- the symbols in use

  function Used(counts: seq<nat>): seq<SymFreq> {
    if counts == [] then []
    else
      var n := |counts| - 1;
      Used(counts[..n]) + if counts[n] > 0 then [SymFreq(counts[n], n)] else []
  }

  lemma {:induction false} UsedMembers(counts: seq<nat>)
    ensures forall x :: x in Used(counts) <==> x.sym < |counts| && counts[x.sym] == x.key > 0
  {
    if counts == [] {
    } else {
      var n := |counts| - 1;
      UsedMembers(counts[..n]);
    }
  }

  lemma {:induction false} UsedDistinct(counts: seq<nat>)
    ensures DistinctSyms(Used(counts), |counts|)
  {
    if counts == [] {
    } else {
      var n := |counts| - 1;
      UsedDistinct(counts[..n]);
    }
  }

  lemma {:induction false} UsedBound(counts: seq<nat>)
    ensures |Used(counts)| <= |counts|
  {
    if counts == [] {
    } else {
      UsedBound(counts[..|counts| - 1]);
    }
  }

  method CollectUsed(counts: array<nat>) returns (used: seq<SymFreq>)
    ensures used == Used(counts[..])
  {
    used := [];
    for i := 0 to counts.Length
      invariant used == Used(counts[..i])
    {
      assert counts[..i + 1][..i] == counts[..i];
      if counts[i] != 0 {
        used := used + [SymFreq(counts[i], i)];
      }
    }
    assert counts[..counts.Length] == counts[..];
  }

  lemma RemoveOne(b: seq<SymFreq>, i: nat)
    requires i < |b|
    ensures multiset(b[..i] + b[i + 1..]) == multiset(b) - multiset{b[i]}
  {
    var p, q, x := b[..i], b[i + 1..], b[i];
    assert b == p + [x] + q;
    assert multiset(b) == multiset(p) + multiset{x} + multiset(q);
  }

  /**
   What is summed up over symbols: their counts, their cost with code lengths w, what the lengths take
   up of a code, or how many are l.
   */
  datatype Measure = Counts | Costs(w: seq<nat>) | Shares(w: seq<nat>, top: nat) | Hits(w: seq<nat>, l: nat)

  function Of(g: Measure, x: SymFreq): nat {
    match g
    case Counts => x.key
    case Costs(w) => if x.sym < |w| then x.key * w[x.sym] else 0
    case Shares(w, top) => if x.sym < |w| then Share(w[x.sym], top) else 0
    case Hits(w, l) => if x.sym < |w| && w[x.sym] == l then 1 else 0
  }

  function SumOf(s: seq<SymFreq>, g: Measure): nat {
    if s == [] then 0 else SumOf(s[..|s| - 1], g) + Of(g, s[|s| - 1])
  }

  lemma {:induction false} SumOfConcat(s: seq<SymFreq>, t: seq<SymFreq>, g: Measure)
    ensures SumOf(s + t, g) == SumOf(s, g) + SumOf(t, g)
  {
    if t == [] {
      assert s + t == s;
    } else {
      SumOfConcat(s, t[..|t| - 1], g);
      assert (s + t)[..|s + t| - 1] == s + t[..|t| - 1];
    }
  }

  lemma RemoveOneSum(b: seq<SymFreq>, i: nat, g: Measure)
    requires i < |b|
    ensures SumOf(b, g) == SumOf(b[..i] + b[i + 1..], g) + Of(g, b[i])
  {
    var p, q, x := b[..i], b[i + 1..], b[i];
    assert b == p + [x] + q && (p + [x])[..i] == p;
    SumOfConcat(p + [x], q, g);
    SumOfConcat(p, q, g);
  }

  /** A sum over the symbols does not depend on their order. */
  lemma {:induction false} SumPermutation(a: seq<SymFreq>, b: seq<SymFreq>, g: Measure)
    requires multiset(a) == multiset(b)
    ensures SumOf(a, g) == SumOf(b, g)
    decreases |a|
  {
    assert |a| == |b| by {
      assert |multiset(a)| == |a| && |multiset(b)| == |b|;
    }
    if a == [] {
    } else {
      hide *;
      var x, n := a[|a| - 1], |a| - 1;
      assert x in multiset(b);
      var i :| 0 <= i < |b| && b[i] == x;
      RemoveOne(a, n);
      RemoveOne(b, i);
      RemoveOneSum(a, n, g);
      RemoveOneSum(b, i, g);
      SumPermutation(a[..n] + a[n + 1..], b[..i] + b[i + 1..], g);
    }
  }

  lemma {:induction false} DistinctOnce(s: seq<SymFreq>, n: nat, x: SymFreq)
    requires DistinctSyms(s, n)
    ensures multiset(s)[x] <= 1
  {
    if s == [] {
    } else {
      var m := |s| - 1;
      DistinctOnce(s[..m], n, x);
      assert s == s[..m] + [s[m]];
      if x == s[m] {
        assert x !in s[..m];
      }
    }
  }

  lemma DistinctPermutation(r: seq<SymFreq>, s: seq<SymFreq>, n: nat)
    requires multiset(r) == multiset(s) && DistinctSyms(s, n)
    ensures DistinctSyms(r, n)
  {
    forall i | 0 <= i < |r| ensures r[i] in s {
      assert r[i] in multiset(r);
    }
    forall i, j | 0 <= i < j < |r| ensures r[i].sym != r[j].sym {
      if r[i].sym == r[j].sym {
        assert r[i] in s && r[j] in s;
        assert r[i] == r[j];
        DistinctOnce(s, n, r[j]);
        RemoveOne(r, j);
      }
    }
  }

  // ----- the lengths of the symbols in use

  function Pick(w: seq<nat>, s: seq<SymFreq>): (r: seq<nat>)
    ensures |r| == |s|
  {
    seq(|s|, i requires 0 <= i < |s| => if s[i].sym < |w| then w[s[i].sym] else 0)
  }

  lemma {:induction false} PickCost(s: seq<SymFreq>, w: seq<nat>)
    ensures SumOf(s, Costs(w)) == Dot(Keys(s), Pick(w, s))
  {
    if s == [] {
    } else {
      var n := |s| - 1;
      PickCost(s[..n], w);
      assert Keys(s)[..n] == Keys(s[..n]) && Pick(w, s)[..n] == Pick(w, s[..n]);
    }
  }

  lemma {:induction false} PickShare(s: seq<SymFreq>, w: seq<nat>, top: nat)
    requires forall i :: 0 <= i < |s| ==> s[i].sym < |w|
    ensures SumOf(s, Shares(w, top)) == KSum(Pick(w, s), top)
  {
    if s == [] {
    } else {
      var n := |s| - 1;
      PickShare(s[..n], w, top);
      assert Pick(w, s)[..n] == Pick(w, s[..n]);
    }
  }

  lemma {:induction false} UsedCost(counts: seq<nat>, w: seq<nat>)
    requires |counts| <= |w|
    ensures SumOf(Used(counts), Costs(w)) == Dot(counts, w[..|counts|])
  {
    if counts == [] {
    } else {
      var n := |counts| - 1;
      var u := Used(counts[..n]);
      UsedCost(counts[..n], w);
      assert w[..|counts|][..n] == w[..n];
      if counts[n] > 0 {
        assert (u + [SymFreq(counts[n], n)])[..|u|] == u;
      } else {
        assert u + [] == u;
      }
    }
  }

  lemma {:induction false} UsedShare(counts: seq<nat>, w: seq<nat>, top: nat)
    requires |counts| <= |w|
    ensures SumOf(Used(counts), Shares(w, top)) <= KSum(w[..|counts|], top)
  {
    if counts == [] {
    } else {
      var n := |counts| - 1;
      var u := Used(counts[..n]);
      UsedShare(counts[..n], w, top);
      assert w[..|counts|][..n] == w[..n];
      if counts[n] > 0 {
        assert (u + [SymFreq(counts[n], n)])[..|u|] == u;
      } else {
        assert u + [] == u;
      }
    }
  }

  lemma {:induction false} PickHits(s: seq<SymFreq>, w: seq<nat>, l: nat)
    requires forall i :: 0 <= i < |s| ==> s[i].sym < |w|
    ensures SumOf(s, Hits(w, l)) == Count(Pick(w, s), l)
  {
    if s == [] {
    } else {
      var n := |s| - 1;
      PickHits(s[..n], w, l);
      assert Pick(w, s)[..n] == Pick(w, s[..n]);
    }
  }

  lemma {:induction false} UsedHits(counts: seq<nat>, w: seq<nat>, l: nat)
    requires |counts| <= |w| && l > 0 && forall s :: 0 <= s < |counts| ==> (w[s] > 0 <==> counts[s] > 0)
    ensures SumOf(Used(counts), Hits(w, l)) == Count(w[..|counts|], l)
  {
    if counts == [] {
    } else {
      var n := |counts| - 1;
      var u := Used(counts[..n]);
      UsedHits(counts[..n], w, l);
      assert w[..|counts|][..n] == w[..n];
      if counts[n] > 0 {
        assert (u + [SymFreq(counts[n], n)])[..|u|] == u;
      } else {
        assert u + [] == u;
      }
    }
  }

  lemma {:induction false} UsedSum(counts: seq<nat>)
    ensures SumOf(Used(counts), Counts) == Sum(counts)
  {
    if counts == [] {
    } else {
      var n := |counts| - 1;
      var u := Used(counts[..n]);
      UsedSum(counts[..n]);
      SumSnoc(counts[..n], counts[n]);
      assert counts == counts[..n] + [counts[n]];
      if counts[n] > 0 {
        assert (u + [SymFreq(counts[n], n)])[..|u|] == u;
      } else {
        assert u + [] == u;
      }
    }
  }

  lemma {:induction false} KeysSum(s: seq<SymFreq>)
    ensures SumOf(s, Counts) == Sum(Keys(s))
  {
    if s == [] {
    } else {
      var n := |s| - 1;
      KeysSum(s[..n]);
      assert Keys(s) == Keys(s[..n]) + [s[n].key];
      SumSnoc(Keys(s[..n]), s[n].key);
    }
  }

  /** The sorted symbols are exactly the ones in use, with their counts. */
  ghost predicate SortedUse(r: seq<SymFreq>, counts: seq<nat>) {
    && DistinctSyms(r, |counts|)
    && (forall i :: 0 <= i < |r| ==> counts[r[i].sym] == r[i].key > 0)
    && (forall s :: 0 <= s < |counts| && counts[s] > 0 ==> exists x :: 0 <= x < |r| && r[x].sym == s)
    && Ascending(Keys(r)) && multiset(r) == multiset(Used(counts))
  }

  lemma SortedIsUse(r: seq<SymFreq>, counts: seq<nat>)
    requires StablySorted(r, Used(counts))
    ensures SortedUse(r, counts)
  {
    var s := Used(counts);
    StablySortedPermutation(r, s);
    UsedDistinct(counts);
    DistinctPermutation(r, s, |counts|);
    SortedMembers(r, counts);
    hide Used, WithKey, DistinctSyms;
  }

  lemma SortedMembers(r: seq<SymFreq>, counts: seq<nat>)
    requires multiset(r) == multiset(Used(counts))
    ensures forall i :: 0 <= i < |r| ==> r[i].sym < |counts| && counts[r[i].sym] == r[i].key > 0
    ensures forall s :: 0 <= s < |counts| && counts[s] > 0 ==> exists x :: 0 <= x < |r| && r[x].sym == s
  {
    UsedMembers(counts);
    hide Used;
    forall i | 0 <= i < |r| ensures r[i] in Used(counts) {
      assert r[i] in multiset(r);
    }
    forall k | 0 <= k < |counts| && counts[k] > 0 ensures exists x :: 0 <= x < |r| && r[x].sym == k {
      var y := SymFreq(counts[k], k);
      assert y in Used(counts);
      assert y in multiset(Used(counts));
      assert y in r;
    }
  }

  /** Lengths of a code, none of them zero. */
  ghost predicate CodeLens(m: seq<nat>, top: nat) {
    AllAtLeast(m, 1) && AllAtMost(m, top) && KSum(m, top) <= Pow2(top)
  }

  /** No code for items of these weights beats the lengths by more than 183 bits for each item. */
  ghost predicate NearlyBest(freqs: seq<nat>, c: seq<nat>) {
    && |c| == |freqs|
    && forall m, top :: |m| == |freqs| && CodeLens(m, top) ==> Dot(freqs, c) <= Dot(freqs, m) + 183 * |freqs|
  }

  /** The symbols in use have lengths of a code, of whatever length; what the others have does not matter. */
  ghost predicate Competes(m: seq<nat>, counts: seq<nat>, top: nat) {
    |m| == |counts| && CodeLens(Pick(m, Used(counts)), top)
  }

  /** No code for the symbols in use beats these lengths by more than 183 bits for each of them. */
  ghost predicate NearlyOptimal(counts: seq<nat>, c: seq<nat>) {
    && |c| == |counts|
    && forall m, top :: Competes(m, counts, top) ==> Dot(counts, c) <= Dot(counts, m) + 183 * |Used(counts)|
  }

  /** Lengths of a code for the whole alphabet are lengths of one for the symbols in use. */
  lemma WholeCompetes(m: seq<nat>, counts: seq<nat>, top: nat)
    requires |m| == |counts| && CodeLens(m, top)
    ensures Competes(m, counts, top)
  {
    hide KSum, SumOf, Used, Pow2;
    UsedMembers(counts);
    PickShare(Used(counts), m, top);
    UsedShare(counts, m, top);
    assert m[..|counts|] == m;
  }

  /**
   What a table built from counts guarantees: a code word for exactly the symbols in use, none longer
   than the limit, no longer for a more frequent symbol, canonical, a complete code as soon as two
   symbols are in use, and with a limit of 15 bits hardly longer than the best of all codes.
   */
  ghost predicate TableFor(counts: seq<nat>, sizes: seq<nat>, codes: seq<nat>, limit: nat) {
    && 1 <= limit && |sizes| == |codes| == |counts|
    && ValidLens(sizes, limit)
    && (forall s :: 0 <= s < |counts| ==> (sizes[s] > 0 <==> counts[s] > 0))
    && (forall s, t :: 0 <= s < |counts| && 0 <= t < |counts| && counts[s] > counts[t] > 0 ==> sizes[s] <= sizes[t])
    && CodesAssigned(codes, sizes, |sizes|)
    && Kraft(sizes, limit) ==
      (if |Used(counts)| == 0 then 0 else if |Used(counts)| == 1 then Pow2(limit - 1) else Pow2(limit))
    && (limit == LIMIT && |counts| <= 288 ==> NearlyOptimal(counts, sizes))
  }

  lemma HandedUsed(sizes: seq<nat>, r: seq<SymFreq>, b: seq<SymFreq>, counts: seq<nat>, limit: nat, s: nat)
    requires SortedUse(r, counts) && SameSyms(b, r) && Handed(sizes, b, 0, limit) && |sizes| == |counts| && s < |counts|
    ensures sizes[s] <= limit && (sizes[s] > 0 <==> counts[s] > 0)
  {
    if sizes[s] > 0 {
      var x :| 0 <= x < |b| && b[x].sym == s;
      assert r[x].sym == s;
    }
    if counts[s] > 0 {
      var x :| 0 <= x < |r| && r[x].sym == s;
      assert b[x].sym == s;
    }
  }

  lemma HandedOrder(sizes: seq<nat>, r: seq<SymFreq>, b: seq<SymFreq>, counts: seq<nat>, limit: nat, s: nat, t: nat)
    requires SortedUse(r, counts) && SameSyms(b, r) && Handed(sizes, b, 0, limit) && |sizes| == |counts|
    requires s < |counts| && t < |counts| && counts[s] > counts[t] > 0
    ensures sizes[s] <= sizes[t]
  {
    var x :| 0 <= x < |r| && r[x].sym == s;
    var y :| 0 <= y < |r| && r[y].sym == t;
    assert b[x].sym == s && b[y].sym == t;
    assert Keys(r)[x] > Keys(r)[y];
    assert y < x;
  }

  lemma HandedMatches(sizes: seq<nat>, r: seq<SymFreq>, b: seq<SymFreq>, counts: seq<nat>, limit: nat)
    requires SortedUse(r, counts) && SameSyms(b, r) && Handed(sizes, b, 0, limit) && |sizes| == |counts|
    ensures ValidLens(sizes, limit)
    ensures forall s :: 0 <= s < |counts| ==> (sizes[s] > 0 <==> counts[s] > 0)
    ensures forall s, t :: 0 <= s < |counts| && 0 <= t < |counts| && counts[s] > counts[t] > 0 ==> sizes[s] <= sizes[t]
  {
    hide SortedUse, SameSyms, Handed;
    forall s | 0 <= s < |counts| ensures sizes[s] <= limit && (sizes[s] > 0 <==> counts[s] > 0) {
      HandedUsed(sizes, r, b, counts, limit, s);
    }
    forall s, t | 0 <= s < |counts| && 0 <= t < |counts| && counts[s] > counts[t] > 0 ensures sizes[s] <= sizes[t] {
      HandedOrder(sizes, r, b, counts, limit, s, t);
    }
  }

  /** The histogram before limiting: that of a complete code for two or more symbols. */
  lemma HistogramReady(num: seq<nat>, k: seq<nat>, freqs: seq<nat>)
    requires |num| == 33 && HistogramOf(num, k, 32)
    requires |k| == 1 ==> k[0] == 1
    requires |k| >= 2 ==> MinimumRedundancyLengths(freqs, k)
    ensures |k| >= 2 ==> Complete(num, |k|, k)
    ensures |k| <= 1 ==> forall i :: 1 <= i <= 32 ==> num[i] == if i == 1 then |k| else 0
  {
    if |k| >= 2 {
      hide Count, Kraft, KSum, Pow2, Fib;
      KSumIsKraft(k, 32);
    } else {
      forall i ensures Count(k, i) == if i == 1 then |k| else 0 {
        assert |k| == 1 ==> k[..0] == [];
      }
    }
  }

  /** A histogram with at most one code, of length one. */
  lemma {:induction false} SmallHistogram(num: seq<nat>, c: nat, l: nat, top: nat)
    requires 1 <= l <= top && l < |num| && forall i :: 1 <= i <= l ==> num[i] == if i == 1 then c else 0
    ensures Codes(num, l) == c && Total(num, l, top) == Shl(c, top - 1)
    decreases l
  {
    if l <= 1 {
    } else {
      SmallHistogram(num, c, l - 1, top);
      ShlZero(top - l);
    }
  }

  lemma {:induction false} CountAtMostSum(counts: seq<nat>, i: nat)
    requires i < |counts|
    ensures counts[i] <= Sum(counts)
  {
    if i == 0 {
    } else {
      CountAtMostSum(counts[1..], i - 1);
    }
  }

  lemma UsedKeys16(counts: seq<nat>)
    requires Sum(counts) < 65536
    ensures Keys16(Used(counts))
  {
    UsedMembers(counts);
    hide Used, Sum;
    forall x | x in Used(counts) ensures x.key < 65536 {
      CountAtMostSum(counts, x.sym);
    }
  }

  lemma SortedReady(r: seq<SymFreq>, counts: seq<nat>)
    requires SortedUse(r, counts)
    ensures Ascending(Keys(r)) && AllAtLeast(Keys(r), 1) && Sum(Keys(r)) == Sum(counts)
  {
    hide Used, Sum, SumOf;
    UsedSum(counts);
    KeysSum(r);
    SumPermutation(r, Used(counts), Counts);
  }

  lemma LengthsInRange(b: seq<SymFreq>, freqs: seq<nat>)
    requires |b| == 1 ==> b[0].key == 1
    requires |b| >= 2 ==> MinimumRedundancyLengths(freqs, Keys(b))
    ensures forall i :: 0 <= i < |b| ==> 1 <= b[i].key <= 32
  {
    if |b| >= 2 {
      forall i | 0 <= i < |b| ensures 1 <= b[i].key <= 32 {
        assert Keys(b)[i] == b[i].key;
      }
    }
  }

  lemma SameSymsDistinct(b: seq<SymFreq>, r: seq<SymFreq>, counts: seq<nat>)
    requires SortedUse(r, counts) && SameSyms(b, r)
    ensures DistinctSyms(b, |counts|)
  {
  }

  method Clear(a: array<nat>)
    modifies a
    ensures forall i :: 0 <= i < a.Length ==> a[i] == 0
  {
    for i := 0 to a.Length
      invariant forall k :: 0 <= k < i ==> a[k] == 0
    {
      a[i] := 0;
    }
  }

  /** Collecting the symbols in use, sorting them and computing their depths. */
  method SymbolDepths(counts: array<nat>) returns (syms: array<SymFreq>, ghost r: seq<SymFreq>)
    requires Sum(counts[..]) < 65536
    ensures fresh(syms) && syms.Length == |r| == |Used(counts[..])| && SortedUse(r, counts[..]) && SameSyms(syms[..], r)
    ensures syms.Length == 1 ==> syms[0].key == 1
    ensures syms.Length >= 2 ==> MinimumRedundancyLengths(Keys(r), Keys(syms[..]))
  {
    hide Used, Sum, StablySorted, SortedUse, MinimumRedundancyLengths, SameSyms;
    var used := CollectUsed(counts);
    var n := |used|;
    var syms0 := new SymFreq[n](i requires 0 <= i < n => used[i]);
    var syms1 := new SymFreq[n](_ => SymFreq(0, 0));
    assert syms0[..n] == used;
    UsedKeys16(counts[..]);
    syms := RadixSortSyms(n, syms0, syms1);
    assert syms[..] == syms[..n];
    r := syms[..];
    SortedIsUse(r, counts[..]);
    SortedReady(r, counts[..]);
    CalculateMinimumRedundancy(syms);
  }

  /** The lengths c, counted by num, are hardly longer than those of the best code. */
  ghost predicate Limited(num: seq<nat>, freqs: seq<nat>, c: seq<nat>) {
    && HistogramOf(num, c, LIMIT) && AllAtLeast(c, 1) && AllAtMost(c, LIMIT) && NearlyBest(freqs, c)
  }

  lemma LimitedMany(num: seq<nat>, freqs: seq<nat>, k: seq<nat>, c: seq<nat>)
    requires MinimumRedundancyLengths(freqs, k) && Assigned(k, c, num) && KSum(c, LIMIT) == Pow2(LIMIT)
    ensures Limited(num, freqs, c)
  {
    hide KSum, Dot, Fib, Lent, Free, Clip, Layered, Count, Pow2, Kraft;
    KSumIsKraft(k, 32);
    AssignedCost(freqs, k, c, num);
    forall m, top | |m| == |freqs| && CodeLens(m, top)
      ensures Dot(freqs, c) <= Dot(freqs, m) + 183 * |freqs|
    {
      assert Dot(freqs, k) <= Dot(freqs, m);
    }
  }

  lemma LimitedFew(num: seq<nat>, freqs: seq<nat>, k: seq<nat>)
    requires |k| == |freqs| <= 1 && (|k| == 1 ==> k[0] == 1) && HistogramOf(num, k, LIMIT)
    ensures Limited(num, freqs, k)
  {
    hide KSum, Count;
    forall m, top | |m| == |freqs| && CodeLens(m, top)
      ensures Dot(freqs, k) <= Dot(freqs, m) + 183 * |freqs|
    {
      if |k| == 1 {
        MulMono(freqs[0], 1, m[0]);
      }
    }
  }

  lemma HistogramPrefix(num: seq<nat>, k: seq<nat>)
    requires HistogramOf(num, k, 32)
    ensures HistogramOf(num, k, LIMIT)
  {
  }

  /**
   The histogram of the depths, limited: as many codes as symbols, a complete code for two or more, and
   lengths hardly longer than the best.
   */
  method LimitedHistogram(syms: array<SymFreq>, limit: nat, ghost freqs: seq<nat>)
    returns (num: array<nat>, ghost c: seq<nat>)
    requires 1 <= limit <= LIMIT && syms.Length <= Pow2(limit) && |freqs| == syms.Length
    requires syms.Length == 1 ==> syms[0].key == 1
    requires syms.Length >= 2 ==> MinimumRedundancyLengths(freqs, Keys(syms[..]))
    ensures fresh(num) && num.Length == 33
    ensures Codes(num[..], limit) == syms.Length
    ensures Total(num[..], limit, limit) == if syms.Length >= 2 then Pow2(limit) else Shl(syms.Length, limit - 1)
    ensures limit == LIMIT && syms.Length <= 288 ==> Limited(num[..], freqs, c)
  {
    hide Codes, Total, MinimumRedundancyLengths, Shl, Limited, Complete, HistogramOf, Assigned, KSum;
    var n := syms.Length;
    LengthsInRange(syms[..], freqs);
    num := LengthHistogram(syms);
    ghost var k := Keys(syms[..]);
    HistogramReady(num[..], k, freqs);
    if n <= 1 {
      SmallHistogram(num[..], n, limit, limit);
      HistogramPrefix(num[..], k);
      LimitedFew(num[..], freqs, k);
    }
    c := EnforceMaxCodeSize(num, n, limit, k);
    if n <= 1 {
      c := k;
    } else if limit == LIMIT && n <= 288 {
      LimitedMany(num[..], freqs, k, c);
    }
  }

  /** The sizes handed out are, in the order of the sorted symbols, the lengths counted. */
  lemma HandedSame(counts: seq<nat>, sizes: seq<nat>, r: seq<SymFreq>, num: seq<nat>, c: seq<nat>)
    requires SortedUse(r, counts) && |sizes| == |counts| && |c| == |r| && HistogramOf(num, sizes, LIMIT)
    requires HistogramOf(num, c, LIMIT)
    requires AllAtLeast(c, 1) && AllAtMost(c, LIMIT) && AllAtMost(sizes, LIMIT)
    requires forall s :: 0 <= s < |counts| ==> (sizes[s] > 0 <==> counts[s] > 0)
    ensures SameLengths(Pick(sizes, r), c)
  {
    hide Used, SumOf, Count, Ascending;
    var y := Pick(sizes, r);
    forall l: nat
      ensures Count(y, l) == Count(c, l)
    {
      if 1 <= l <= LIMIT {
        PickHits(r, sizes, l);
        SumPermutation(r, Used(counts), Hits(sizes, l));
        UsedHits(counts, sizes, l);
        assert sizes[..|counts|] == sizes;
      } else {
        CountFind(y, l);
        CountFind(c, l);
      }
    }
  }

  lemma CostInUse(counts: seq<nat>, w: seq<nat>, r: seq<SymFreq>)
    requires SortedUse(r, counts) && |w| == |counts|
    ensures Dot(counts, w) == Dot(Keys(r), Pick(w, r))
  {
    hide Used, SumOf, Dot, Ascending;
    assert w[..|counts|] == w;
    PickCost(r, w);
    SumPermutation(r, Used(counts), Costs(w));
    UsedCost(counts, w);
  }

  /** What competes for the symbols in use competes for them in sorted order. */
  lemma SortedCompetes(counts: seq<nat>, m: seq<nat>, r: seq<SymFreq>, top: nat)
    requires SortedUse(r, counts) && Competes(m, counts, top)
    ensures |r| == |Used(counts)| && CodeLens(Pick(m, r), top)
  {
    hide Used, SumOf, KSum, Ascending, Pow2;
    var u := Used(counts);
    assert |multiset(r)| == |r| && |multiset(u)| == |u|;
    UsedMembers(counts);
    PickShare(r, m, top);
    PickShare(u, m, top);
    SumPermutation(r, u, Shares(m, top));
    forall i | 0 <= i < |r| ensures 1 <= Pick(m, r)[i] <= top {
      assert r[i] in multiset(r);
      assert r[i] in u;
      var j :| 0 <= j < |u| && u[j] == r[i];
      assert Pick(m, u)[j] == Pick(m, r)[i];
    }
  }

  /** A table whose sizes are those lengths is hardly longer than the best. */
  lemma HandedNearly(counts: seq<nat>, sizes: seq<nat>, r: seq<SymFreq>, b: seq<SymFreq>, num: seq<nat>, c: seq<nat>)
    requires SortedUse(r, counts) && SameSyms(b, r) && Handed(sizes, b, 0, LIMIT) && |sizes| == |counts| >= |r|
    requires Limited(num, Keys(r), c) && HistogramOf(num, sizes, LIMIT)
    requires ValidLens(sizes, LIMIT) && forall s :: 0 <= s < |counts| ==> (sizes[s] > 0 <==> counts[s] > 0)
    ensures NearlyOptimal(counts, sizes)
  {
    hide Dot, KSum, Count, Used, Pow2, CodeLens;
    HandedSame(counts, sizes, r, num, c);
    var y := Pick(sizes, r);
    assert forall i :: 0 <= i < |r| ==> y[i] == sizes[b[i].sym];
    SortedIsBest(Keys(r), y, c);
    CostInUse(counts, sizes, r);
    forall m, top | Competes(m, counts, top)
      ensures Dot(counts, sizes) <= Dot(counts, m) + 183 * |Used(counts)|
    {
      CostInUse(counts, m, r);
      SortedCompetes(counts, m, r, top);
    }
  }

  /**
   The encoder's table construction for a dynamic block. Code words fit sixteen bits because no
   length exceeds the limit.
   */
  method OptimizeHuffmanTable(counts: array<nat>, sizes: array<nat>, codes: array<nat>, limit: nat)
    requires counts.Length == sizes.Length == codes.Length
    requires counts != sizes && counts != codes && sizes != codes
    requires 1 <= limit <= 15 && Sum(counts[..]) < 65536 && |Used(counts[..])| <= Pow2(limit)
    modifies sizes, codes
    ensures TableFor(counts[..], sizes[..], codes[..], limit)
  {
    hide Used, Sum, SortedUse, Codes, Total, Handed, DistinctSyms, Shl, Kraft, MinimumRedundancyLengths, ValidLens,
      SameSyms, HistogramOf, Limited, NearlyOptimal;
    ghost var cs := counts[..];
    var syms;
    ghost var r;
    syms, r := SymbolDepths(counts);
    ghost var b := syms[..];
    var num;
    ghost var c;
    num, c := LimitedHistogram(syms, limit, Keys(r));
    Clear(sizes);
    Clear(codes);
    SameSymsDistinct(b, r, cs);
    HandOut(syms, num, sizes, limit);
    ghost var lens := sizes[..];
    HandedMatches(lens, r, b, cs, limit);
    HandedKraft(num[..], lens, limit);
    HistogramGives(num[..], lens, limit);
    if limit == LIMIT && counts.Length <= 288 {
      UsedBound(cs);
      HandedNearly(cs, lens, r, b, num[..], c);
    }
    ShlZero(limit - 1);
    AssignCodes(num, sizes, codes, limit);
    assert sizes[..] == lens;
  }

  lemma HistogramGives(num: seq<nat>, sizes: seq<nat>, limit: nat)
    requires HistogramOf(num, sizes, limit)
    ensures limit < |num| && forall l :: 1 <= l <= limit ==> num[l] == Count(sizes, l)
  {
  }
}

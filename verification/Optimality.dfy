/**
 Minimum redundancy: no prefix code over the same frequencies has a smaller total length than the
 leaf depths computed by the in-place construction.
 */
module Optimality {
  import opened Arith
  import Canonical
  import opened SymFreqs
  import opened HuffmanTree
  import opened MinRedundancy

  /** The total length of a text in which item i occurs x[i] times and is written with m[i] bits. */
  function Dot(x: seq<nat>, m: seq<nat>): nat
    requires |x| == |m|
  {
    if x == [] then 0 else Dot(x[..|x| - 1], m[..|x| - 1]) + x[|x| - 1] * m[|x| - 1]
  }

  function Share(l: nat, top: nat): nat {
    if l <= top then Pow2(top - l) else 0
  }

  /** The Kraft sum of lengths up to top, in units of 2^-top. */
  function KSum(m: seq<nat>, top: nat): nat {
    if m == [] then 0 else KSum(m[..|m| - 1], top) + Share(m[|m| - 1], top)
  }

  ghost predicate AllAtMost(m: seq<nat>, b: nat) {
    forall i :: 0 <= i < |m| ==> m[i] <= b
  }

  ghost predicate AllAtLeast(m: seq<nat>, b: nat) {
    forall i :: 0 <= i < |m| ==> m[i] >= b
  }

  // ----- sums

  lemma {:induction false} DotConcat(x: seq<nat>, m: seq<nat>, y: seq<nat>, n: seq<nat>)
    requires |x| == |m| && |y| == |n|
    ensures Dot(x + y, m + n) == Dot(x, m) + Dot(y, n)
  {
    if y == [] {
      assert x + y == x && m + n == m;
    } else {
      var k := |y| - 1;
      DotConcat(x, m, y[..k], n[..k]);
      assert (x + y)[..|x + y| - 1] == x + y[..k] && (m + n)[..|x + y| - 1] == m + n[..k];
    }
  }

  lemma {:induction false} KSumConcat(m: seq<nat>, n: seq<nat>, top: nat)
    ensures KSum(m + n, top) == KSum(m, top) + KSum(n, top)
  {
    if n == [] {
      assert m + n == m;
    } else {
      var k := |n| - 1;
      KSumConcat(m, n[..k], top);
      assert (m + n)[..|m + n| - 1] == m + n[..k];
    }
  }

  lemma {:induction false} DotUpdate(x: seq<nat>, m: seq<nat>, i: nat, v: nat)
    requires |x| == |m| && i < |m|
    ensures Dot(x, m[i := v]) + x[i] * m[i] == Dot(x, m) + x[i] * v
  {
    var k := |x| - 1;
    if i == k {
      assert m[i := v][..k] == m[..k];
    } else {
      DotUpdate(x[..k], m[..k], i, v);
      assert m[i := v][..k] == m[..k][i := v];
    }
  }

  lemma {:induction false} KSumUpdate(m: seq<nat>, i: nat, v: nat, top: nat)
    requires i < |m|
    ensures KSum(m[i := v], top) + Share(m[i], top) == KSum(m, top) + Share(v, top)
  {
    var k := |m| - 1;
    if i == k {
      assert m[i := v][..k] == m[..k];
    } else {
      KSumUpdate(m[..k], i, v, top);
      assert m[i := v][..k] == m[..k][i := v];
    }
  }

  // ----- making the two lightest items the deepest

  lemma {:induction false} MaxIndex(m: seq<nat>) returns (i: nat)
    requires m != []
    ensures i < |m| && AllAtMost(m, m[i])
  {
    if |m| == 1 {
      i := 0;
    } else {
      var k := |m| - 1;
      i := MaxIndex(m[..k]);
      if m[i] < m[k] {
        i := k;
      }
    }
  }

  lemma Rearrange(c: nat, x: nat, a: nat, b: nat)
    requires c <= x && a <= b
    ensures c * b + x * a <= c * a + x * b
  {
    assert 0 <= (x - c) * (b - a);
  }

  /** An item no heavier than the rest may take the largest length. */
  lemma Exchange(c: nat, x: seq<nat>, mc: nat, m: seq<nat>, top: nat, bound: nat) returns (mc': nat, m': seq<nat>)
    requires |x| == |m| && AllAtLeast(x, c) && AllAtMost(m, top) && mc <= top && AllAtMost(m, bound)
    ensures |m'| == |m| && AllAtMost(m', mc') && AllAtMost(m', bound) && AllAtMost(m', top) && mc <= mc' <= top
    ensures Share(mc', top) + KSum(m', top) == Share(mc, top) + KSum(m, top)
    ensures c * mc' + Dot(x, m') <= c * mc + Dot(x, m)
  {
    mc', m' := mc, m;
    if m != [] {
      var i := MaxIndex(m);
      if mc < m[i] {
        mc', m' := m[i], m[i := mc];
        DotUpdate(x, m, i, mc);
        KSumUpdate(m, i, mc, top);
        Rearrange(c, x[i], mc, m[i]);
      }
    }
  }

  lemma {:induction false} KSumScale(m: seq<nat>, e: nat, top: nat)
    requires AllAtMost(m, e) && e <= top
    ensures KSum(m, top) == Shl(KSum(m, e), top - e)
  {
    if m == [] {
      ShlZero(top - e);
    } else {
      var k := |m| - 1;
      KSumScale(m[..k], e, top);
      ShlAdd(KSum(m[..k], e), Share(m[k], e), top - e);
      ShlShl(1, e - m[k], top - e);
    }
  }

  /** If all other lengths are at most e, a length beyond e may be shortened to e. */
  lemma Shorten(m: seq<nat>, e: nat, hi: nat, top: nat)
    requires AllAtMost(m, e) && e <= hi <= top
    requires Share(e, top) + Share(hi, top) + KSum(m, top) <= Pow2(top)
    ensures e >= 1 && Share(e - 1, top) + KSum(m, top) <= Pow2(top)
  {
    var k, z := KSum(m, e), top - e;
    assert KSum(m, top) == Shl(k, z) by { KSumScale(m, e, top); }
    assert Pow2(top) == Shl(Pow2(e), z) by { ShlShl(1, e, z); }
    assert Shl(1 + k, z) == Pow2(z) + Shl(k, z) by { ShlAdd(1, k, z); }
    Pow2Mono(0, top - hi);
    if Pow2(e) <= 1 + k {
      ShlMono(Pow2(e), 1 + k, z);
      assert false;
    }
    ShlMono(2 + k, Pow2(e), z);
    ShlAdd(1, 1 + k, z);
    assert Share(e - 1, top) == 2 * Pow2(z);
  }

  /**
   Merging the two lightest items: a code for all of them gives one for the merged items that is
   shorter by at least their weight.
   */
  lemma HuffmanStep(c: nat, d: nat, x: seq<nat>, mc: nat, md: nat, m: seq<nat>, top: nat) returns (e: nat, m': seq<nat>)
    requires |x| == |m| && AllAtLeast(x, c) && AllAtLeast(x, d)
    requires mc <= top && md <= top && AllAtMost(m, top)
    requires Share(mc, top) + Share(md, top) + KSum(m, top) <= Pow2(top)
    ensures 1 <= e <= top && |m'| == |m| && AllAtMost(m', top)
    ensures Share(e - 1, top) + KSum(m', top) <= Pow2(top)
    ensures Dot(x, m') + c * e + d * e <= Dot(x, m) + c * mc + d * md
  {
    var mc1, m1 := Exchange(c, x, mc, m, top, top);
    var md1, m2 := Exchange(d, x, md, m1, top, mc1);
    e, m' := Min(mc1, md1), m2;
    Shorten(m2, e, Max(mc1, md1), top);
    MulMono(c, e, mc1);
    MulMono(d, e, md1);
  }

  lemma MulMono(c: nat, a: nat, b: nat)
    requires a <= b
    ensures c * a <= c * b
  {
  }

  // ----- following the merges: the weights of the internal nodes are a lower bound

  /** The unmerged nodes once q internal nodes exist. */
  function Avail(f: Forest, leaves: seq<nat>, q: nat): seq<nat>
    requires q < |f.r| && f.r[q] <= q <= |f.w| && 0 <= L(f, q) <= |leaves|
  {
    f.w[f.r[q]..q] + leaves[L(f, q)..|leaves|]
  }

  /** Splitting a code for p + q + s + t into one for p + s and one for q + t. */
  lemma Regroup(p: seq<nat>, q: seq<nat>, s: seq<nat>, t: seq<nat>, m: seq<nat>, top: nat)
    returns (u: seq<nat>, v: seq<nat>)
    requires |m| == |p| + |q| + |s| + |t| && AllAtMost(m, top)
    ensures |u| == |p| + |s| && |v| == |q| + |t| && AllAtMost(u, top) && AllAtMost(v, top)
    ensures Dot((p + q) + (s + t), m) == Dot(p + s, u) + Dot(q + t, v)
    ensures KSum(m, top) == KSum(u, top) + KSum(v, top)
  {
    hide Dot, KSum;
    var mp, mq := m[..|p|], m[|p|..|p| + |q|];
    var ms, mt := m[|p| + |q|..|p| + |q| + |s|], m[|p| + |q| + |s|..];
    u, v := mp + ms, mq + mt;
    assert m == (mp + mq) + (ms + mt);
    RegroupDot(p, q, s, t, mp, mq, ms, mt);
    RegroupKSum(mp, mq, ms, mt, top);
  }

  lemma RegroupDot(p: seq<nat>, q: seq<nat>, s: seq<nat>, t: seq<nat>, mp: seq<nat>, mq: seq<nat>, ms: seq<nat>,
                   mt: seq<nat>)
    requires |p| == |mp| && |q| == |mq| && |s| == |ms| && |t| == |mt|
    ensures Dot((p + q) + (s + t), (mp + mq) + (ms + mt)) == Dot(p + s, mp + ms) + Dot(q + t, mq + mt)
  {
    hide Dot;
    DotConcat(p + q, mp + mq, s + t, ms + mt);
    DotConcat(p, mp, q, mq);
    DotConcat(s, ms, t, mt);
    DotConcat(p, mp, s, ms);
    DotConcat(q, mq, t, mt);
  }

  lemma RegroupKSum(mp: seq<nat>, mq: seq<nat>, ms: seq<nat>, mt: seq<nat>, top: nat)
    ensures KSum((mp + mq) + (ms + mt), top) == KSum(mp + ms, top) + KSum(mq + mt, top)
  {
    hide KSum;
    KSumConcat(mp + mq, ms + mt, top);
    KSumConcat(mp, mq, top);
    KSumConcat(ms, mt, top);
    KSumConcat(mp, ms, top);
    KSumConcat(mq, mt, top);
  }

  lemma Pair(x: seq<nat>, m: seq<nat>, top: nat)
    requires |x| == |m| == 2
    ensures Dot(x, m) == x[0] * m[0] + x[1] * m[1]
    ensures KSum(m, top) == Share(m[0], top) + Share(m[1], top)
  {
    assert x == [x[0]] + [x[1]] && m == [m[0]] + [m[1]];
    DotConcat([x[0]], [m[0]], [x[1]], [m[1]]);
    KSumConcat([m[0]], [m[1]], top);
    assert [x[0]][..0] == [] && [x[1]][..0] == [] && [m[0]][..0] == [] && [m[1]][..0] == [];
  }

  /**
   One merge, for queues p + q of internal nodes and s + t of leaves whose fronts p and s hold the two
   lightest items.
   */
  lemma StageStep(p: seq<nat>, q: seq<nat>, s: seq<nat>, t: seq<nat>, m: seq<nat>, wt: nat, bound: nat, top: nat)
    returns (m': seq<nat>)
    requires |p| + |s| == 2 && |m| == 2 + |q| + |t| && AllAtMost(m, top) && KSum(m, top) <= Pow2(top)
    requires AllAtMost(p + s, bound) && AllAtLeast(q + t, bound) && wt == Sum(p) + Sum(s)
    ensures |m'| == |q| + 1 + |t| && AllAtMost(m', top) && KSum(m', top) <= Pow2(top)
    ensures Dot((q + [wt]) + t, m') + wt <= Dot((p + q) + (s + t), m)
  {
    hide Dot, KSum, Share, Sum, Shl;
    var u, v := Regroup(p, q, s, t, m, top);
    var x := p + s;
    Pair(x, u, top);
    var e, w := HuffmanStep(x[0], x[1], q + t, u[0], u[1], v, top);
    var wq, wt' := w[..|q|], w[|q|..];
    m' := (wq + [e - 1]) + wt';
    assert wt == x[0] + x[1] by { SumTwo(p, s); }
    InsertOne(q, t, wq, wt', wt, e - 1, top);
    assert w == wq + wt';
    MergedCost(x[0], x[1], e);
  }

  lemma MergedCost(c: nat, d: nat, e: nat)
    requires e >= 1
    ensures (c + d) * (e - 1) + (c + d) == c * e + d * e
  {
  }

  lemma SumTwo(p: seq<nat>, s: seq<nat>)
    requires |p| + |s| == 2
    ensures Sum(p) + Sum(s) == (p + s)[0] + (p + s)[1]
  {
    if |p| == 2 {
      assert p == [p[0]] + [p[1]];
      SumSnoc([p[0]], p[1]);
    } else if |s| == 2 {
      assert s == [s[0]] + [s[1]];
      SumSnoc([s[0]], s[1]);
    }
  }

  lemma InsertOne(q: seq<nat>, t: seq<nat>, mq: seq<nat>, mt: seq<nat>, x: nat, l: nat, top: nat)
    requires |q| == |mq| && |t| == |mt|
    ensures Dot((q + [x]) + t, (mq + [l]) + mt) == Dot(q + t, mq + mt) + x * l
    ensures KSum((mq + [l]) + mt, top) == KSum(mq + mt, top) + Share(l, top)
  {
    DotConcat(q + [x], mq + [l], t, mt);
    DotConcat(q, mq, [x], [l]);
    DotConcat(q, mq, t, mt);
    assert Dot([x], [l]) == x * l by { assert [x][..0] == [] && [l][..0] == []; }
    KSumConcat(mq + [l], mt, top);
    KSumConcat(mq, [l], top);
    KSumConcat(mq, mt, top);
    assert KSum([l], top) == Share(l, top) by { assert [l][..0] == []; }
  }

  ghost predicate Built(f: Forest, leaves: seq<nat>) {
    Finished(f, |leaves|) && Weights(f) && Ascending(leaves) && Paired(f, leaves) && Smallest(f, leaves)
  }

  lemma AvailSizes(f: Forest, leaves: seq<nat>, q: nat)
    requires Finished(f, |leaves|) && q <= |leaves| - 1
    ensures q < |f.r| && f.r[q] <= q <= |f.w| && 0 <= L(f, q) <= |leaves|
  {
    CutBelow(f, |leaves|, q);
    CutsMono(f, |leaves|, q, |leaves| - 1);
  }

  lemma Slices(s: seq<nat>, a: nat, b: nat, c: nat)
    requires a <= b <= c <= |s|
    ensures s[a..c] == s[a..b] + s[b..c]
  {
  }

  lemma QueuesBound(f: Forest, leaves: seq<nat>, q: nat)
    requires Weights(f) && Ascending(leaves) && SmallestAt(f, leaves, q)
    ensures AllAtMost(f.w[f.r[q]..f.r[q + 1]] + leaves[L(f, q)..L(f, q + 1)], f.mx[q])
    ensures AllAtLeast(f.w[f.r[q + 1]..q] + leaves[L(f, q + 1)..|leaves|], f.mx[q])
  {
    var r, l := f.r[q + 1], L(f, q + 1);
    forall i | r <= i < q ensures f.w[i] >= f.mx[q] {
      assert f.w[i] >= f.w[r];
    }
    forall j | l <= j < |leaves| ensures leaves[j] >= f.mx[q] {
      assert leaves[j] >= leaves[l];
    }
  }

  /** The queues before and after creating node q. */
  lemma Queues(f: Forest, leaves: seq<nat>, q: nat) returns (p1: seq<nat>, p2: seq<nat>, s1: seq<nat>, s2: seq<nat>)
    requires Built(f, leaves) && q < |leaves| - 1
    ensures q + 1 < |f.r| && f.r[q] <= q <= |f.w| && 0 <= L(f, q) <= |leaves|
    ensures f.r[q + 1] <= q + 1 <= |f.w| && 0 <= L(f, q + 1) <= |leaves|
    ensures Avail(f, leaves, q) == (p1 + p2) + (s1 + s2)
    ensures Avail(f, leaves, q + 1) == (p2 + [f.w[q]]) + s2
    ensures |p1| + |s1| == 2 && f.w[q] == Sum(p1) + Sum(s1)
    ensures AllAtMost(p1 + s1, f.mx[q]) && AllAtLeast(p2 + s2, f.mx[q])
  {
    AvailSizes(f, leaves, q);
    AvailSizes(f, leaves, q + 1);
    assert PairAt(f, leaves, q) && SmallestAt(f, leaves, q);
    QueuesBound(f, leaves, q);
    hide Built, Sum, AllAtMost, AllAtLeast, SmallestAt;
    var l1, l2 := L(f, q), L(f, q + 1);
    p1, p2 := f.w[f.r[q]..f.r[q + 1]], f.w[f.r[q + 1]..q];
    s1, s2 := leaves[l1..l2], leaves[l2..|leaves|];
    Slices(f.w, f.r[q], f.r[q + 1], q);
    Slices(leaves, l1, l2, |leaves|);
    assert f.w[f.r[q + 1]..q + 1] == p2 + [f.w[q]] by {
      Slices(f.w, f.r[q + 1], q, q + 1);
    }
    assert f.w[q] == Sum(p1) + Sum(s1);
  }

  /** Any code for the unmerged nodes costs at least the weights of the nodes still to be created. */
  lemma {:induction false} StageBound(f: Forest, leaves: seq<nat>, q: nat, m: seq<nat>, top: nat)
    requires Built(f, leaves) && q <= |leaves| - 1
    requires q < |f.r| && f.r[q] <= q <= |f.w| && 0 <= L(f, q) <= |leaves|
    requires |m| == |Avail(f, leaves, q)| && AllAtMost(m, top) && KSum(m, top) <= Pow2(top)
    ensures Sum(f.w[q..]) <= Dot(Avail(f, leaves, q), m)
    decreases |leaves| - q
  {
    if q >= |leaves| - 1 {
    } else {
      var p1, p2, s1, s2 := Queues(f, leaves, q);
      var m' := StageStep(p1, p2, s1, s2, m, f.w[q], f.mx[q], top);
      StageBound(f, leaves, q + 1, m', top);
      SumDrop(f.w, q);
    }
  }

  lemma LowerBound(f: Forest, leaves: seq<nat>, m: seq<nat>, top: nat)
    requires Built(f, leaves) && |m| == |leaves|
    requires AllAtMost(m, top) && KSum(m, top) <= Pow2(top)
    ensures Sum(f.w) <= Dot(leaves, m)
  {
    assert L(f, 0) == 0;
    assert Avail(f, leaves, 0) == leaves by {
      assert leaves[0..|leaves|] == leaves && f.w[0..0] == [];
    }
    StageBound(f, leaves, 0, m, top);
    assert f.w[0..] == f.w;
  }

  // ----- the computed depths attain the bound

  lemma {:induction false} SumConcat(s: seq<nat>, t: seq<nat>)
    ensures Sum(s + t) == Sum(s) + Sum(t)
  {
    if s == [] {
      assert s + t == t;
    } else {
      SumConcat(s[1..], t);
      assert (s + t)[1..] == s[1..] + t;
    }
  }

  lemma SumSlices(s: seq<nat>, a: nat, b: nat, c: nat)
    requires a <= b <= c <= |s|
    ensures Sum(s[a..c]) == Sum(s[a..b]) + Sum(s[b..c])
  {
    hide Sum;
    Slices(s, a, b, c);
    SumConcat(s[a..b], s[b..c]);
  }

  lemma SumPrefix(s: seq<nat>, a: nat, b: nat)
    requires a <= b <= |s|
    ensures Sum(s[..b]) == Sum(s[..a]) + Sum(s[a..b])
  {
    hide Sum;
    assert s[..b] == s[..a] + s[a..b];
    SumConcat(s[..a], s[a..b]);
  }

  lemma SumEmpty(s: seq<nat>, a: nat)
    requires a <= |s|
    ensures Sum(s[..0]) == 0 && Sum(s[a..a]) == 0
  {
  }

  lemma SumOne(s: seq<nat>, i: nat)
    requires i < |s|
    ensures Sum(s[i..i + 1]) == s[i]
  {
    assert s[i..i + 1] == [s[i]];
    assert [s[i]][1..] == [];
  }

  /** The nodes between two cuts weigh as much as their children. */
  lemma {:induction false} LevelWeight(f: Forest, leaves: seq<nat>, lo: nat, hi: nat)
    requires Built(f, leaves) && lo <= hi <= |f.w|
    ensures f.r[lo] <= f.r[hi] <= |f.w| && 0 <= L(f, lo) <= L(f, hi) <= |leaves|
    ensures Sum(f.w[lo..hi]) == Sum(f.w[f.r[lo]..f.r[hi]]) + Sum(leaves[L(f, lo)..L(f, hi)])
    decreases hi
  {
    hide Sum, Shape, Weights, Smallest, Ascending;
    var n := |leaves|;
    CutsMono(f, n, lo, hi);
    AvailSizes(f, leaves, lo);
    AvailSizes(f, leaves, hi);
    if lo == hi {
      SumEmpty(f.w, lo);
      SumEmpty(f.w, f.r[lo]);
      SumEmpty(leaves, L(f, lo));
    } else {
      var h := hi - 1;
      LevelWeight(f, leaves, lo, h);
      CutsMono(f, n, lo, h);
      CutsMono(f, n, h, hi);
      assert PairAt(f, leaves, h);
      SumSlices(f.w, lo, h, hi);
      SumOne(f.w, h);
      SumSlices(f.w, f.r[lo], f.r[h], f.r[hi]);
      SumSlices(leaves, L(f, lo), L(f, h), L(f, hi));
    }
  }

  lemma {:induction false} DotRun(x: seq<nat>, k: seq<nat>, a: nat, b: nat, d: nat)
    requires |x| == |k| && a <= b <= |k| && forall j :: a <= j < b ==> k[j] == d
    ensures Dot(x[..b], k[..b]) == Dot(x[..a], k[..a]) + d * Sum(x[a..b])
    decreases b
  {
    if a == b {
      assert x[a..b] == [];
    } else {
      var c := b - 1;
      DotRun(x, k, a, c, d);
      assert x[..b][..c] == x[..c] && k[..b][..c] == k[..c];
      SumSlices(x, a, c, b);
      SumOne(x, c);
      assert d * (Sum(x[a..c]) + x[c]) == d * Sum(x[a..c]) + x[c] * d;
    }
  }

  /**
   The leaves below a level weigh as much as the level, and cost the weights of all internal nodes
   below it plus the depth of the level for each.
   */
  lemma {:induction false} CostLevels(leaves: seq<nat>, k: seq<nat>, f: Forest, dep: seq<nat>, d: nat, lo: nat, hi: nat)
    requires Built(f, leaves) && Depths(dep, f, 0) && AtLevel(f, dep, d, lo, hi) && d >= 1
    requires |k| == |leaves| && LeavesFrom(k, f, dep, 0)
    ensures 0 <= L(f, hi) <= |leaves| && Sum(leaves[..L(f, hi)]) == Sum(f.w[lo..hi])
    ensures Dot(leaves[..L(f, hi)], k[..L(f, hi)]) == Sum(f.w[..hi]) + (d - 1) * Sum(leaves[..L(f, hi)])
    decreases lo
  {
    var n, a, b := |leaves|, L(f, lo), L(f, hi);
    LevelLeaves(k, f, dep, n, d, lo, hi);
    LevelWeight(f, leaves, lo, hi);
    assert f.r[hi] == lo;
    if lo == 0 {
      SumEmpty(leaves, a);
      SumEmpty(f.w, 0);
      assert leaves[..a] == [] && k[..a] == [];
    } else {
      CutBelow(f, n, lo);
      NextLevel(f, dep, n, d, lo, hi);
      CostLevels(leaves, k, f, dep, d + 1, f.r[lo], lo);
    }
    hide Sum, Dot, Built, Depths, AtLevel, LeavesFrom;
    DotRun(leaves, k, a, b, d);
    SumPrefix(leaves, a, b);
    SumPrefix(f.w, lo, hi);
    CostArith(d, Sum(leaves[..a]), Sum(leaves[a..b]), Sum(leaves[..b]));
  }

  lemma CostArith(d: nat, x: nat, y: nat, z: nat)
    requires z == x + y && d >= 1
    ensures d * x + d * y == (d - 1) * z + z
  {
  }

  /** No code whose Kraft sum is at most one makes a text with these frequencies shorter. */
  ghost predicate Optimal(x: seq<nat>, k: seq<nat>) {
    && |x| == |k|
    && forall m: seq<nat>, top: nat ::
         |m| == |x| && AllAtMost(m, top) && KSum(m, top) <= Pow2(top) ==> Dot(x, k) <= Dot(x, m)
  }

  lemma TreeIsOptimal(leaves: seq<nat>, k: seq<nat>, f: Forest, dep: seq<nat>)
    requires Built(f, leaves) && Depths(dep, f, 0) && |k| == |leaves| && LeavesFrom(k, f, dep, 0)
    ensures Optimal(leaves, k)
  {
    var n := |leaves|;
    RootLevel(f, dep, n);
    CostLevels(leaves, k, f, dep, 1, n - 2, n - 1);
    assert leaves[..n] == leaves && k[..n] == k && f.w[..n - 1] == f.w;
    forall m: seq<nat>, top: nat | |m| == n && AllAtMost(m, top) && KSum(m, top) <= Pow2(top)
      ensures Dot(leaves, k) <= Dot(leaves, m)
    {
      LowerBound(f, leaves, m, top);
    }
  }

  // ----- the whole construction

  lemma FirstMerge(a: seq<SymFreq>, leaves: seq<nat>)
    requires |a| == |leaves| >= 2 && Ascending(leaves) && AllAtLeast(leaves, 1) && Sum(leaves) < 65536
    requires a[0].key == leaves[0] + leaves[1] && forall i :: 2 <= i < |a| ==> a[i].key == leaves[i]
    ensures Merging(a, Forest([0, 0], [leaves[0] + leaves[1]], [leaves[1]]), 0, 2, leaves)
  {
    hide Sum, PairAt, Conserved;
    var f := Forest([0, 0], [leaves[0] + leaves[1]], [leaves[1]]);
    assert CutAt(f, 0, |a|);
    FirstSums(f, leaves);
    assert SmallestAt(f, leaves, 0);
  }

  lemma FirstSums(f: Forest, leaves: seq<nat>)
    requires |leaves| >= 2 && f == Forest([0, 0], [leaves[0] + leaves[1]], [leaves[1]])
    ensures PairAt(f, leaves, 0) && Conserved(f, 0, 2, leaves, 0)
  {
    assert leaves[0..2] == [leaves[0]] + [leaves[1]] && f.w[0..0] == [] && leaves[0..] == leaves;
    SumSnoc([leaves[0]], leaves[1]);
    SumDrop(leaves, 0);
    SumDrop(leaves, 1);
    assert f.w[0..] == [leaves[0] + leaves[1]];
  }

  lemma MergingBound(a: seq<SymFreq>, f: Forest, root: nat, leaf: nat, leaves: seq<nat>)
    requires Merging(a, f, root, leaf, leaves) && |f.w| == |a| - 1
    ensures Built(f, leaves) && f.w[|a| - 2] < 65536
    ensures forall i :: 0 <= i < |a| - 2 ==> ChildOf(f, i, a[i].key)
  {
    MergingSizes(a, f, root, leaf, leaves);
    SumDrop(f.w, root);
  }

  /**
   What the result array holds: depths of the leaves of an optimal full binary tree, deeper for lighter
   symbols, none deeper than 22.
   */
  ghost predicate MinimumRedundancyLengths(freqs: seq<nat>, k: seq<nat>) {
    && Descending(k) && AllAtMost(k, 22) && AllAtLeast(k, 1)
    && Canonical.Kraft(k, 32) == Pow2(32)
    && Optimal(freqs, k)
    && FibonacciHeavy(freqs, k)
  }

  /** A symbol d levels down is outweighed by all symbols together at least as 1 is by the Fibonacci number after d. */
  ghost predicate FibonacciHeavy(freqs: seq<nat>, k: seq<nat>) {
    |k| == |freqs| && forall j :: 0 <= j < |k| ==> Fib(freqs[j], k[j] + 1) < 65536
  }

  lemma LeafHeavy(leaves: seq<nat>, k: seq<nat>, f: Forest, dep: seq<nat>, j: nat)
    requires Built(f, leaves) && Grows(f) && f.w[|leaves| - 2] < 65536
    requires Depths(dep, f, 0) && |k| == |leaves| && LeavesFrom(k, f, dep, 0) && j < |k|
    ensures Fib(leaves[j], k[j] + 1) < 65536
  {
    var n := |leaves|;
    var p := FindLeafParent(f, n, j, 0, n - 1);
    assert SmallestAt(f, leaves, p);
    FibUp(f, dep, n, p, leaves[j], 1);
  }

  lemma TreeLengths(leaves: seq<nat>, k: seq<nat>, f: Forest, dep: seq<nat>)
    requires Built(f, leaves) && Grows(f) && f.w[|leaves| - 2] < 65536
    requires Depths(dep, f, 0) && |k| == |leaves| && LeavesFrom(k, f, dep, 0)
    ensures MinimumRedundancyLengths(leaves, k)
  {
    var n := |leaves|;
    TreeIsOptimal(leaves, k, f, dep);
    LeavesDescend(k, f, dep);
    forall v | 0 <= v < |dep| ensures dep[v] <= 21 {
      DepthBound(f, dep, n, v);
    }
    KraftOne(k, f, dep, 32);
    forall j | 0 <= j < n ensures 1 <= k[j] <= 22 && Fib(leaves[j], k[j] + 1) < 65536 {
      var p := FindLeafParent(f, n, j, 0, n - 1);
      LeafHeavy(leaves, k, f, dep, j);
    }
  }

  method CalculateMinimumRedundancy(a: array<SymFreq>)
    requires Ascending(Keys(a[..])) && AllAtLeast(Keys(a[..]), 1) && Sum(Keys(a[..])) < 65536
    modifies a
    ensures SameSyms(a[..], old(a[..]))
    ensures a.Length == 1 ==> a[0].key == 1
    ensures a.Length >= 2 ==> MinimumRedundancyLengths(old(Keys(a[..])), Keys(a[..]))
  {
    hide Shape, Weights, Grows, Paired, Smallest, Stored, AtLeast, Conserved, Ascending, Sum, MinimumRedundancyLengths,
      Built, Depths, LeavesFrom, Finished, ChildOf;
    ghost var leaves := Keys(a[..]);
    var n := a.Length;
    if n == 0 {
      return;
    } else if n == 1 {
      a[0] := a[0].(key := 1);
      return;
    }
    a[0] := a[0].(key := (a[0].key + a[1].key) % 65536);
    assert leaves[0] + leaves[1] < 65536 by { FirstTwo(leaves); }
    FirstMerge(a[..], leaves);
    ghost var f := Forest([0, 0], [leaves[0] + leaves[1]], [leaves[1]]);
    var root, leaf := 0, 2;
    for next := 1 to n - 1
      invariant next == |f.w|
      invariant Merging(a[..], f, root, leaf, leaves)
      invariant SameSyms(a[..], old(a[..]))
    {
      root, leaf, f := MergeTwo(a, root, leaf, next, f, leaves);
    }
    MergingBound(a[..], f, root, leaf, leaves);
    BuiltFinished(f, leaves);
    InternalDepths(a, f);
    ghost var dep := Keys(a[..n - 1]);
    LeafDepths(a, f, dep);
    TreeLengths(leaves, Keys(a[..]), f, dep);
  }

  lemma FirstTwo(s: seq<nat>)
    requires |s| >= 2
    ensures s[0] + s[1] <= Sum(s)
  {
    SumDrop(s, 0);
    SumDrop(s, 1);
    assert s[0..] == s;
  }

  lemma BuiltFinished(f: Forest, leaves: seq<nat>)
    requires Built(f, leaves)
    ensures Finished(f, |leaves|)
  {
  }
}

/** The symbol-frequency pairs that the encoder sorts and then overwrites with code lengths. */
module SymFreqs {
  datatype SymFreq = SymFreq(key: nat, sym: nat)

  function Sum(s: seq<nat>): nat {
    if s == [] then 0 else s[0] + Sum(s[1..])
  }

  lemma {:induction false} SumSnoc(s: seq<nat>, x: nat)
    ensures Sum(s + [x]) == Sum(s) + x
  {
    if s == [] {
    } else {
      SumSnoc(s[1..], x);
      assert (s + [x])[1..] == s[1..] + [x];
    }
  }

  lemma SumDrop(s: seq<nat>, i: nat)
    requires i < |s|
    ensures Sum(s[i..]) == s[i] + Sum(s[i + 1..])
  {
    assert s[i..][1..] == s[i + 1..];
  }

  ghost predicate Ascending(s: seq<nat>) {
    forall i, j :: 0 <= i <= j < |s| ==> s[i] <= s[j]
  }

  ghost predicate Descending(s: seq<nat>) {
    forall i, j :: 0 <= i <= j < |s| ==> s[i] >= s[j]
  }

  lemma AscendingSnoc(s: seq<nat>, x: nat)
    requires Ascending(s) && (s == [] || s[|s| - 1] <= x)
    ensures Ascending(s + [x])
  {
  }

  ghost predicate SameSyms(a: seq<SymFreq>, b: seq<SymFreq>) {
    |a| == |b| && forall i :: 0 <= i < |a| ==> a[i].sym == b[i].sym
  }
}

/**
 The in-place minimum-redundancy code construction of Moffat and Katajainen, first phase: the array
 of frequencies becomes an array of parent pointers.
 */
module HuffmanTree {
  import opened SymFreqs

  /**
   The tree under construction. Internal nodes are numbered in order of creation; w gives their
   weights and mx the larger of the two weights merged into them. Leaves and internal nodes are
   both merged in order, so one sequence of cuts gives all parents: the children of node p are the
   internal nodes r[p] up to r[p+1] and the leaves L(p) up to L(p+1).
   */
  datatype Forest = Forest(r: seq<nat>, w: seq<nat>, mx: seq<nat>)

  function L(f: Forest, p: nat): int
    requires p < |f.r|
  {
    2 * p - f.r[p]
  }

  ghost predicate CutAt(f: Forest, p: nat, n: nat) {
    p + 1 < |f.r| && f.r[p] <= f.r[p + 1] <= f.r[p] + 2 && f.r[p + 1] <= p && L(f, p + 1) <= n
  }

  ghost predicate Shape(f: Forest, n: nat) {
    && |f.w| >= 1 && |f.r| == |f.w| + 1 && |f.mx| == |f.w| && f.r[0] == 0
    && forall p :: 0 <= p < |f.w| ==> CutAt(f, p, n)
  }

  ghost predicate ChildOf(f: Forest, i: nat, p: nat) {
    p + 1 < |f.r| && f.r[p] <= i < f.r[p + 1]
  }

  ghost predicate Weights(f: Forest) {
    && |f.mx| == |f.w|
    && Ascending(f.w) && Ascending(f.mx)
    && (forall i :: 0 <= i < |f.w| ==> 1 <= f.mx[i] < f.w[i] <= 2 * f.mx[i])
  }

  /** A merged node's sibling weighs at least as much as the larger of the node's own children. */
  ghost predicate GrowsAt(f: Forest, i: nat, p: nat) {
    i < |f.w| == |f.mx| && p < |f.w| && f.w[p] >= f.w[i] + f.mx[i] && f.mx[p] >= f.w[i]
  }

  ghost predicate Grows(f: Forest) {
    forall i, p :: ChildOf(f, i, p) ==> GrowsAt(f, i, p)
  }

  /** A node weighs as much as its two children. */
  ghost predicate PairAt(f: Forest, leaves: seq<nat>, p: nat) {
    && p + 1 < |f.r| && p < |f.w| && f.r[p] <= f.r[p + 1] <= |f.w| && 0 <= L(f, p) <= L(f, p + 1) <= |leaves|
    && f.w[p] == Sum(f.w[f.r[p]..f.r[p + 1]]) + Sum(leaves[L(f, p)..L(f, p + 1)])
  }

  ghost predicate Paired(f: Forest, leaves: seq<nat>) {
    forall p :: 0 <= p < |f.w| ==> PairAt(f, leaves, p)
  }

  /** The children of a node are the two lightest of the nodes unmerged when it was created. */
  ghost predicate SmallestAt(f: Forest, leaves: seq<nat>, p: nat) {
    && p + 1 < |f.r| && p < |f.w| == |f.mx| && f.r[p] <= f.r[p + 1] <= p && 0 <= L(f, p) <= L(f, p + 1) <= |leaves|
    && (forall i :: f.r[p] <= i < f.r[p + 1] ==> f.w[i] <= f.mx[p])
    && (forall j :: L(f, p) <= j < L(f, p + 1) ==> leaves[j] <= f.mx[p])
    && (f.r[p + 1] < p ==> f.w[f.r[p + 1]] >= f.mx[p])
    && (L(f, p + 1) < |leaves| ==> leaves[L(f, p + 1)] >= f.mx[p])
  }

  ghost predicate Smallest(f: Forest, leaves: seq<nat>) {
    forall p :: 0 <= p < |f.w| ==> SmallestAt(f, leaves, p)
  }

  /**
   The array while node |w| is being created: parents of the merged internal nodes, then weights of
   unmerged ones, then (from leaf on) unmerged leaves.
   */
  ghost predicate Stored(a: seq<SymFreq>, f: Forest, root: nat, leaf: nat, leaves: seq<nat>) {
    && |f.r| == |f.w| + 1 && f.r[|f.w|] <= root <= |f.w| < leaf <= |leaves| == |a|
    && (forall i :: 0 <= i < f.r[|f.w|] ==> ChildOf(f, i, a[i].key))
    && (forall i :: f.r[|f.w|] <= i < root ==> a[i].key == |f.w|)
    && (forall i :: root <= i < |f.w| ==> a[i].key == f.w[i])
    && (forall i :: leaf <= i < |a| ==> a[i].key == leaves[i])
  }

  /** Every node not yet merged weighs at least lb. */
  ghost predicate AtLeast(f: Forest, root: nat, leaf: nat, leaves: seq<nat>, lb: nat) {
    && (forall i :: root <= i < |f.w| ==> f.w[i] >= lb)
    && (forall i :: leaf <= i < |leaves| ==> leaves[i] >= lb)
  }

  /** The unmerged nodes together weigh as much as all leaves, less what is in hand. */
  ghost predicate Conserved(f: Forest, root: nat, leaf: nat, leaves: seq<nat>, hand: nat) {
    && root <= |f.w| && leaf <= |leaves|
    && hand + Sum(f.w[root..]) + Sum(leaves[leaf..]) == Sum(leaves)
  }

  /** Between two merges. */
  ghost predicate Merging(a: seq<SymFreq>, f: Forest, root: nat, leaf: nat, leaves: seq<nat>) {
    && Ascending(leaves) && Sum(leaves) < 65536
    && Shape(f, |a|) && root == f.r[|f.w|] && leaf == L(f, |f.w|)
    && Weights(f) && Grows(f) && Paired(f, leaves) && Smallest(f, leaves)
    && Stored(a, f, root, leaf, leaves)
    && AtLeast(f, root, leaf, leaves, f.mx[|f.w| - 1])
    && Conserved(f, root, leaf, leaves, 0)
  }

  function Lightest(f: Forest, root: nat, leaf: nat, leaves: seq<nat>, internal: bool): nat
    requires if internal then root < |f.w| else leaf < |leaves|
  {
    if internal then f.w[root] else leaves[leaf]
  }

  /**
   The choice made at each of the two tests of the first phase: the smaller weight is added into cell
   next, and an internal node chosen gets next as its parent.
   */
  method TakeLightest(a: array<SymFreq>, root: nat, leaf: nat, next: nat, acc: nat, ghost f: Forest,
                      ghost leaves: seq<nat>, ghost lb: nat)
    returns (root': nat, leaf': nat, ghost v: nat, ghost internal: bool)
    requires Stored(a[..], f, root, leaf, leaves) && AtLeast(f, root, leaf, leaves, lb) && Ascending(leaves)
    requires Ascending(f.w)
    requires next == |f.w| && (root < next || leaf < a.Length)
    modifies a
    ensures if internal then root < |f.w| else leaf < |leaves|
    ensures v == Lightest(f, root, leaf, leaves, internal) >= lb
    ensures acc + v < 65536 ==> a[next].key == acc + v
    ensures root' == (if internal then root + 1 else root) && leaf' == (if internal then leaf else leaf + 1)
    ensures Stored(a[..], f, root', leaf', leaves) && AtLeast(f, root', leaf', leaves, v)
    ensures SameSyms(a[..], old(a[..]))
  {
    root', leaf' := root, leaf;
    if leaf >= a.Length || (root < next && a[root].key < a[leaf].key) {
      internal, v := true, a[root].key;
      a[next] := a[next].(key := (acc + a[root].key) % 65536);
      a[root] := a[root].(key := next);
      root' := root + 1;
    } else {
      internal, v := false, a[leaf].key;
      a[next] := a[next].(key := (acc + a[leaf].key) % 65536);
      leaf' := leaf + 1;
    }
  }

  lemma TakeConserved(f: Forest, root: nat, leaf: nat, leaves: seq<nat>, hand: nat, internal: bool)
    requires Conserved(f, root, leaf, leaves, hand)
    requires if internal then root < |f.w| else leaf < |leaves|
    ensures var v := Lightest(f, root, leaf, leaves, internal);
      && hand + v <= Sum(leaves)
      && Conserved(f, if internal then root + 1 else root, if internal then leaf else leaf + 1, leaves, hand + v)
  {
    hide Sum;
    if internal {
      SumDrop(f.w, root);
    } else {
      SumDrop(leaves, leaf);
    }
  }

  /** The forest after merging two nodes weighing c <= d, the first root' internal nodes then being merged. */
  function Merge(f: Forest, root': nat, c: nat, d: nat): Forest {
    Forest(f.r + [root'], f.w + [c + d], f.mx + [d])
  }

  ghost predicate Taken(f: Forest, leaves: seq<nat>, ci: bool, di: bool, c: nat, d: nat, root': nat)
  {
    && |f.r| == |f.w| + 1
    && var root, leaf := f.r[|f.w|], L(f, |f.w|);
    && 0 <= leaf
    && root' == root + (if ci then 1 else 0) + (if di then 1 else 0) <= |f.w|
    && (if ci then c == f.w[root] else leaf < |leaves| && c == leaves[leaf])
    && var root1, leaf1 := if ci then root + 1 else root, if ci then leaf else leaf + 1;
    && (if di then d == f.w[root1] else leaf1 < |leaves| && d == leaves[leaf1])
  }

  lemma MergeShape(f: Forest, leaves: seq<nat>, ci: bool, di: bool, c: nat, d: nat, root': nat)
    requires Shape(f, |leaves|) && Taken(f, leaves, ci, di, c, d, root')
    ensures Shape(Merge(f, root', c, d), |leaves|)
  {
    var g := Merge(f, root', c, d);
    forall p | 0 <= p < |g.w| ensures CutAt(g, p, |leaves|) {
      assert CutAt(f, if p < |f.w| then p else |f.w| - 1, |leaves|);
    }
  }

  lemma MergeWeights(f: Forest, root': nat, c: nat, d: nat)
    requires f.w != [] && Weights(f)
    requires f.mx[|f.w| - 1] <= c <= d
    ensures Weights(Merge(f, root', c, d))
  {
    AscendingSnoc(f.w, c + d);
    AscendingSnoc(f.mx, d);
  }

  lemma MergeGrowsAt(f: Forest, leaves: seq<nat>, ci: bool, di: bool, c: nat, d: nat, root': nat, i: nat, p: nat)
    requires Shape(f, |leaves|) && Weights(f) && Grows(f) && Taken(f, leaves, ci, di, c, d, root')
    requires f.mx[|f.w| - 1] <= c <= d
    requires ChildOf(Merge(f, root', c, d), i, p)
    ensures GrowsAt(Merge(f, root', c, d), i, p)
  {
    if p < |f.w| {
      assert ChildOf(f, i, p);
      assert CutAt(f, p, |leaves|);
    } else {
      assert f.mx[i] <= f.mx[|f.w| - 1];
    }
  }

  lemma MergeGrows(f: Forest, leaves: seq<nat>, ci: bool, di: bool, c: nat, d: nat, root': nat)
    requires Shape(f, |leaves|) && Weights(f) && Grows(f) && Taken(f, leaves, ci, di, c, d, root')
    requires f.mx[|f.w| - 1] <= c <= d
    ensures Grows(Merge(f, root', c, d))
  {
    hide Shape, Weights, Taken, ChildOf, GrowsAt;
    forall i, p | ChildOf(Merge(f, root', c, d), i, p) ensures GrowsAt(Merge(f, root', c, d), i, p) {
      MergeGrowsAt(f, leaves, ci, di, c, d, root', i, p);
    }
  }

  lemma MergePaired(f: Forest, leaves: seq<nat>, ci: bool, di: bool, c: nat, d: nat, root': nat)
    requires Shape(f, |leaves|) && Paired(f, leaves) && Taken(f, leaves, ci, di, c, d, root')
    ensures Paired(Merge(f, root', c, d), leaves)
  {
    var g := Merge(f, root', c, d);
    forall p | 0 <= p < |g.w| ensures PairAt(g, leaves, p) {
      if p < |f.w| {
        assert PairAt(f, leaves, p);
        assert g.w[g.r[p]..g.r[p + 1]] == f.w[f.r[p]..f.r[p + 1]];
        assert L(g, p) == L(f, p) && L(g, p + 1) == L(f, p + 1);
      } else {
        MergePairedLast(f, leaves, ci, di, c, d, root');
      }
    }
  }

  lemma MergePairedLast(f: Forest, leaves: seq<nat>, ci: bool, di: bool, c: nat, d: nat, root': nat)
    requires Shape(f, |leaves|) && Taken(f, leaves, ci, di, c, d, root')
    ensures PairAt(Merge(f, root', c, d), leaves, |f.w|)
  {
    var g, m := Merge(f, root', c, d), |f.w|;
    assert CutAt(f, m - 1, |leaves|);
    var x, y := g.w[f.r[m]..root'], leaves[L(f, m)..L(g, m + 1)];
    assert Sum([c, d]) == c + d by {
      SumSnoc([c], d);
      assert [c] + [d] == [c, d];
    }
    if ci && di {
      assert x == [c, d] && y == [];
    } else if ci {
      assert x == [c] && y == [d];
    } else if di {
      assert x == [d] && y == [c];
    } else {
      assert x == [] && y == [c, d];
    }
  }

  lemma MergeSmallest(f: Forest, leaves: seq<nat>, ci: bool, di: bool, c: nat, d: nat, root': nat, leaf': nat)
    requires Shape(f, |leaves|) && Smallest(f, leaves) && Taken(f, leaves, ci, di, c, d, root') && c <= d
    requires leaf' == 2 * (|f.w| + 1) - root' && AtLeast(f, root', leaf', leaves, d)
    ensures Smallest(Merge(f, root', c, d), leaves)
  {
    var g, m := Merge(f, root', c, d), |f.w|;
    forall p | 0 <= p < |g.w| ensures SmallestAt(g, leaves, p) {
      if p < m {
        assert SmallestAt(f, leaves, p);
        assert L(g, p) == L(f, p) && L(g, p + 1) == L(f, p + 1);
      } else {
        assert CutAt(f, m - 1, |leaves|);
      }
    }
  }

  lemma MergeConserved(f: Forest, root': nat, leaf': nat, leaves: seq<nat>, c: nat, d: nat)
    requires Conserved(f, root', leaf', leaves, c + d)
    ensures Conserved(Merge(f, root', c, d), root', leaf', leaves, 0)
  {
    var g := Merge(f, root', c, d);
    assert g.w[root'..] == f.w[root'..] + [c + d];
    SumSnoc(f.w[root'..], c + d);
  }

  lemma MergeStored(a: seq<SymFreq>, f: Forest, root': nat, leaf': nat, leaves: seq<nat>, c: nat, d: nat)
    requires Shape(f, |a|) && leaf' == 2 * (|f.w| + 1) - root'
    requires Stored(a, f, root', leaf', leaves) && AtLeast(f, root', leaf', leaves, d)
    requires a[|f.w|].key == c + d && |f.w| + 1 < |a|
    ensures Stored(a, Merge(f, root', c, d), root', leaf', leaves)
    ensures AtLeast(Merge(f, root', c, d), root', leaf', leaves, d)
  {
    var g := Merge(f, root', c, d);
    forall i | 0 <= i < root' ensures ChildOf(g, i, a[i].key) {
      if i < f.r[|f.w|] {
        assert ChildOf(f, i, a[i].key);
      }
    }
  }

  /** The sizes behind the predicates. */
  lemma MergingSizes(a: seq<SymFreq>, f: Forest, root: nat, leaf: nat, leaves: seq<nat>)
    requires Merging(a, f, root, leaf, leaves)
    ensures |f.w| >= 1 && |f.mx| == |f.w| && |f.r| == |f.w| + 1 && root < |f.w| < leaf <= |leaves| == |a|
    ensures root == f.r[|f.w|] && root + leaf == 2 * |f.w|
    ensures Ascending(f.w)
  {
    assert CutAt(f, |f.w| - 1, |a|);
  }

  /** What the two choices establish is what the next round needs. */
  lemma MergeDone(before: seq<SymFreq>, a: seq<SymFreq>, f: Forest, root: nat, leaf: nat, root': nat, leaf': nat,
                  leaves: seq<nat>, ci: bool, di: bool, c: nat, d: nat)
    requires Merging(before, f, root, leaf, leaves) && |a| == |before|
    requires f.mx[|f.w| - 1] <= c <= d
    requires Taken(f, leaves, ci, di, c, d, root') && leaf' == 2 * (|f.w| + 1) - root'
    requires Stored(a, f, root', leaf', leaves) && AtLeast(f, root', leaf', leaves, d)
    requires Conserved(f, root', leaf', leaves, c + d)
    requires a[|f.w|].key == c + d && |f.w| + 1 < |a|
    ensures Merging(a, Merge(f, root', c, d), root', leaf', leaves)
  {
    MergingSizes(before, f, root, leaf, leaves);
    MergeShape(f, leaves, ci, di, c, d, root');
    MergeWeights(f, root', c, d);
    MergeGrows(f, leaves, ci, di, c, d, root');
    MergePaired(f, leaves, ci, di, c, d, root');
    MergeSmallest(f, leaves, ci, di, c, d, root', leaf');
    MergeConserved(f, root', leaf', leaves, c, d);
    MergeStored(a, f, root', leaf', leaves, c, d);
  }

  /** One round of the first phase: the two lightest nodes are merged into internal node next; keys are 16 bits wide. */
  method MergeTwo(a: array<SymFreq>, root: nat, leaf: nat, next: nat, ghost f: Forest, ghost leaves: seq<nat>)
    returns (root': nat, leaf': nat, ghost f': Forest)
    requires Merging(a[..], f, root, leaf, leaves)
    requires next == |f.w| && next + 1 < a.Length
    modifies a
    ensures Merging(a[..], f', root', leaf', leaves)
    ensures next + 1 == |f'.w|
    ensures SameSyms(a[..], old(a[..]))
  {
    hide Shape, Weights, Grows, Paired, Smallest, Stored, AtLeast, Conserved, Ascending, Sum;
    ghost var c, d, ci, di;
    ghost var before := a[..];
    MergingSizes(before, f, root, leaf, leaves);
    root', leaf', c, ci := TakeLightest(a, root, leaf, next, 0, f, leaves, f.mx[next - 1]);
    TakeConserved(f, root, leaf, leaves, 0, ci);
    ghost var root1, leaf1 := root', leaf';
    root', leaf', d, di := TakeLightest(a, root', leaf', next, a[next].key, f, leaves, c);
    TakeConserved(f, root1, leaf1, leaves, c, di);
    f' := Merge(f, root', c, d);
    MergeDone(before, a[..], f, root, leaf, root', leaf', leaves, ci, di, c, d);
  }
}

/**
 The second and third phases: parent pointers become the depths of internal nodes, and these become
 the depths of the leaves.
 */
module MinRedundancy {
  import opened Arith
  import opened Canonical
  import opened SymFreqs
  import opened HuffmanTree

  /** A finished tree over n leaves: everything but the root, node n - 2, has been merged. */
  ghost predicate Finished(f: Forest, n: nat) {
    n >= 2 && Shape(f, n) && |f.w| == n - 1 && f.r[n - 1] == n - 2
  }

  lemma {:induction false} CutsMono(f: Forest, n: nat, p: nat, q: nat)
    requires Shape(f, n) && p <= q <= |f.w|
    ensures f.r[p] <= f.r[q] && L(f, p) <= L(f, q)
    decreases q
  {
    if p >= q {
    } else {
      CutsMono(f, n, p, q - 1);
      assert CutAt(f, q - 1, n);
    }
  }

  lemma CutBelow(f: Forest, n: nat, p: nat)
    requires Shape(f, n) && p <= |f.w|
    ensures 0 <= L(f, p) && (p > 0 ==> f.r[p] < p)
  {
    if p > 0 {
      assert CutAt(f, p - 1, n);
    }
  }

  lemma ParentUnique(f: Forest, n: nat, i: nat, p: nat, q: nat)
    requires Shape(f, n) && ChildOf(f, i, p) && ChildOf(f, i, q)
    ensures p == q
  {
    if p < q {
      CutsMono(f, n, p + 1, q);
    } else if q < p {
      CutsMono(f, n, q + 1, p);
    }
  }

  /** Every internal node merged between two cuts has its parent between them. */
  lemma {:induction false} FindParent(f: Forest, n: nat, i: nat, lo: nat, hi: nat) returns (p: nat)
    requires Shape(f, n) && lo <= hi <= |f.w| && f.r[lo] <= i < f.r[hi]
    ensures lo <= p < hi && ChildOf(f, i, p)
    decreases hi
  {
    if f.r[hi - 1] <= i {
      p := hi - 1;
    } else {
      p := FindParent(f, n, i, lo, hi - 1);
    }
  }

  /** The depths of the internal nodes from lo on, the root being the last. */
  ghost predicate Depths(dep: seq<nat>, f: Forest, lo: nat) {
    && |dep| == |f.w| >= 1 && dep[|f.w| - 1] == 0
    && forall i: nat, p: nat :: lo <= i && ChildOf(f, i, p) ==> i < |dep| && p < |dep| && dep[i] == dep[p] + 1
  }

  function Keys(a: seq<SymFreq>): (k: seq<nat>)
    ensures |k| == |a| && forall i :: 0 <= i < |a| ==> k[i] == a[i].key
  {
    seq(|a|, i requires 0 <= i < |a| => a[i].key)
  }

  /** The array in the second phase: parents up to next, depths beyond. */
  ghost predicate Descended(a: seq<SymFreq>, f: Forest, next: int) {
    && Finished(f, |a|) && -1 <= next <= |a| - 3
    && (forall i :: 0 <= i <= next ==> ChildOf(f, i, a[i].key))
    && Depths(Keys(a[..|a| - 1]), f, next + 1)
  }

  lemma DescendStart(a: seq<SymFreq>, f: Forest)
    requires Finished(f, |a|) && a[|a| - 2].key == 0
    requires forall i :: 0 <= i < |a| - 2 ==> ChildOf(f, i, a[i].key)
    ensures Descended(a, f, |a| - 3)
  {
    var n := |a|;
    forall i: nat, p: nat | n - 2 <= i && ChildOf(f, i, p) ensures false {
      CutsMono(f, n, p + 1, n - 1);
    }
  }

  lemma DescendStep(a: seq<SymFreq>, f: Forest, next: nat)
    requires Descended(a, f, next)
    ensures next < a[next].key < |a| - 1
    ensures Descended(a[next := a[next].(key := a[a[next].key].key + 1)], f, next - 1)
  {
    var n, p := |a|, a[next].key;
    assert ChildOf(f, next, p);
    CutBelow(f, n, p + 1);
    var dep, b := Keys(a[..n - 1]), a[next := a[next].(key := a[p].key + 1)];
    assert Keys(b[..n - 1]) == dep[next := dep[p] + 1];
    DepthsStep(dep, f, n, next, p);
  }

  lemma DepthsStep(dep: seq<nat>, f: Forest, n: nat, i: nat, p: nat)
    requires Finished(f, n) && Depths(dep, f, i + 1) && ChildOf(f, i, p) && i < p < |dep|
    ensures Depths(dep[i := dep[p] + 1], f, i)
  {
    var d := dep[i := dep[p] + 1];
    forall j: nat, q: nat | i <= j && ChildOf(f, j, q)
      ensures j < |dep| && q < |dep| && d[j] == d[q] + 1
    {
      CutBelow(f, n, q + 1);
      if j == i {
        ParentUnique(f, n, i, p, q);
      }
    }
  }

  /** Second phase: top down, each parent pointer is replaced by a depth. */
  method InternalDepths(a: array<SymFreq>, ghost f: Forest)
    requires Finished(f, a.Length)
    requires forall i :: 0 <= i < a.Length - 2 ==> ChildOf(f, i, a[i].key)
    modifies a
    ensures Depths(Keys(a[..a.Length - 1]), f, 0)
    ensures SameSyms(a[..], old(a[..]))
  {
    hide Depths, Keys, ChildOf, Shape;
    var n := a.Length;
    a[n - 2] := a[n - 2].(key := 0);
    var next := n - 3;
    DescendStart(a[..], f);
    while next >= 0
      invariant Descended(a[..], f, next)
      invariant SameSyms(a[..], old(a[..]))
    {
      DescendStep(a[..], f, next);
      ghost var before := a[..];
      a[next] := a[next].(key := a[a[next].key].key + 1);
      assert a[..] == before[next := a[next]];
      next := next - 1;
    }
  }

  // ----- levels of the finished tree

  ghost predicate LeafOf(f: Forest, j: nat, p: nat) {
    p + 1 < |f.r| && L(f, p) <= j < L(f, p + 1)
  }

  /** Internal nodes lo up to hi are those at depth d - 1, and their internal children end at lo. */
  ghost predicate AtLevel(f: Forest, dep: seq<nat>, d: nat, lo: nat, hi: nat) {
    && lo <= hi <= |f.w| == |dep| && |f.r| == |f.w| + 1 && f.r[hi] == lo
    && (forall i :: lo <= i < hi ==> dep[i] + 1 == d)
    && (forall i :: 0 <= i < lo ==> dep[i] >= d)
  }

  lemma RootLevel(f: Forest, dep: seq<nat>, n: nat)
    requires Finished(f, n) && Depths(dep, f, 0)
    ensures AtLevel(f, dep, 1, n - 2, n - 1)
  {
    forall i | 0 <= i < n - 2 ensures dep[i] >= 1 {
      var p := FindParent(f, n, i, 0, n - 1);
    }
  }

  lemma NextLevel(f: Forest, dep: seq<nat>, n: nat, d: nat, lo: nat, hi: nat)
    requires Finished(f, n) && Depths(dep, f, 0) && AtLevel(f, dep, d, lo, hi)
    ensures f.r[lo] <= lo && AtLevel(f, dep, d + 1, f.r[lo], lo)
  {
    CutBelow(f, n, lo);
    forall i | 0 <= i < lo ensures if i < f.r[lo] then dep[i] >= d + 1 else dep[i] == d {
      if i < f.r[lo] {
        var p := FindParent(f, n, i, 0, lo);
      } else {
        var p := FindParent(f, n, i, lo, hi);
      }
    }
  }

  /** The leaves from lo on hold their depths, one more than their parents'. */
  ghost predicate LeavesFrom(k: seq<nat>, f: Forest, dep: seq<nat>, lo: nat) {
    forall j: nat, p: nat :: lo <= j && LeafOf(f, j, p) ==> j < |k| && p < |dep| && k[j] == dep[p] + 1
  }

  /**
   The array at the top of the third phase's loop: depths of unread internal nodes below lo, depths of
   finished leaves from end on.
   */
  ghost predicate Filling(a: seq<SymFreq>, f: Forest, dep: seq<nat>, lo: nat, end: nat) {
    && lo <= end <= |a| && lo <= |dep|
    && (forall i :: 0 <= i < lo ==> a[i].key == dep[i])
    && LeavesFrom(Keys(a), f, dep, end)
  }

  /** Filling the cells between two cuts with d finishes the leaves between them. */
  lemma FillStep(a: seq<SymFreq>, b: seq<SymFreq>, f: Forest, dep: seq<nat>, d: nat, lo: nat, hi: nat)
    requires Finished(f, |a|) && AtLevel(f, dep, d, lo, hi) && |a| == |b|
    requires Filling(a, f, dep, lo, L(f, hi))
    requires 0 <= L(f, lo) <= L(f, hi)
    requires forall i :: L(f, lo) <= i < L(f, hi) ==> b[i].key == d
    requires forall i :: 0 <= i < |a| && !(L(f, lo) <= i < L(f, hi)) ==> b[i] == a[i]
    ensures f.r[lo] <= L(f, lo) && Filling(b, f, dep, f.r[lo], L(f, lo))
  {
    var n := |a|;
    CutBelow(f, n, lo);
    forall j: nat, p: nat | L(f, lo) <= j && LeafOf(f, j, p)
      ensures j < |a| && p < |dep| && Keys(b)[j] == dep[p] + 1
    {
      CutsMono(f, n, p + 1, |f.w|);
      if j < L(f, hi) {
        LeafParentBetween(f, n, j, p, lo, hi);
      }
    }
  }

  lemma LeafParentBetween(f: Forest, n: nat, j: nat, p: nat, lo: nat, hi: nat)
    requires Shape(f, n) && LeafOf(f, j, p) && lo <= hi <= |f.w| && L(f, lo) <= j < L(f, hi)
    ensures lo <= p < hi
  {
    if p < lo {
      CutsMono(f, n, p + 1, lo);
    } else if hi <= p {
      CutsMono(f, n, hi, p);
    }
  }

  /** The third phase's first inner loop: how many internal nodes, from root down, have depth dpth. */
  method CountLevel(a: array<SymFreq>, root: int, dpth: nat) returns (used: nat, root': int)
    requires -1 <= root < a.Length
    ensures -1 <= root' == root - used
    ensures forall i :: root' < i <= root ==> a[i].key == dpth
    ensures root' >= 0 ==> a[root'].key != dpth
  {
    used, root' := 0, root;
    while root' >= 0 && a[root'].key == dpth
      invariant -1 <= root' == root - used
      invariant forall i :: root' < i <= root ==> a[i].key == dpth
    {
      used := used + 1;
      root' := root' - 1;
    }
  }

  /** The third phase's second inner loop: avbl - used leaves of depth dpth, written downwards from next. */
  method FillLevel(a: array<SymFreq>, next: int, avbl: nat, used: nat, dpth: nat) returns (next': int)
    requires used <= avbl && -1 <= next - (avbl - used) && next < a.Length
    modifies a
    ensures next' == next - (avbl - used)
    ensures forall i :: next' < i <= next ==> a[i] == old(a[i]).(key := dpth)
    ensures forall i :: 0 <= i < a.Length && !(next' < i <= next) ==> a[i] == old(a[i])
  {
    next' := next;
    var av := avbl;
    while av > used
      invariant used <= av <= avbl && next' == next - (avbl - av)
      invariant forall i :: next' < i <= next ==> a[i] == old(a[i]).(key := dpth)
      invariant forall i :: 0 <= i < a.Length && !(next' < i <= next) ==> a[i] == old(a[i])
    {
      a[next'] := a[next'].(key := dpth);
      next' := next' - 1;
      av := av - 1;
    }
  }

  /** The state of the third phase at the top of its loop; the first round, at depth 0, only meets the root. */
  ghost predicate Round(a: seq<SymFreq>, f: Forest, dep: seq<nat>, d: nat, root: int, next: int, avbl: int, lo: nat,
                        hi: nat) {
    && |dep| == |f.w|
    && if d == 0 then
         lo == hi == |a| - 1 && root == lo - 1 && next == |a| - 1 && avbl == 1 && Filling(a, f, dep, lo, |a|)
       else
         AtLevel(f, dep, d, lo, hi) && root == lo - 1 && avbl == 2 * (hi - lo)
         && 0 <= L(f, hi) == next + 1 && Filling(a, f, dep, lo, L(f, hi))
  }

  /** How many internal nodes the first inner loop meets. */
  lemma RoundCount(a: seq<SymFreq>, f: Forest, dep: seq<nat>, d: nat, root: int, next: int, avbl: int, lo: nat, hi: nat,
                   root': int)
    requires Finished(f, |a|) && Depths(dep, f, 0) && Round(a, f, dep, d, root, next, avbl, lo, hi)
    requires -1 <= root' <= root < |a| && (root' >= 0 ==> a[root'].key != d)
    requires forall i :: root' < i <= root ==> a[i].key == d
    ensures root' + 1 == (if d == 0 then |a| - 2 else f.r[lo])
  {
    var n := |a|;
    if d == 0 {
      RootLevel(f, dep, n);
      assert root' >= 0 ==> a[root'].key == dep[root'];
      assert root' < root ==> a[root' + 1].key == dep[root' + 1];
    } else {
      NextLevel(f, dep, n, d, lo, hi);
      assert root' >= 0 ==> a[root'].key == dep[root'];
      assert root' < root ==> a[root' + 1].key == dep[root' + 1];
    }
  }

  /** After the second inner loop the next round can start. */
  lemma RoundStep(a: seq<SymFreq>, b: seq<SymFreq>, f: Forest, dep: seq<nat>, d: nat, root: int, next: int, avbl: int,
                  lo: nat, hi: nat, used: nat, next': int)
    requires Finished(f, |a|) && Depths(dep, f, 0) && Round(a, f, dep, d, root, next, avbl, lo, hi)
    requires root - used + 1 == (if d == 0 then |a| - 2 else f.r[lo])
    requires used <= avbl && next' == next - (avbl - used) && |b| == |a|
    requires forall i :: next' < i <= next ==> b[i] == a[i].(key := d)
    requires forall i :: 0 <= i < |a| && !(next' < i <= next) ==> b[i] == a[i]
    ensures Round(b, f, dep, d + 1, root - used, next', 2 * used, root - used + 1, lo)
  {
    var n := |a|;
    if d == 0 {
      RootLevel(f, dep, n);
      assert b == a;
    } else {
      NextLevel(f, dep, n, d, lo, hi);
      CutsMono(f, n, lo, hi);
      CutBelow(f, n, lo);
      FillStep(a, b, f, dep, d, lo, hi);
    }
  }

  /** A level has at most twice as many internal nodes as the one above. */
  lemma RoundRoom(a: seq<SymFreq>, f: Forest, dep: seq<nat>, d: nat, root: int, next: int, avbl: int, lo: nat, hi: nat,
                  used: nat)
    requires Finished(f, |a|) && Round(a, f, dep, d, root, next, avbl, lo, hi)
    requires root - used + 1 == (if d == 0 then |a| - 2 else f.r[lo])
    ensures used <= avbl && -1 <= next - (avbl - used) && next < |a|
  {
    if d != 0 {
      CutsMono(f, |a|, lo, hi);
      CutsMono(f, |a|, hi, |f.w|);
      CutBelow(f, |a|, lo);
    }
  }

  lemma RoundStart(a: seq<SymFreq>, f: Forest, dep: seq<nat>)
    requires Finished(f, |a|) && |dep| == |f.w| && forall i :: 0 <= i < |a| - 1 ==> a[i].key == dep[i]
    ensures Round(a, f, dep, 0, |a| - 2, |a| - 1, 1, |a| - 1, |a| - 1)
  {
    forall j: nat, p: nat | LeafOf(f, j, p) ensures j < |a| {
      CutsMono(f, |a|, p + 1, |f.w|);
    }
  }

  lemma RoundEnd(a: seq<SymFreq>, f: Forest, dep: seq<nat>, d: nat, root: int, next: int, lo: nat, hi: nat)
    requires Finished(f, |a|) && Round(a, f, dep, d, root, next, 0, lo, hi)
    ensures LeavesFrom(Keys(a), f, dep, 0)
  {
    CutBelow(f, |a|, lo);
  }

  /** Third phase: level by level from the root, the depths of internal nodes are replaced by the depths of leaves. */
  method LeafDepths(a: array<SymFreq>, ghost f: Forest, ghost dep: seq<nat>)
    requires Finished(f, a.Length) && Depths(dep, f, 0)
    requires forall i :: 0 <= i < a.Length - 1 ==> a[i].key == dep[i]
    modifies a
    ensures LeavesFrom(Keys(a[..]), f, dep, 0)
    ensures SameSyms(a[..], old(a[..]))
  {
    hide Shape, ChildOf, Round, LeavesFrom, Keys;
    var avbl, dpth := 1, 0;
    var root, next := a.Length - 2, a.Length - 1;
    ghost var lo: nat, hi: nat := a.Length - 1, a.Length - 1;
    RoundStart(a[..], f, dep);
    while avbl > 0
      invariant -1 <= root < a.Length && 0 <= avbl
      invariant Round(a[..], f, dep, dpth, root, next, avbl, lo, hi)
      invariant SameSyms(a[..], old(a[..]))
      decreases root, avbl
    {
      ghost var before := a[..];
      var used, root' := CountLevel(a, root, dpth);
      RoundCount(a[..], f, dep, dpth, root, next, avbl, lo, hi, root');
      RoundRoom(a[..], f, dep, dpth, root, next, avbl, lo, hi, used);
      var next' := FillLevel(a, next, avbl, used, dpth);
      RoundStep(before, a[..], f, dep, dpth, root, next, avbl, lo, hi, used, next');
      lo, hi := root' + 1, lo;
      root, next := root', next';
      avbl := 2 * used;
      dpth := dpth + 1;
    }
    RoundEnd(a[..], f, dep, dpth, root, next, lo, hi);
  }

  // ----- the Fibonacci bound on depths

  /** The Fibonacci numbers, times x. */
  function Fib(x: nat, n: nat): nat {
    if n == 0 then 0 else if n == 1 then x else Fib(x, n - 1) + Fib(x, n - 2)
  }

  /** Going up the tree from a node, weights grow at least as the Fibonacci numbers do. */
  lemma {:induction false} FibUp(f: Forest, dep: seq<nat>, n: nat, v: nat, x: nat, k: nat)
    requires Finished(f, n) && Grows(f) && Depths(dep, f, 0) && v < n - 1
    requires f.w[v] >= Fib(x, k + 1) && f.mx[v] >= Fib(x, k)
    ensures f.w[n - 2] >= Fib(x, k + 1 + dep[v])
    decreases n - v
  {
    if v >= n - 2 {
    } else {
      var p := FindParent(f, n, v, 0, n - 1);
      CutBelow(f, n, p + 1);
      assert GrowsAt(f, v, p);
      FibUp(f, dep, n, p, x, k + 1);
    }
  }

  lemma {:induction false} FibMono(x: nat, m: nat, n: nat)
    requires m <= n
    ensures Fib(x, m) <= Fib(x, n)
    decreases n
  {
    if m >= n {
    } else {
      FibMono(x, m, n - 1);
    }
  }

  lemma SmallFibs()
    ensures Fib(1, 2) == 1 && Fib(1, 3) == 2 && Fib(1, 25) == 75025
  {
    assert Fib(1, 10) == 55 && Fib(1, 11) == 89;
    assert Fib(1, 15) == 610 && Fib(1, 16) == 987;
    assert Fib(1, 20) == 6765 && Fib(1, 21) == 10946;
  }

  /** With counts that sum to less than 2^16 no internal node is deeper than 21, so no leaf is deeper than 22. */
  lemma DepthBound(f: Forest, dep: seq<nat>, n: nat, v: nat)
    requires Finished(f, n) && Weights(f) && Grows(f) && Depths(dep, f, 0) && v < n - 1
    requires f.w[n - 2] < 65536
    ensures dep[v] <= 21
  {
    hide Fib, Grows;
    assert 1 <= f.mx[v] < f.w[v];
    SmallFibs();
    FibUp(f, dep, n, v, 1, 2);
    if dep[v] >= 22 {
      FibMono(1, 25, 3 + dep[v]);
    }
  }

  // ----- the Kraft sum of the leaf depths

  lemma {:induction false} FindLeafParent(f: Forest, n: nat, j: nat, lo: nat, hi: nat) returns (p: nat)
    requires Shape(f, n) && lo <= hi <= |f.w| && L(f, lo) <= j < L(f, hi)
    ensures lo <= p < hi && LeafOf(f, j, p)
    decreases hi
  {
    if L(f, hi - 1) <= j {
      p := hi - 1;
    } else {
      p := FindLeafParent(f, n, j, lo, hi - 1);
    }
  }

  lemma {:induction false} KraftRun(k: seq<nat>, x: nat, y: nat, d: nat, top: nat)
    requires x <= y <= |k| && 1 <= d <= top && forall j :: x <= j < y ==> k[j] == d
    ensures Kraft(k[..y], top) == Kraft(k[..x], top) + Shl(y - x, top - d)
    decreases y
  {
    if x == y {
      ShlZero(top - d);
    } else {
      KraftRun(k, x, y - 1, d, top);
      assert k[..y][..y - 1] == k[..y - 1];
      ShlAdd(y - 1 - x, 1, top - d);
    }
  }

  lemma LevelLeaves(k: seq<nat>, f: Forest, dep: seq<nat>, n: nat, d: nat, lo: nat, hi: nat)
    requires Finished(f, n) && AtLevel(f, dep, d, lo, hi) && LeavesFrom(k, f, dep, 0) && |k| == n
    ensures 0 <= L(f, lo) <= L(f, hi) <= n && forall j :: L(f, lo) <= j < L(f, hi) ==> k[j] == d
  {
    CutBelow(f, n, lo);
    CutsMono(f, n, lo, hi);
    CutsMono(f, n, hi, n - 1);
    forall j | L(f, lo) <= j < L(f, hi) ensures k[j] == d {
      var p := FindLeafParent(f, n, j, lo, hi);
    }
  }

  /** The leaves below a level fill exactly the room its nodes leave. */
  lemma {:induction false} KraftLevels(k: seq<nat>, f: Forest, dep: seq<nat>, n: nat, d: nat, lo: nat, hi: nat,
                                       top: nat)
    requires Finished(f, n) && Depths(dep, f, 0) && AtLevel(f, dep, d, lo, hi) && LeavesFrom(k, f, dep, 0) && |k| == n
    requires 1 <= d <= top && forall i :: 0 <= i < |dep| ==> dep[i] < top
    ensures 0 <= L(f, hi) <= n && Kraft(k[..L(f, hi)], top) == Shl(2 * (hi - lo), top - d)
    decreases lo
  {
    hide LeavesFrom;
    LevelLeaves(k, f, dep, n, d, lo, hi);
    KraftRun(k, L(f, lo), L(f, hi), d, top);
    if lo == 0 {
      assert k[..0] == [];
    } else {
      CutBelow(f, n, lo);
      assert Shl(lo - f.r[lo], 1) == 2 * (lo - f.r[lo]);
      hide Kraft, Shl;
      NextLevel(f, dep, n, d, lo, hi);
      assert dep[lo - 1] >= d;
      KraftLevels(k, f, dep, n, d + 1, f.r[lo], lo, top);
      ShlAdd(lo - f.r[lo], L(f, hi) - L(f, lo), top - d);
      ShlShl(lo - f.r[lo], 1, top - d - 1);
    }
  }

  lemma KraftOne(k: seq<nat>, f: Forest, dep: seq<nat>, top: nat)
    requires Finished(f, |k|) && Depths(dep, f, 0) && LeavesFrom(k, f, dep, 0)
    requires forall i :: 0 <= i < |dep| ==> dep[i] < top
    ensures Kraft(k, top) == Pow2(top)
  {
    var n := |k|;
    RootLevel(f, dep, n);
    KraftLevels(k, f, dep, n, 1, n - 2, n - 1, top);
    assert k[..L(f, n - 1)] == k;
    ShlShl(1, 1, top - 1);
  }

  // ----- lighter leaves are at least as deep

  lemma {:induction false} DepthsDescend(f: Forest, dep: seq<nat>, n: nat, i: nat, j: nat)
    requires Finished(f, n) && Depths(dep, f, 0) && i <= j < n - 1
    ensures dep[i] >= dep[j]
    decreases n - i
  {
    if j >= n - 2 {
    } else {
      var p := FindParent(f, n, i, 0, n - 1);
      var q := FindParent(f, n, j, 0, n - 1);
      CutBelow(f, n, p + 1);
      if q < p {
        CutsMono(f, n, q + 1, p);
      }
      DepthsDescend(f, dep, n, p, q);
    }
  }

  lemma LeavesDescend(k: seq<nat>, f: Forest, dep: seq<nat>)
    requires Finished(f, |k|) && Depths(dep, f, 0) && LeavesFrom(k, f, dep, 0)
    ensures Descending(k)
  {
    var n := |k|;
    forall i, j | 0 <= i <= j < n ensures k[i] >= k[j] {
      var p := FindLeafParent(f, n, i, 0, n - 1);
      var q := FindLeafParent(f, n, j, 0, n - 1);
      if q < p {
        CutsMono(f, n, q + 1, p);
      }
      DepthsDescend(f, dep, n, p, q);
    }
  }
}

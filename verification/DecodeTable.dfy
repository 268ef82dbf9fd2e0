/**
 The inflater's decoding tables: an array indexed by the next ten bits of input, and a binary tree for
 longer codes whose nodes are referred to by negative numbers.
 */
module DecodeTable {
  import opened Arith
  import opened Bits
  import opened Canonical

  const FAST_BITS: nat := 10
  const FAST_SIZE: nat := 1024
  const TREE_SIZE: nat := 576

  /** Prefixes of code words that lead into the tree, numbered in order of allocation. */
  type Nodes = map<seq<bool>, nat>

  /** How the tables refer to node k. */
  function Ref(k: nat): int {
    -1 - 2 * k
  }

  ghost predicate Coded(lens: seq<nat>) {
    ValidLens(lens, MAX_BITS) && Kraft(lens, MAX_BITS) <= Pow2(MAX_BITS)
  }

  /** A proper prefix, of at least ten bits, of the code word of symbol s. */
  ghost predicate InnerOf(lens: seq<nat>, p: seq<bool>, s: nat) {
    s < |lens| && FAST_BITS <= |p| < lens[s] && CodeWord(lens, s)[..|p|] == p
  }

  ghost predicate Inner(lens: seq<nat>, p: seq<bool>) {
    exists s: nat :: InnerOf(lens, p, s)
  }

  ghost predicate NodesOK(nodes: Nodes, count: nat, lens: seq<nat>) {
    && |nodes| == count
    && (forall p :: p in nodes ==> nodes[p] < count && Inner(lens, p))
    && (forall p, q :: p in nodes && q in nodes && nodes[p] == nodes[q] ==> p == q)
    && (forall p {:trigger ParentIn(nodes, p)} :: p in nodes ==> ParentIn(nodes, p))
  }

  ghost predicate ParentIn(nodes: Nodes, p: seq<bool>) {
    |p| > FAST_BITS ==> p[..|p| - 1] in nodes
  }

  /** Symbol s, one of the first k, has a short code word that begins b. */
  ghost predicate ShortFor(lens: seq<nat>, k: nat, s: nat, b: seq<bool>) {
    s < k && s < |lens| && 0 < lens[s] <= FAST_BITS && CodeWord(lens, s) <= b
  }

  /** The entry for the ten bits b once the first k symbols are entered. */
  ghost predicate LookAt(lk: seq<int>, nodes: Nodes, lens: seq<nat>, k: nat, b: seq<bool>) {
    && FromBits(b) < |lk|
    && (b in nodes ==> lk[FromBits(b)] == Ref(nodes[b]))
    && (forall s: nat :: ShortFor(lens, k, s, b) ==> lk[FromBits(b)] == 512 * lens[s] + s)
    && (b !in nodes && (forall s: nat :: !ShortFor(lens, k, s, b)) ==> lk[FromBits(b)] == 0)
  }

  /** Symbol s, one of the first k, has code word q. */
  ghost predicate LeafFor(lens: seq<nat>, k: nat, s: nat, q: seq<bool>) {
    s < k && s < |lens| && CodeWord(lens, s) == q
  }

  function Slot(nodes: Nodes, p: seq<bool>, x: bool): nat
    requires p in nodes
  {
    2 * nodes[p] + if x then 1 else 0
  }

  /** The child of node p on bit x. */
  ghost predicate TreeAt(tr: seq<int>, nodes: Nodes, lens: seq<nat>, k: nat, p: seq<bool>, x: bool) {
    && p in nodes && Slot(nodes, p, x) < |tr|
    && (p + [x] in nodes ==> tr[Slot(nodes, p, x)] == Ref(nodes[p + [x]]))
    && (forall s: nat :: LeafFor(lens, k, s, p + [x]) ==> tr[Slot(nodes, p, x)] == s)
    && (p + [x] !in nodes && (forall s: nat :: !LeafFor(lens, k, s, p + [x])) ==> tr[Slot(nodes, p, x)] == 0)
  }

  /** Every proper prefix of at least ten bits of an entered code word is a node. */
  ghost predicate Entered(nodes: Nodes, lens: seq<nat>, k: nat) {
    forall p, s: nat :: s < k && InnerOf(lens, p, s) ==> p in nodes
  }

  /** The tables once the first k symbols are entered, with count nodes allocated. */
  ghost predicate Table(lk: seq<int>, tr: seq<int>, nodes: Nodes, count: nat, lens: seq<nat>, k: nat) {
    && |lk| == FAST_SIZE && |tr| == TREE_SIZE && NodesOK(nodes, count, lens)
    && Entered(nodes, lens, k)
    && (forall b: seq<bool> :: |b| == FAST_BITS ==> LookAt(lk, nodes, lens, k, b))
    && (forall p, x :: p in nodes ==> TreeAt(tr, nodes, lens, k, p, x))
    && (forall i :: 2 * count <= i < |tr| ==> tr[i] == 0)
  }

  // ----- prefix-freeness in the form used here

  lemma NoOtherPrefix(lens: seq<nat>, s: nat, t: nat, b: seq<bool>)
    requires Coded(lens) && s < |lens| && t < |lens| && lens[s] > 0 && lens[t] > 0
    requires CodeWord(lens, s) <= b && (CodeWord(lens, t) <= b || b <= CodeWord(lens, t))
    ensures s == t
  {
    hide CodeWord, Kraft;
    if s != t {
      PrefixFree(lens, s, t, MAX_BITS);
      PrefixFree(lens, t, s, MAX_BITS);
    }
  }

  /** A node's prefix is never extended from, nor does it extend, the code word of a symbol that is not below it. */
  lemma InnerNotCode(lens: seq<nat>, p: seq<bool>, s: nat)
    requires Coded(lens) && Inner(lens, p) && s < |lens| && lens[s] > 0
    ensures !(CodeWord(lens, s) <= p)
  {
    if CodeWord(lens, s) <= p {
      var t :| InnerOf(lens, p, t);
      assert p <= CodeWord(lens, t);
      NoOtherPrefix(lens, s, t, p);
    }
  }

  // ----- entering one symbol

  /** Symbol k has no short code word: the ten-bit entries stand. */
  lemma LookNext(lk: seq<int>, nodes: Nodes, lens: seq<nat>, k: nat, b: seq<bool>)
    requires LookAt(lk, nodes, lens, k, b) && k < |lens| && !(0 < lens[k] <= FAST_BITS)
    ensures LookAt(lk, nodes, lens, k + 1, b)
  {
    var k' := k + 1;
    assert forall s: nat :: ShortFor(lens, k', s, b) <==> ShortFor(lens, k, s, b);
  }

  /** Symbol k does not have this code word: the tree entry stands. */
  lemma TreeNext(tr: seq<int>, nodes: Nodes, lens: seq<nat>, k: nat, p: seq<bool>, x: bool)
    requires TreeAt(tr, nodes, lens, k, p, x) && k < |lens| && CodeWord(lens, k) != p + [x]
    ensures TreeAt(tr, nodes, lens, k + 1, p, x)
  {
    var q, k' := p + [x], k + 1;
    assert forall s: nat :: LeafFor(lens, k', s, q) <==> LeafFor(lens, k, s, q);
  }

  lemma EnteredNext(nodes: Nodes, lens: seq<nat>, k: nat)
    requires Entered(nodes, lens, k) && k < |lens|
    requires forall d :: FAST_BITS <= d < lens[k] ==> CodeWord(lens, k)[..d] in nodes
    ensures Entered(nodes, lens, k + 1)
  {
    forall q, s: nat | s < k + 1 && InnerOf(lens, q, s) ensures q in nodes {
      if s == k {
        assert CodeWord(lens, k)[..|q|] in nodes;
      }
    }
  }

  lemma SkipUnused(lk: seq<int>, tr: seq<int>, nodes: Nodes, count: nat, lens: seq<nat>, k: nat)
    requires Table(lk, tr, nodes, count, lens, k) && k < |lens| && lens[k] == 0
    ensures Table(lk, tr, nodes, count, lens, k + 1)
  {
    hide LookAt, TreeAt, NodesOK, Entered, CodeWord;
    var k' := k + 1;
    EnteredNext(nodes, lens, k);
    forall b: seq<bool> | |b| == FAST_BITS ensures LookAt(lk, nodes, lens, k', b) {
      LookNext(lk, nodes, lens, k, b);
    }
    forall p, x | p in nodes ensures TreeAt(tr, nodes, lens, k', p, x) {
      TreeNext(tr, nodes, lens, k, p, x);
    }
  }

  lemma EnterShortLook(lk: seq<int>, lk': seq<int>, nodes: Nodes, lens: seq<nat>, k: nat, b: seq<bool>)
    requires Coded(lens) && k < |lens| && 0 < lens[k] <= FAST_BITS && |b| == FAST_BITS
    requires LookAt(lk, nodes, lens, k, b) && (b in nodes ==> Inner(lens, b)) && |lk'| == |lk|
    requires lk'[FromBits(b)] == if CodeWord(lens, k) <= b then 512 * lens[k] + k else lk[FromBits(b)]
    ensures LookAt(lk', nodes, lens, k + 1, b)
  {
    hide Coded, Inner, CodeWord;
    var k' := k + 1;
    if CodeWord(lens, k) <= b {
      if b in nodes {
        InnerNotCode(lens, b, k);
      }
      forall s: nat | ShortFor(lens, k', s, b) ensures s == k {
        NoOtherPrefix(lens, s, k, b);
      }
      assert ShortFor(lens, k', k, b);
    } else {
      assert forall s: nat :: ShortFor(lens, k', s, b) <==> ShortFor(lens, k, s, b);
    }
  }

  ghost predicate Overlaid(lk: seq<int>, lk': seq<int>, w: seq<bool>, v: int, b: seq<bool>) {
    FromBits(b) < |lk| == |lk'| && lk'[FromBits(b)] == if w <= b then v else lk[FromBits(b)]
  }

  lemma EnterShort(lk: seq<int>, lk': seq<int>, tr: seq<int>, nodes: Nodes, count: nat, lens: seq<nat>, k: nat)
    requires Coded(lens) && Table(lk, tr, nodes, count, lens, k) && k < |lens| && 0 < lens[k] <= FAST_BITS
    requires |lk'| == |lk|
    requires forall b: seq<bool> :: |b| == FAST_BITS ==> Overlaid(lk, lk', CodeWord(lens, k), 512 * lens[k] + k, b)
    ensures Table(lk', tr, nodes, count, lens, k + 1)
  {
    NodesInner(nodes, count, lens);
    hide LookAt, TreeAt, NodesOK, Entered, Inner, Coded, CodeWord;
    var k' := k + 1;
    EnteredNext(nodes, lens, k);
    forall b: seq<bool> | |b| == FAST_BITS ensures LookAt(lk', nodes, lens, k', b) {
      assert LookAt(lk, nodes, lens, k, b) && Overlaid(lk, lk', CodeWord(lens, k), 512 * lens[k] + k, b);
      EnterShortLook(lk, lk', nodes, lens, k, b);
    }
    forall p, x | p in nodes ensures TreeAt(tr, nodes, lens, k', p, x) {
      NodeLength(lens, p);
      TreeNext(tr, nodes, lens, k, p, x);
    }
  }

  lemma NodeLength(lens: seq<nat>, p: seq<bool>)
    requires Inner(lens, p)
    ensures |p| >= FAST_BITS && (ValidLens(lens, MAX_BITS) ==> |p| < MAX_BITS)
  {
    var s: nat :| InnerOf(lens, p, s);
  }

  lemma NodesInner(nodes: Nodes, count: nat, lens: seq<nat>)
    requires NodesOK(nodes, count, lens)
    ensures forall p :: p in nodes ==> nodes[p] < count && Inner(lens, p)
  {
  }

  // ----- allocating a node

  lemma AddNode(nodes: Nodes, count: nat, lens: seq<nat>, q: seq<bool>)
    requires NodesOK(nodes, count, lens) && q !in nodes && Inner(lens, q) && ParentIn(nodes, q)
    ensures NodesOK(nodes[q := count], count + 1, lens)
  {
    hide Inner;
    var nodes' := nodes[q := count];
    forall p | p in nodes' ensures ParentIn(nodes', p) {
      assert p != q ==> ParentIn(nodes, p);
    }
  }

  /** The children of a new node are empty: nothing entered so far lies below it. */
  lemma NewNodeEmpty(tr: seq<int>, nodes: Nodes, count: nat, lens: seq<nat>, k: nat, q: seq<bool>, x: bool)
    requires NodesOK(nodes, count, lens) && Entered(nodes, lens, k) && q !in nodes && FAST_BITS <= |q|
    requires 2 * count + 1 < |tr| && tr[2 * count] == 0 && tr[2 * count + 1] == 0
    ensures TreeAt(tr, nodes[q := count], lens, k, q, x)
  {
    hide Inner, CodeWord;
    var r := q + [x];
    assert r[..|r| - 1] == q;
    assert r !in nodes by {
      assert r in nodes ==> ParentIn(nodes, r);
    }
    forall s: nat | LeafFor(lens, k, s, r) ensures false {
      LeafInner(lens, k, s, q, x);
    }
  }

  lemma LeafInner(lens: seq<nat>, k: nat, s: nat, q: seq<bool>, x: bool)
    requires LeafFor(lens, k, s, q + [x]) && FAST_BITS <= |q|
    ensures InnerOf(lens, q, s)
  {
  }

  lemma AllocLookAt(lk: seq<int>, nodes: Nodes, count: nat, lens: seq<nat>, k: nat, b: seq<bool>, c: seq<bool>)
    requires Coded(lens) && |b| == |c| == FAST_BITS && Inner(lens, b)
    requires LookAt(lk, nodes, lens, k, c) && FromBits(b) < |lk|
    ensures LookAt(lk[FromBits(b) := Ref(count)], nodes[b := count], lens, k, c)
  {
    hide Coded, Inner, CodeWord, FromBits;
    if c == b {
      forall s: nat | ShortFor(lens, k, s, b) ensures false {
        InnerNotCode(lens, b, s);
      }
    } else if FromBits(b) == FromBits(c) {
      FromBitsInjective(b, c);
    }
  }

  lemma AllocLook(lk: seq<int>, tr: seq<int>, nodes: Nodes, count: nat, lens: seq<nat>, k: nat, b: seq<bool>)
    requires Coded(lens) && Table(lk, tr, nodes, count, lens, k) && |b| == FAST_BITS && b !in nodes && Inner(lens, b)
    requires 2 * count + 1 < TREE_SIZE && FromBits(b) < |lk|
    ensures Table(lk[FromBits(b) := Ref(count)], tr, nodes[b := count], count + 1, lens, k)
  {
    NodesInner(nodes, count, lens);
    hide LookAt, TreeAt, NodesOK, Inner, Coded, CodeWord, FromBits;
    var nodes', lk' := nodes[b := count], lk[FromBits(b) := Ref(count)];
    AddNode(nodes, count, lens, b);
    forall c: seq<bool> | |c| == FAST_BITS ensures LookAt(lk', nodes', lens, k, c) {
      AllocLookAt(lk, nodes, count, lens, k, b, c);
    }
    forall p, x | p in nodes' ensures TreeAt(tr, nodes', lens, k, p, x) {
      if p == b {
        NewNodeEmpty(tr, nodes, count, lens, k, b, x);
      } else {
        NodeLength(lens, p);
        TreeOther(tr, nodes, count, lens, k, b, p, x);
      }
    }
  }

  lemma TreeOther(tr: seq<int>, nodes: Nodes, count: nat, lens: seq<nat>, k: nat, q: seq<bool>, p: seq<bool>, x: bool)
    requires p != q && p + [x] != q && TreeAt(tr, nodes, lens, k, p, x)
    ensures TreeAt(tr, nodes[q := count], lens, k, p, x)
  {
    hide LeafFor;
    assert nodes[q := count][p] == nodes[p];
    assert p + [x] in nodes[q := count] <==> p + [x] in nodes;
  }

  lemma SnocInjective(p: seq<bool>, x: bool, p': seq<bool>, x': bool)
    requires p + [x] == p' + [x']
    ensures p == p' && x == x'
  {
    assert (p + [x])[..|p + [x]| - 1] == p && (p' + [x'])[..|p' + [x']| - 1] == p';
    assert (p + [x])[|p + [x]| - 1] == x && (p' + [x'])[|p' + [x']| - 1] == x';
  }

  /** Writing one slot of the tree leaves the others. */
  lemma TreeUpdate(tr: seq<int>, nodes: Nodes, count: nat, lens: seq<nat>, k: nat, p: seq<bool>, x: bool, v: int,
                   p': seq<bool>, x': bool)
    requires NodesOK(nodes, count, lens) && p in nodes && p' in nodes && (p', x') != (p, x)
    requires TreeAt(tr, nodes, lens, k, p', x') && Slot(nodes, p, x) < |tr|
    ensures TreeAt(tr[Slot(nodes, p, x) := v], nodes, lens, k, p', x') && p' + [x'] != p + [x]
  {
    hide Inner, LeafFor;
    assert Slot(nodes, p', x') != Slot(nodes, p, x);
    if p' + [x'] == p + [x] {
      SnocInjective(p', x', p, x);
    }
  }

  lemma AllocTreeHere(tr: seq<int>, nodes: Nodes, count: nat, lens: seq<nat>, k: nat, p: seq<bool>, x: bool)
    requires Coded(lens) && p in nodes && Inner(lens, p + [x]) && Slot(nodes, p, x) < |tr|
    ensures TreeAt(tr[Slot(nodes, p, x) := Ref(count)], nodes[p + [x] := count], lens, k, p, x)
  {
    hide Coded, Inner, CodeWord;
    var q := p + [x];
    forall s: nat | LeafFor(lens, k, s, q) ensures false {
      InnerNotCode(lens, q, s);
    }
    assert nodes[q := count][p] == nodes[p];
  }

  lemma AllocTree(lk: seq<int>, tr: seq<int>, nodes: Nodes, count: nat, lens: seq<nat>, k: nat, p: seq<bool>, x: bool)
    requires Coded(lens) && Table(lk, tr, nodes, count, lens, k) && p in nodes && p + [x] !in nodes
    requires Inner(lens, p + [x])
    requires 2 * count + 1 < TREE_SIZE
    ensures Slot(nodes, p, x) < |tr|
    ensures Table(lk, tr[Slot(nodes, p, x) := Ref(count)], nodes[p + [x] := count], count + 1, lens, k)
  {
    NodesInner(nodes, count, lens);
    hide LookAt, TreeAt, NodesOK, Inner, Coded, CodeWord, FromBits;
    var q := p + [x];
    var nodes', tr' := nodes[q := count], tr[Slot(nodes, p, x) := Ref(count)];
    assert q[..|q| - 1] == p;
    AddNode(nodes, count, lens, q);
    NodeLength(lens, p);
    forall b: seq<bool> | |b| == FAST_BITS ensures LookAt(lk, nodes', lens, k, b) {
      LookOther(lk, nodes, count, lens, k, b, q);
    }
    forall p', x' | p' in nodes' ensures TreeAt(tr', nodes', lens, k, p', x') {
      if p' == q {
        NewNodeEmpty(tr', nodes, count, lens, k, q, x');
      } else if (p', x') == (p, x) {
        AllocTreeHere(tr, nodes, count, lens, k, p, x);
      } else {
        TreeUpdate(tr, nodes, count, lens, k, p, x, Ref(count), p', x');
        TreeOther(tr', nodes, count, lens, k, q, p', x');
      }
    }
  }

  lemma LookOther(lk: seq<int>, nodes: Nodes, count: nat, lens: seq<nat>, k: nat, b: seq<bool>, q: seq<bool>)
    requires LookAt(lk, nodes, lens, k, b) && b != q
    ensures LookAt(lk, nodes[q := count], lens, k, b)
  {
  }

  // ----- entering a long code word

  lemma EnterLeafHere(tr: seq<int>, nodes: Nodes, lens: seq<nat>, k: nat, p: seq<bool>, x: bool)
    requires Coded(lens) && k < |lens| && lens[k] > 0 && p in nodes && CodeWord(lens, k) == p + [x]
    requires Slot(nodes, p, x) < |tr|
    requires p + [x] in nodes ==> Inner(lens, p + [x])
    ensures TreeAt(tr[Slot(nodes, p, x) := k], nodes, lens, k + 1, p, x)
  {
    hide Coded, Inner, CodeWord;
    var q, k' := p + [x], k + 1;
    if q in nodes {
      InnerNotCode(lens, q, k);
    }
    forall s: nat | LeafFor(lens, k', s, q) ensures s == k {
      NoOtherPrefix(lens, s, k, q);
    }
    assert LeafFor(lens, k', k, q);
  }

  lemma EnterLeaf(lk: seq<int>, tr: seq<int>, nodes: Nodes, count: nat, lens: seq<nat>, k: nat, p: seq<bool>, x: bool)
    requires Coded(lens) && Table(lk, tr, nodes, count, lens, k) && k < |lens| && lens[k] > FAST_BITS
    requires p in nodes && CodeWord(lens, k) == p + [x]
    requires forall d :: FAST_BITS <= d < lens[k] ==> CodeWord(lens, k)[..d] in nodes
    ensures Slot(nodes, p, x) < |tr| && Table(lk, tr[Slot(nodes, p, x) := k], nodes, count, lens, k + 1)
  {
    NodesInner(nodes, count, lens);
    assert TreeAt(tr, nodes, lens, k, p, x);
    assert Slot(nodes, p, x) < |tr|;
    hide LookAt, TreeAt, NodesOK, Inner, Coded, CodeWord, Entered;
    var tr', k' := tr[Slot(nodes, p, x) := k], k + 1;
    EnteredNext(nodes, lens, k);
    forall b: seq<bool> | |b| == FAST_BITS ensures LookAt(lk, nodes, lens, k', b) {
      LookNext(lk, nodes, lens, k, b);
    }
    forall p', x' | p' in nodes ensures TreeAt(tr', nodes, lens, k', p', x') {
      if (p', x') == (p, x) {
        EnterLeafHere(tr, nodes, lens, k, p, x);
      } else {
        TreeUpdate(tr, nodes, count, lens, k, p, x, k, p', x');
        TreeNext(tr', nodes, lens, k, p', x');
      }
    }
  }

  // ----- the tree array is large enough

  /** How many symbols have lengths from e to 15. */
  function CountFrom(lens: seq<nat>, e: nat): nat
    decreases MAX_BITS + 1 - e
  {
    if e > MAX_BITS then 0 else Count(lens, e) + CountFrom(lens, e + 1)
  }

  lemma {:induction false} CountFromSnoc(lens: seq<nat>, x: nat, e: nat)
    ensures CountFrom(lens + [x], e) == CountFrom(lens, e) + if e <= x <= MAX_BITS then 1 else 0
    decreases MAX_BITS + 1 - e
  {
    if e > MAX_BITS {
    } else {
      CountFromSnoc(lens, x, e + 1);
      assert (lens + [x])[..|lens + [x]| - 1] == lens;
    }
  }

  lemma {:induction false} CountFromBound(lens: seq<nat>, e: nat)
    ensures CountFrom(lens, e) <= |lens|
  {
    if lens == [] {
      CountFromEmpty(e);
    } else {
      var n := |lens| - 1;
      CountFromBound(lens[..n], e);
      CountFromSnoc(lens[..n], lens[n], e);
      assert lens == lens[..n] + [lens[n]];
    }
  }

  lemma {:induction false} CountFromEmpty(e: nat)
    ensures CountFrom([], e) == 0
    decreases MAX_BITS + 1 - e
  {
    if e > MAX_BITS {
    } else {
      CountFromEmpty(e + 1);
    }
  }

  /** The strings of d bits that are neither code words nor begin with one: those left for longer codes. */
  function Room(lens: seq<nat>, d: nat): int {
    Pow2(d) - First(lens, d) - Count(lens, d)
  }

  function RoomFrom(lens: seq<nat>, e: nat): int
    decreases MAX_BITS - e
  {
    if e >= MAX_BITS then 0 else Room(lens, e) + RoomFrom(lens, e + 1)
  }

  /** In a complete code there are fewer such strings, over all lengths, than longer codes. */
  lemma {:induction false} RoomSum(lens: seq<nat>, e: nat)
    requires 1 <= e <= MAX_BITS && Room(lens, MAX_BITS) == 0
    ensures RoomFrom(lens, e) + Room(lens, e) == CountFrom(lens, e + 1)
    decreases MAX_BITS - e
  {
    if e >= MAX_BITS {
    } else {
      RoomSum(lens, e + 1);
      assert Room(lens, e + 1) == 2 * Room(lens, e) - Count(lens, e + 1);
    }
  }

  function Strings(d: nat, lo: nat, hi: nat): set<seq<bool>> {
    if hi <= lo then {} else Strings(d, lo, hi - 1) + {MsbBits(hi - 1, d)}
  }

  lemma {:induction false} StringsSize(d: nat, lo: nat, hi: nat)
    requires lo <= hi
    ensures |Strings(d, lo, hi)| <= hi - lo
    decreases hi
  {
    if lo >= hi {
    } else {
      StringsSize(d, lo, hi - 1);
    }
  }

  lemma {:induction false} StringsMember(d: nat, lo: nat, hi: nat, v: nat)
    requires lo <= v < hi
    ensures MsbBits(v, d) in Strings(d, lo, hi)
    decreases hi
  {
    if v >= hi - 1 {
    } else {
      StringsMember(d, lo, hi - 1, v);
    }
  }

  /** All possible tree nodes of lengths e to 14. */
  function InnerFrom(lens: seq<nat>, e: nat): set<seq<bool>>
    decreases MAX_BITS - e
  {
    if e >= MAX_BITS then {}
    else Strings(e, First(lens, e) + Count(lens, e), Pow2(e)) + InnerFrom(lens, e + 1)
  }

  lemma {:induction false} InnerFromSize(lens: seq<nat>, e: nat)
    requires 1 <= e && Kraft(lens, MAX_BITS) <= Pow2(MAX_BITS)
    ensures |InnerFrom(lens, e)| <= RoomFrom(lens, e)
    decreases MAX_BITS - e
  {
    hide Shl, First, Count, Strings, Kraft;
    if e >= MAX_BITS {
    } else {
      InnerFromSize(lens, e + 1);
      LastCodeFits(lens, e, MAX_BITS);
      StringsSize(e, First(lens, e) + Count(lens, e), Pow2(e));
      UnionSize(Strings(e, First(lens, e) + Count(lens, e), Pow2(e)), InnerFrom(lens, e + 1));
    }
  }

  lemma UnionSize(a: set<seq<bool>>, b: set<seq<bool>>)
    ensures |a + b| <= |a| + |b|
  {
    assert |a + b| + |a * b| == |a| + |b|;
  }

  lemma {:induction false} InnerFromMember(lens: seq<nat>, e: nat, d: nat, p: seq<bool>)
    requires e <= d < MAX_BITS && p in Strings(d, First(lens, d) + Count(lens, d), Pow2(d))
    ensures p in InnerFrom(lens, e)
    decreases d - e
  {
    hide Strings, First, Count, Shl;
    if e >= d {
    } else {
      InnerFromMember(lens, e + 1, d, p);
    }
  }

  /** The leading d bits of a longer code word, as a number. */
  lemma InnerValue(lens: seq<nat>, s: nat, d: nat)
    requires Coded(lens) && s < |lens| && 1 <= d < lens[s]
    ensures First(lens, d) + Count(lens, d) <= Shr(Code(lens, s), lens[s] - d) < Pow2(d)
    ensures CodeWord(lens, s)[..d] == MsbBits(Shr(Code(lens, s), lens[s] - d), d)
  {
    hide Kraft, First, Count, Shr, Shl, MsbBits, Code;
    var l, c := lens[s], Code(lens, s);
    assert Pow2(l) == Shl(1, l);
    MsbPrefix(c, l, d);
    CodeFits(lens, s, MAX_BITS);
    ShrLess(c, l - d, l);
    FirstGrows(lens, d, l);
    CodeInRange(lens, s);
    ShrAtLeast(c, l - d, First(lens, d) + Count(lens, d));
  }

  lemma InnerIsMember(lens: seq<nat>, p: seq<bool>)
    requires Coded(lens) && Inner(lens, p)
    ensures p in InnerFrom(lens, FAST_BITS)
  {
    hide Shl, Shr, First, Count, Strings, MsbBits, InnerFrom, Code, Kraft;
    var s: nat :| InnerOf(lens, p, s);
    var d := |p|;
    InnerValue(lens, s, d);
    StringsMember(d, First(lens, d) + Count(lens, d), Pow2(d), Shr(Code(lens, s), lens[s] - d));
    InnerFromMember(lens, FAST_BITS, d, p);
  }

  /** The decoder's test of a set of code lengths: complete, or at most one symbol in use. */
  ghost predicate Accepted(lens: seq<nat>) {
    && ValidLens(lens, MAX_BITS)
    && (Kraft(lens, MAX_BITS) == Pow2(MAX_BITS) || CountFrom(lens, 1) <= 1)
  }

  lemma SubsetSize(a: set<seq<bool>>, b: set<seq<bool>>)
    requires a <= b
    ensures |a| <= |b|
  {
    assert b == a + (b - a);
  }

  lemma NoRoomLeft(lens: seq<nat>)
    requires Coded(lens) && Kraft(lens, MAX_BITS) == Pow2(MAX_BITS)
    ensures Room(lens, MAX_BITS) == 0
  {
    TotalIsKraft(lens, MAX_BITS);
  }

  lemma CompleteNodeBound(nodes: Nodes, count: nat, lens: seq<nat>)
    requires Coded(lens) && Kraft(lens, MAX_BITS) == Pow2(MAX_BITS) && NodesOK(nodes, count, lens)
    ensures count <= |lens|
  {
    hide Shl, First, Count, InnerFrom, Kraft, RoomFrom, CountFrom;
    forall p | p in nodes.Keys ensures p in InnerFrom(lens, FAST_BITS) {
      InnerIsMember(lens, p);
    }
    SubsetSize(nodes.Keys, InnerFrom(lens, FAST_BITS));
    InnerFromSize(lens, FAST_BITS);
    NoRoomLeft(lens);
    LastCodeFits(lens, FAST_BITS, MAX_BITS);
    RoomSum(lens, FAST_BITS);
    CountFromBound(lens, FAST_BITS + 1);
  }

  // ----- a table with at most one code

  lemma {:induction false} KraftByCount(lens: seq<nat>)
    requires ValidLens(lens, MAX_BITS)
    ensures Kraft(lens, MAX_BITS) <= Shl(CountFrom(lens, 1), MAX_BITS - 1)
  {
    hide CountFrom, Shl;
    if lens == [] {
      CountFromEmpty(1);
      ShlZero(MAX_BITS - 1);
    } else {
      hide Kraft;
      var n := |lens| - 1;
      KraftByCount(lens[..n]);
      CountFromSnoc(lens[..n], lens[n], 1);
      assert lens == lens[..n] + [lens[n]];
      ShlAdd(CountFrom(lens[..n], 1), 1, MAX_BITS - 1);
      if lens[n] > 0 {
        Pow2Mono(MAX_BITS - lens[n], MAX_BITS - 1);
      }
      KraftSnoc(lens[..n], lens[n], MAX_BITS);
    }
  }

  lemma KraftSnoc(lens: seq<nat>, x: nat, top: nat)
    ensures Kraft(lens + [x], top) == Kraft(lens, top) + Weight(x, top)
  {
    assert (lens + [x])[..|lens + [x]| - 1] == lens;
  }

  lemma AcceptedIsCoded(lens: seq<nat>)
    requires Accepted(lens)
    ensures Coded(lens)
  {
    if Kraft(lens, MAX_BITS) != Pow2(MAX_BITS) {
      KraftByCount(lens);
      ShlMono(CountFrom(lens, 1), 1, MAX_BITS - 1);
      Pow2Mono(MAX_BITS - 1, MAX_BITS);
    }
  }

  lemma {:induction false} UsedOnce(lens: seq<nat>, s: nat)
    requires s < |lens| && 1 <= lens[s] <= MAX_BITS
    ensures CountFrom(lens, 1) >= 1
  {
    hide CountFrom;
    var n := |lens| - 1;
    CountFromSnoc(lens[..n], lens[n], 1);
    assert lens == lens[..n] + [lens[n]];
    if s >= n {
    } else {
      UsedOnce(lens[..n], s);
    }
  }

  lemma {:induction false} UsedTwice(lens: seq<nat>, s: nat, t: nat)
    requires s < t < |lens| && 1 <= lens[s] <= MAX_BITS && 1 <= lens[t] <= MAX_BITS
    ensures CountFrom(lens, 1) >= 2
  {
    hide CountFrom;
    var n := |lens| - 1;
    CountFromSnoc(lens[..n], lens[n], 1);
    assert lens == lens[..n] + [lens[n]];
    if t < n {
      UsedTwice(lens[..n], s, t);
    } else {
      UsedOnce(lens[..n], s);
    }
  }

  function Prefixes(w: seq<bool>, e: nat): set<seq<bool>>
    decreases |w| - e
  {
    if e >= |w| then {} else {w[..e]} + Prefixes(w, e + 1)
  }

  lemma {:induction false} PrefixesSize(w: seq<bool>, e: nat)
    ensures |Prefixes(w, e)| <= if e < |w| then |w| - e else 0
    decreases |w| - e
  {
    if e >= |w| {
    } else {
      PrefixesSize(w, e + 1);
    }
  }

  lemma {:induction false} PrefixesMember(w: seq<bool>, e: nat, d: nat)
    requires e <= d < |w|
    ensures w[..d] in Prefixes(w, e)
    decreases d - e
  {
    if e >= d {
    } else {
      PrefixesMember(w, e + 1, d);
    }
  }

  lemma SingleNodeBound(nodes: Nodes, count: nat, lens: seq<nat>)
    requires ValidLens(lens, MAX_BITS) && CountFrom(lens, 1) <= 1 && NodesOK(nodes, count, lens)
    ensures count <= 5
  {
    hide CountFrom, CodeWord;
    if count > 0 {
      assert nodes.Keys != {};
      var p0 :| p0 in nodes;
      var s: nat :| InnerOf(lens, p0, s);
      var w := CodeWord(lens, s);
      forall p | p in nodes.Keys ensures p in Prefixes(w, FAST_BITS) {
        var t: nat :| InnerOf(lens, p, t);
        if s < t {
          UsedTwice(lens, s, t);
        } else if t < s {
          UsedTwice(lens, t, s);
        }
        PrefixesMember(w, FAST_BITS, |p|);
      }
      SubsetSize(nodes.Keys, Prefixes(w, FAST_BITS));
      PrefixesSize(w, FAST_BITS);
    }
  }

  /** Every tree index is in range: an accepted table of at most 288 symbols needs at most 288 nodes. */
  lemma NodeBound(nodes: Nodes, count: nat, lens: seq<nat>)
    requires Accepted(lens) && |lens| <= 288 && NodesOK(nodes, count, lens)
    ensures count <= 288
  {
    AcceptedIsCoded(lens);
    hide Kraft, CountFrom, NodesOK, Shl;
    if Kraft(lens, MAX_BITS) == Pow2(MAX_BITS) {
      CompleteNodeBound(nodes, count, lens);
    } else {
      SingleNodeBound(nodes, count, lens);
    }
  }

  // ----- the builder

  lemma FromBitsBit(w: seq<bool>, d: nat)
    requires d < |w|
    ensures Shr(FromBits(w), d) % 2 == if w[d] then 1 else 0
  {
    FromBitsSplit(w, d);
    assert w[d..][0] == w[d];
  }

  lemma FromBitsTen(b: seq<bool>)
    requires |b| == FAST_BITS
    ensures FromBits(b) < FAST_SIZE
  {
    FromBitsBound(b);
    assert Pow2(10) == 1024;
  }

  /** Numbers with equal low bits are at least a power of two apart. */
  lemma LowGap(r: nat, t: nat, k: nat)
    requires 0 < t < Pow2(k)
    ensures Low(r + t, k) != Low(r, k)
  {
    LowShr(r, k);
    LowShr(r + t, k);
    if Low(r + t, k) == Low(r, k) {
      var a, b := Shr(r, k), Shr(r + t, k);
      if b <= a {
        ShlMono(b, a, k);
      } else {
        ShlAdd(a, b - a, k);
        ShlMono(1, b - a, k);
      }
    }
  }

  lemma LowStep(r: nat, k: nat)
    ensures Low(r + Pow2(k), k) == Low(r, k)
  {
    LowShr(r, k);
    LowBound(r, k);
    ShlAdd(Shr(r, k), 1, k);
    LowShrPack(Low(r, k), Shr(r, k) + 1, k);
  }

  /** The loop that stores a short code: every index whose low bits are the code word receives the entry. */
  method InsertShort(lk: array<int>, code: nat, size: nat, v: int)
    requires lk.Length == FAST_SIZE && size <= FAST_BITS && code < Pow2(size)
    modifies lk
    ensures forall j :: 0 <= j < FAST_SIZE ==> lk[j] == if Low(j, size) == code then v else old(lk[j])
  {
    hide Low, Shl;
    var rev := code;
    LowOfSmall(code, size);
    while rev < FAST_SIZE
      invariant Low(rev, size) == code
      invariant forall j :: 0 <= j < FAST_SIZE ==> lk[j] == if j < rev && Low(j, size) == code then v else old(lk[j])
      decreases FAST_SIZE - rev
    {
      lk[rev] := v;
      LowStep(rev, size);
      Pow2Mono(0, size);
      forall j: nat | rev < j < rev + Pow2(size) ensures Low(j, size) != code {
        LowGap(rev, j - rev, size);
      }
      rev := rev + Pow2(size);
    }
  }

  lemma LowOfSmall(code: nat, size: nat)
    requires code < Pow2(size)
    ensures Low(code, size) == code && forall j :: 0 <= j < code ==> Low(j, size) != code
  {
    ShlZero(size);
    LowShrPack(code, 0, size);
    forall j: nat | j < code ensures Low(j, size) != code {
      LowShrPack(j, 0, size);
    }
  }

  lemma OverlayFromIndex(lk: seq<int>, lk': seq<int>, w: seq<bool>, v: int, b: seq<bool>)
    requires |lk| == |lk'| == FAST_SIZE && |w| <= FAST_BITS == |b|
    requires forall j :: 0 <= j < FAST_SIZE ==> lk'[j] == if Low(j, |w|) == FromBits(w) then v else lk[j]
    ensures Overlaid(lk, lk', w, v, b)
  {
    hide FromBits, Low;
    FromBitsTen(b);
    FromBitsSplit(b, |w|);
    assert w <= b <==> b[..|w|] == w;
    if FromBits(b[..|w|]) == FromBits(w) {
      FromBitsInjective(b[..|w|], w);
    }
  }

  lemma TreeEntry(tr: seq<int>, nodes: Nodes, lens: seq<nat>, k: nat, p: seq<bool>, x: bool)
    requires Coded(lens) && TreeAt(tr, nodes, lens, k, p, x) && Inner(lens, p + [x])
    ensures tr[Slot(nodes, p, x)] == if p + [x] in nodes then Ref(nodes[p + [x]]) else 0
  {
    hide Coded, Inner, CodeWord;
    forall s: nat | LeafFor(lens, k, s, p + [x]) ensures false {
      InnerNotCode(lens, p + [x], s);
    }
  }

  lemma LookEntry(lk: seq<int>, nodes: Nodes, lens: seq<nat>, k: nat, b: seq<bool>)
    requires Coded(lens) && LookAt(lk, nodes, lens, k, b) && Inner(lens, b)
    ensures lk[FromBits(b)] == if b in nodes then Ref(nodes[b]) else 0
  {
    hide Coded, Inner, CodeWord, FromBits;
    forall s: nat | ShortFor(lens, k, s, b) ensures false {
      InnerNotCode(lens, b, s);
    }
  }

  lemma Room1(nodes: Nodes, count: nat, lens: seq<nat>, q: seq<bool>)
    requires Accepted(lens) && |lens| <= 288 && NodesOK(nodes, count, lens)
    requires q !in nodes && Inner(lens, q) && ParentIn(nodes, q)
    ensures 2 * count + 1 < TREE_SIZE
  {
    hide Accepted, Inner;
    AddNode(nodes, count, lens, q);
    NodeBound(nodes[q := count], count + 1, lens);
  }

  /** Prefixes of the code word of k of lengths ten to d are nodes. */
  ghost predicate Along(nodes: Nodes, w: seq<bool>, d: nat) {
    FAST_BITS <= d <= |w| && forall e :: FAST_BITS <= e <= d ==> w[..e] in nodes
  }

  /** Entering the tree for a long code: the node for its first ten bits, allocated if need be. */
  method EnterTree(lk: array<int>, tr: array<int>, rev: nat, treeNext: int, ghost nodes: Nodes, ghost lens: seq<nat>,
                   ghost k: nat)
    returns (treeCur: int, treeNext': int, ghost nodes': Nodes)
    requires Accepted(lens) && |lens| <= 288 && k < |lens| && lens[k] > FAST_BITS && lk != tr
    requires Table(lk[..], tr[..], nodes, |nodes|, lens, k) && treeNext == Ref(|nodes|)
    requires rev == FromBits(CodeWord(lens, k))
    modifies lk
    ensures Table(lk[..], tr[..], nodes', |nodes'|, lens, k) && treeNext' == Ref(|nodes'|)
    ensures Along(nodes', CodeWord(lens, k), FAST_BITS) && treeCur == Ref(nodes'[CodeWord(lens, k)[..FAST_BITS]])
  {
    hide Table, Coded, Accepted, CodeWord, FromBits, Low, Inner, NodesOK;
    ghost var w := CodeWord(lens, k);
    ghost var b := w[..FAST_BITS];
    EnterTreeFacts(lk[..], tr[..], nodes, lens, k);
    var i := Low(rev, FAST_BITS);
    treeCur, treeNext', nodes' := lk[i], treeNext, nodes;
    if treeCur == 0 {
      Room1(nodes, |nodes|, lens, b);
      AllocLook(lk[..], tr[..], nodes, |nodes|, lens, k, b);
      ghost var old1 := lk[..];
      lk[i] := treeNext;
      assert lk[..] == old1[i := treeNext];
      treeCur := treeNext;
      treeNext' := treeNext - 2;
      nodes' := nodes[b := |nodes|];
    }
  }

  lemma EnterTreeFacts(lk: seq<int>, tr: seq<int>, nodes: Nodes, lens: seq<nat>, k: nat)
    requires Accepted(lens) && k < |lens| && lens[k] > FAST_BITS && Table(lk, tr, nodes, |nodes|, lens, k)
    ensures Coded(lens) && NodesOK(nodes, |nodes|, lens) && |lk| == FAST_SIZE && |tr| == TREE_SIZE
    ensures var b := CodeWord(lens, k)[..FAST_BITS];
      && Inner(lens, b) && ParentIn(nodes, b)
      && Low(FromBits(CodeWord(lens, k)), FAST_BITS) == FromBits(b) < FAST_SIZE
      && lk[FromBits(b)] == if b in nodes then Ref(nodes[b]) else 0
  {
    hide CodeWord, FromBits, Low, TreeAt, LookAt, Entered;
    var w := CodeWord(lens, k);
    var b := w[..FAST_BITS];
    AcceptedIsCoded(lens);
    assert InnerOf(lens, b, k);
    FromBitsSplit(w, FAST_BITS);
    FromBitsTen(b);
    assert LookAt(lk, nodes, lens, k, b);
    LookEntry(lk, nodes, lens, k, b);
  }

  /** One level down the tree along the code word w of symbol k, allocating the child if need be. */
  method Descend(lk: array<int>, tr: array<int>, cur: int, bit: nat, treeNext: int, ghost d: nat, ghost nodes: Nodes,
                 ghost lens: seq<nat>, ghost k: nat)
    returns (treeCur: int, treeNext': int, ghost nodes': Nodes)
    requires Accepted(lens) && |lens| <= 288 && k < |lens| && FAST_BITS <= d && d + 1 < lens[k] && lk != tr
    requires Table(lk[..], tr[..], nodes, |nodes|, lens, k) && treeNext == Ref(|nodes|)
    requires Along(nodes, CodeWord(lens, k), d) && cur == Ref(nodes[CodeWord(lens, k)[..d]])
    requires bit == if CodeWord(lens, k)[d] then 1 else 0
    modifies tr
    ensures Table(lk[..], tr[..], nodes', |nodes'|, lens, k) && treeNext' == Ref(|nodes'|)
    ensures Along(nodes', CodeWord(lens, k), d + 1) && treeCur == Ref(nodes'[CodeWord(lens, k)[..d + 1]])
  {
    hide Table, Coded, Accepted, CodeWord, Inner, NodesOK, Along;
    ghost var w := CodeWord(lens, k);
    ghost var p, x, q := w[..d], w[d], w[..d + 1];
    DescendFacts(lk[..], tr[..], nodes, lens, k, d);
    treeCur, treeNext', nodes' := cur - bit, treeNext, nodes;
    var i := -treeCur - 1;
    if tr[i] == 0 {
      Room1(nodes, |nodes|, lens, q);
      AllocTree(lk[..], tr[..], nodes, |nodes|, lens, k, p, x);
      ghost var old1 := tr[..];
      tr[i] := treeNext;
      assert tr[..] == old1[i := treeNext];
      treeCur := treeNext;
      treeNext' := treeNext - 2;
      nodes' := nodes[q := |nodes|];
    } else {
      treeCur := tr[i];
    }
    AlongNext(nodes, nodes', w, d);
  }

  lemma AlongNext(nodes: Nodes, nodes': Nodes, w: seq<bool>, d: nat)
    requires Along(nodes, w, d) && d + 1 <= |w| && nodes.Keys <= nodes'.Keys && w[..d + 1] in nodes'
    ensures Along(nodes', w, d + 1)
  {
  }

  lemma DescendFacts(lk: seq<int>, tr: seq<int>, nodes: Nodes, lens: seq<nat>, k: nat, d: nat)
    requires Accepted(lens) && k < |lens| && FAST_BITS <= d && d + 1 < lens[k] && Table(lk, tr, nodes, |nodes|, lens, k)
    requires Along(nodes, CodeWord(lens, k), d)
    ensures Coded(lens) && NodesOK(nodes, |nodes|, lens) && |tr| == TREE_SIZE
    ensures var w := CodeWord(lens, k);
      && w[..d] in nodes && w[..d] + [w[d]] == w[..d + 1]
      && Inner(lens, w[..d + 1]) && ParentIn(nodes, w[..d + 1])
      && Slot(nodes, w[..d], w[d]) < |tr|
      && tr[Slot(nodes, w[..d], w[d])] == if w[..d + 1] in nodes then Ref(nodes[w[..d + 1]]) else 0
  {
    hide CodeWord, LookAt, Entered;
    var w := CodeWord(lens, k);
    AcceptedIsCoded(lens);
    assert InnerOf(lens, w[..d + 1], k);
    assert w[..d + 1][..d] == w[..d] && w[..d] + [w[d]] == w[..d + 1];
    assert TreeAt(tr, nodes, lens, k, w[..d], w[d]);
    TreeEntry(tr, nodes, lens, k, w[..d], w[d]);
  }

  /** Storing a long code in the tree. */
  method InsertLong(lk: array<int>, tr: array<int>, code: nat, size: nat, sym: nat, treeNext: int, ghost nodes: Nodes,
                    ghost lens: seq<nat>)
    returns (treeNext': int, ghost nodes': Nodes)
    requires Accepted(lens) && |lens| <= 288 && sym < |lens| && lens[sym] == size > FAST_BITS && lk != tr
    requires Table(lk[..], tr[..], nodes, |nodes|, lens, sym) && treeNext == Ref(|nodes|)
    requires code == FromBits(CodeWord(lens, sym))
    modifies lk, tr
    ensures Table(lk[..], tr[..], nodes', |nodes'|, lens, sym + 1) && treeNext' == Ref(|nodes'|)
  {
    hide Table, Accepted, CodeWord, FromBits, Along, Shr;
    ghost var w := CodeWord(lens, sym);
    var treeCur;
    treeCur, treeNext', nodes' := EnterTree(lk, tr, code, treeNext, nodes, lens, sym);
    AlongLast(nodes', w, FAST_BITS);
    var rev := Shr(code, FAST_BITS - 1);
    var j := size;
    while j > FAST_BITS + 1
      invariant FAST_BITS + 1 <= j <= size
      invariant Table(lk[..], tr[..], nodes', |nodes'|, lens, sym) && treeNext' == Ref(|nodes'|)
      invariant Along(nodes', w, size - j + FAST_BITS) && w[..size - j + FAST_BITS] in nodes'
      invariant treeCur == Ref(nodes'[w[..size - j + FAST_BITS]])
      invariant rev == Shr(code, size - j + FAST_BITS - 1)
      decreases j
    {
      ghost var d := size - j + FAST_BITS;
      rev := Halve(rev, code, d - 1);
      FromBitsBit(w, d);
      treeCur, treeNext', nodes' := Descend(lk, tr, treeCur, rev % 2, treeNext', d, nodes', lens, sym);
      AlongLast(nodes', w, d + 1);
      j := j - 1;
    }
    ghost var d := size - 1;
    rev := Halve(rev, code, d - 1);
    FromBitsBit(w, d);
    InsertLeafFacts(lk[..], tr[..], nodes', lens, sym);
    treeCur := treeCur - rev % 2;
    ghost var old1 := tr[..];
    tr[-treeCur - 1] := sym;
    assert tr[..] == old1[Slot(nodes', w[..d], w[d]) := sym];
  }

  method Halve(rev: nat, ghost code: nat, ghost d: nat) returns (r: nat)
    requires rev == Shr(code, d)
    ensures r == Shr(code, d + 1)
  {
    ShrShr(code, d, 1);
    r := rev / 2;
  }

  lemma AlongLast(nodes: Nodes, w: seq<bool>, d: nat)
    requires Along(nodes, w, d)
    ensures w[..d] in nodes
  {
  }

  lemma InsertLeafFacts(lk: seq<int>, tr: seq<int>, nodes: Nodes, lens: seq<nat>, k: nat)
    requires Accepted(lens) && k < |lens| && lens[k] > FAST_BITS && Table(lk, tr, nodes, |nodes|, lens, k)
    requires Along(nodes, CodeWord(lens, k), lens[k] - 1)
    ensures var w, d := CodeWord(lens, k), lens[k] - 1;
      && w[..d] in nodes && Slot(nodes, w[..d], w[d]) < |tr|
      && Table(lk, tr[Slot(nodes, w[..d], w[d]) := k], nodes, |nodes|, lens, k + 1)
  {
    AcceptedIsCoded(lens);
    hide CodeWord, LookAt, TreeAt, NodesOK, Entered, Coded, Accepted;
    var w, d := CodeWord(lens, k), lens[k] - 1;
    assert w == w[..d] + [w[d]];
    EnterLeaf(lk, tr, nodes, |nodes|, lens, k, w[..d], w[d]);
  }

  /** The decoder's histogram of code sizes. */
  method CountSyms(codeSize: array<nat>, n: nat) returns (totalSyms: array<nat>)
    requires n <= codeSize.Length && ValidLens(codeSize[..n], MAX_BITS)
    ensures fresh(totalSyms) && totalSyms.Length == 16
    ensures forall l :: 0 <= l < 16 ==> totalSyms[l] == Count(codeSize[..n], l)
  {
    totalSyms := new nat[16](_ => 0);
    ghost var lens := codeSize[..n];
    for i := 0 to n
      invariant codeSize[..n] == lens
      invariant forall l :: 0 <= l < 16 ==> totalSyms[l] == Count(lens[..i], l)
    {
      forall l: nat ensures Count(lens[..i + 1], l) == Count(lens[..i], l) + if lens[i] == l then 1 else 0 {
        CountNext(lens, i, l);
      }
      totalSyms[codeSize[i]] := totalSyms[codeSize[i]] + 1;
    }
    assert lens[..n] == lens;
  }

  /**
   The decoder's first codes, the number of symbols in use, and the total that decides whether the
   lengths are accepted.
   */
  method DecoderCodes(totalSyms: array<nat>, ghost lens: seq<nat>) returns (nextCode: array<nat>, used: nat, total: nat)
    requires totalSyms.Length == 16 && forall l :: 0 <= l < 16 ==> totalSyms[l] == Count(lens, l)
    ensures fresh(nextCode) && nextCode.Length == 17 && NextCodes(nextCode[..], lens, 0)
    ensures used == CountFrom(lens, 1) && total == 2 * Kraft(lens, MAX_BITS)
  {
    hide CountFrom, Kraft, Count, Shl, First;
    FirstStart(lens);
    nextCode := new nat[17](_ => 0);
    used, total := 0, 0;
    for i: nat := 1 to 16
      invariant used + CountFrom(lens, i) == CountFrom(lens, 1) && total == First(lens, i)
      invariant forall l :: 1 <= l <= i ==> nextCode[l] == First(lens, l)
    {
      CountFromStep(lens, i);
      FirstStep(lens, i);
      used := used + totalSyms[i];
      total := 2 * (total + totalSyms[i]);
      nextCode[i + 1] := total;
    }
    CountFromEnd(lens);
    TotalIsKraft(lens, MAX_BITS);
    NextCodesStart(nextCode[..], lens);
  }

  lemma CountFromStep(lens: seq<nat>, e: nat)
    requires e <= MAX_BITS
    ensures CountFrom(lens, e) == Count(lens, e) + CountFrom(lens, e + 1)
  {
  }

  lemma CountFromEnd(lens: seq<nat>)
    ensures CountFrom(lens, MAX_BITS + 1) == 0
  {
  }

  lemma EmptyTable(lk: seq<int>, tr: seq<int>, lens: seq<nat>)
    requires |lk| == FAST_SIZE && |tr| == TREE_SIZE
    requires (forall i :: 0 <= i < FAST_SIZE ==> lk[i] == 0) && (forall i :: 0 <= i < TREE_SIZE ==> tr[i] == 0)
    ensures Table(lk, tr, map[], 0, lens, 0)
  {
    forall b: seq<bool> | |b| == FAST_BITS ensures LookAt(lk, map[], lens, 0, b) {
      FromBitsTen(b);
    }
  }

  method ClearInts(a: array<int>)
    modifies a
    ensures forall i :: 0 <= i < a.Length ==> a[i] == 0
  {
    for i := 0 to a.Length
      invariant forall k :: 0 <= k < i ==> a[k] == 0
    {
      a[i] := 0;
    }
  }

  /** Entering symbol i with its size and bit-reversed code. */
  method EnterSymbol(lk: array<int>, tr: array<int>, code: nat, size: nat, sym: nat, treeNext: int, ghost nodes: Nodes,
                     ghost lens: seq<nat>)
    returns (treeNext': int, ghost nodes': Nodes)
    requires Accepted(lens) && |lens| <= 288 && sym < |lens| && lens[sym] == size > 0 && lk != tr
    requires Table(lk[..], tr[..], nodes, |nodes|, lens, sym) && treeNext == Ref(|nodes|)
    requires code == FromBits(CodeWord(lens, sym))
    modifies lk, tr
    ensures Table(lk[..], tr[..], nodes', |nodes'|, lens, sym + 1) && treeNext' == Ref(|nodes'|)
  {
    hide Accepted, CodeWord, FromBits, LookAt, TreeAt, NodesOK, Entered, Low;
    treeNext', nodes' := treeNext, nodes;
    if size <= FAST_BITS {
      ghost var w, old1 := CodeWord(lens, sym), lk[..];
      FromBitsBound(w);
      InsertShort(lk, code, size, 512 * size + sym);
      forall b: seq<bool> | |b| == FAST_BITS ensures Overlaid(old1, lk[..], w, 512 * size + sym, b) {
        OverlayFromIndex(old1, lk[..], w, 512 * size + sym, b);
      }
      AcceptedIsCoded(lens);
      EnterShort(old1, lk[..], tr[..], nodes, |nodes|, lens, sym);
    } else {
      treeNext', nodes' := InsertLong(lk, tr, code, size, sym, treeNext, nodes, lens);
    }
  }

  /** The decoder's table construction. */
  method BuildTable(codeSize: array<nat>, n: nat, lk: array<int>, tr: array<int>) returns (ok: bool, ghost nodes: Nodes)
    requires n <= codeSize.Length && n <= 288 && ValidLens(codeSize[..n], MAX_BITS)
    requires lk.Length == FAST_SIZE && tr.Length == TREE_SIZE && lk != tr
    modifies lk, tr
    ensures ok <==> Accepted(codeSize[..n])
    ensures ok ==> Table(lk[..], tr[..], nodes, |nodes|, codeSize[..n], n)
  {
    hide CountFrom, Kraft, Table, CodeWord, FromBits, NextCodes, ValidLens, Shl;
    ghost var lens := codeSize[..n];
    nodes := map[];
    var totalSyms := CountSyms(codeSize, n);
    ClearInts(lk);
    ClearInts(tr);
    var nextCode, used, total := DecoderCodes(totalSyms, lens);
    assert Pow2(MAX_BITS) == 32768 by { Pow2Fifteen(); }
    if total != 65536 && used > 1 {
      return false, nodes;
    }
    nodes := EnterSymbols(codeSize, n, lk, tr, nextCode);
    ok := true;
  }

  /** The symbol loop of an accepted table. */
  method EnterSymbols(codeSize: array<nat>, n: nat, lk: array<int>, tr: array<int>, nextCode: array<nat>)
    returns (ghost nodes: Nodes)
    requires n <= codeSize.Length && n <= 288 && Accepted(codeSize[..n])
    requires lk.Length == FAST_SIZE && tr.Length == TREE_SIZE && lk != tr && nextCode != codeSize
    requires (forall i :: 0 <= i < FAST_SIZE ==> lk[i] == 0) && (forall i :: 0 <= i < TREE_SIZE ==> tr[i] == 0)
    requires nextCode.Length == 17 && NextCodes(nextCode[..], codeSize[..n], 0)
    modifies lk, tr, nextCode
    ensures Table(lk[..], tr[..], nodes, |nodes|, codeSize[..n], n)
  {
    hide Table, CodeWord, FromBits, NextCodes, Accepted;
    ghost var lens := codeSize[..n];
    nodes := map[];
    EmptyTable(lk[..], tr[..], lens);
    var treeNext := -1;
    for i: nat := 0 to n
      invariant codeSize[..n] == lens && treeNext == Ref(|nodes|)
      invariant NextCodes(nextCode[..], lens, i)
      invariant Table(lk[..], tr[..], nodes, |nodes|, lens, i)
    {
      var size := codeSize[i];
      LensAt(lens, i);
      NextCodesStep(nextCode[..], lens, i);
      if size == 0 {
        SkipUnused(lk[..], tr[..], nodes, |nodes|, lens, i);
      } else {
        var rev := ReverseCode(nextCode[size], size);
        CodeWordIs(lens, i);
        ghost var old1 := nextCode[..];
        nextCode[size] := nextCode[size] + 1;
        assert nextCode[..] == old1[size := old1[size] + 1];
        treeNext, nodes := EnterSymbol(lk, tr, rev, size, i, treeNext, nodes, lens);
      }
    }
  }

  lemma Pow2Fifteen()
    ensures Pow2(15) == 32768
  {
    ShlShl(1, 10, 5);
    assert Shl(1, 10) == 1024 && Shl(1024, 5) == 32768;
  }

  lemma LensAt(lens: seq<nat>, i: nat)
    requires Accepted(lens) && i < |lens|
    ensures lens[i] < 17
  {
  }

  lemma CodeWordIs(lens: seq<nat>, s: nat)
    requires s < |lens|
    ensures CodeWord(lens, s) == MsbBits(Code(lens, s), lens[s])
  {
  }

  // ----- decoding

  /** The bits of v, least significant first, begin with the code word of s. */
  ghost predicate Matches(lens: seq<nat>, s: nat, v: nat) {
    s < |lens| && lens[s] > 0 && CodeWord(lens, s) == ToBits(v, lens[s])
  }

  /** A finished table. */
  ghost predicate Ready(lk: seq<int>, tr: seq<int>, nodes: Nodes, lens: seq<nat>) {
    Accepted(lens) && |lens| <= 288 && Table(lk, tr, nodes, |nodes|, lens, |lens|)
  }

  lemma MatchLonger(lens: seq<nat>, s: nat, v: nat, d: nat)
    requires Matches(lens, s, v) && FAST_BITS <= d < lens[s]
    ensures InnerOf(lens, ToBits(v, d), s)
  {
    ToBitsTake(v, lens[s], d);
  }

  lemma MatchShorter(lens: seq<nat>, s: nat, v: nat, d: nat)
    requires Matches(lens, s, v) && lens[s] <= d
    ensures CodeWord(lens, s) <= ToBits(v, d)
  {
    ToBitsTake(v, d, lens[s]);
  }

  /** What the ten-bit entry says about the symbol the bits begin with. */
  lemma LookDecodes(lk: seq<int>, tr: seq<int>, nodes: Nodes, lens: seq<nat>, v: nat, s: nat)
    requires Ready(lk, tr, nodes, lens) && Matches(lens, s, v)
    ensures Low(v, FAST_BITS) < |lk|
    ensures lens[s] <= FAST_BITS ==> lk[Low(v, FAST_BITS)] == 512 * lens[s] + s
    ensures lens[s] > FAST_BITS ==> ToBits(v, FAST_BITS) in nodes && lk[Low(v, FAST_BITS)] < 0
  {
    var b := ToBits(v, FAST_BITS);
    FromToBits(v, FAST_BITS);
    FromBitsTen(b);
    assert LookAt(lk, nodes, lens, |lens|, b);
    hide CodeWord, FromBits, ToBits, Low;
    if lens[s] <= FAST_BITS {
      MatchShorter(lens, s, v, FAST_BITS);
      assert ShortFor(lens, |lens|, s, b);
    } else {
      MatchLonger(lens, s, v, FAST_BITS);
    }
  }

  /** A negative ten-bit entry refers to the node for those bits. */
  lemma LookNode(lk: seq<int>, tr: seq<int>, nodes: Nodes, lens: seq<nat>, v: nat)
    requires Ready(lk, tr, nodes, lens)
    ensures Low(v, FAST_BITS) < |lk| == FAST_SIZE && |tr| == TREE_SIZE
    ensures lk[Low(v, FAST_BITS)] < 0 ==>
      ToBits(v, FAST_BITS) in nodes && lk[Low(v, FAST_BITS)] == Ref(nodes[ToBits(v, FAST_BITS)])
  {
    var b := ToBits(v, FAST_BITS);
    FromToBits(v, FAST_BITS);
    FromBitsTen(b);
    assert LookAt(lk, nodes, lens, |lens|, b);
    hide CodeWord, FromBits, ToBits, Low;
    if b !in nodes {
      if s: nat :| ShortFor(lens, |lens|, s, b) {
        assert lk[FromBits(b)] == 512 * lens[s] + s;
      }
    }
  }

  /** The table entry e stands for a code word of length d that the bits begin with, or for none. */
  ghost predicate Stands(lens: seq<nat>, v: nat, e: int, sym: int, d: nat) {
    (0 <= sym && Matches(lens, sym, v) && lens[sym] == d) || (e == 0 && sym == 0)
  }

  /** Following the bits of v, the walk leaves the tree after d of them; short codes never enter it. */
  ghost predicate Ends(nodes: Nodes, v: nat, d: nat) {
    if d <= FAST_BITS then ToBits(v, FAST_BITS) !in nodes
    else ToBits(v, d - 1) in nodes && ToBits(v, d) !in nodes
  }

  lemma LookIs(lk: seq<int>, tr: seq<int>, nodes: Nodes, lens: seq<nat>, v: nat)
    requires Ready(lk, tr, nodes, lens)
    ensures |lens| <= 288 && FromBits(ToBits(v, FAST_BITS)) == Low(v, FAST_BITS)
    ensures LookAt(lk, nodes, lens, |lens|, ToBits(v, FAST_BITS))
  {
    hide ToBits, FromBits, Low, LookAt;
    FromToBits(v, FAST_BITS);
  }

  lemma ShortMatches(lens: seq<nat>, v: nat, s: nat)
    requires ShortFor(lens, |lens|, s, ToBits(v, FAST_BITS))
    ensures Matches(lens, s, v) && lens[s] <= FAST_BITS
  {
    hide ToBits, CodeWord;
    ToBitsTake(v, FAST_BITS, lens[s]);
  }

  /** A ten-bit entry that is not negative stands for a symbol, or is zero. */
  lemma LookValue(lk: seq<int>, tr: seq<int>, nodes: Nodes, lens: seq<nat>, v: nat)
    requires Ready(lk, tr, nodes, lens) && Low(v, FAST_BITS) < |lk| && lk[Low(v, FAST_BITS)] >= 0
    ensures var e := lk[Low(v, FAST_BITS)]; e / 512 <= FAST_BITS && Stands(lens, v, e, e % 512, e / 512)
    ensures ToBits(v, FAST_BITS) !in nodes
  {
    hide Ready, FromBits, ToBits, Low, Matches, ShortFor;
    LookIs(lk, tr, nodes, lens, v);
    var b := ToBits(v, FAST_BITS);
    if s: nat :| ShortFor(lens, |lens|, s, b) {
      ShortMatches(lens, v, s);
      MatchBound(lk, tr, nodes, lens, v, s);
      assert lk[FromBits(b)] == 512 * lens[s] + s;
    }
  }

  /** So does a child in the tree. */
  lemma WalkValue(lk: seq<int>, tr: seq<int>, nodes: Nodes, lens: seq<nat>, v: nat, d: nat)
    requires Ready(lk, tr, nodes, lens) && ToBits(v, d) in nodes
    ensures Child(nodes, v, d) < |tr|
    ensures tr[Child(nodes, v, d)] >= 0 ==> Stands(lens, v, tr[Child(nodes, v, d)], tr[Child(nodes, v, d)], d + 1)
    ensures tr[Child(nodes, v, d)] >= 0 ==> ToBits(v, d + 1) !in nodes
  {
    hide Ready, Coded, Entered, Inner, ToBits, Shr, Child, Matches, LeafFor;
    WalkEntry(lk, tr, nodes, lens, v, d);
    var p, x := ToBits(v, d), Shr(v, d) % 2 == 1;
    ToBitsNext(v, d);
    if s: nat :| LeafFor(lens, |lens|, s, p + [x]) {
      LeafMatches(lens, v, s, d + 1);
    }
  }

  lemma LeafMatches(lens: seq<nat>, v: nat, s: nat, d: nat)
    requires LeafFor(lens, |lens|, s, ToBits(v, d)) && d > 0
    ensures Matches(lens, s, v) && lens[s] == d
  {
    hide ToBits;
  }

  lemma {:induction false} ToBitsNext(v: nat, d: nat)
    ensures ToBits(v, d + 1) == ToBits(v, d) + [Shr(v, d) % 2 == 1]
  {
    ToBitsTake(v, d + 1, d);
    ToBitsIndex(v, d + 1, d);
    assert ToBits(v, d + 1) == ToBits(v, d + 1)[..d] + [ToBits(v, d + 1)[d]];
  }

  /** Where the walk stands after d bits, for a symbol whose code word the bits begin with. */
  ghost predicate OnTrack(lens: seq<nat>, s: nat, temp: int, d: nat) {
    s < |lens| && ((temp < 0 && lens[s] > d) || (temp == s && lens[s] == d))
  }

  function Child(nodes: Nodes, v: nat, d: nat): nat
    requires ToBits(v, d) in nodes
  {
    2 * nodes[ToBits(v, d)] + Shr(v, d) % 2
  }

  lemma WalkEntry(lk: seq<int>, tr: seq<int>, nodes: Nodes, lens: seq<nat>, v: nat, d: nat)
    requires Ready(lk, tr, nodes, lens) && ToBits(v, d) in nodes
    ensures Coded(lens) && Entered(nodes, lens, |lens|) && Inner(lens, ToBits(v, d)) && FAST_BITS <= d < MAX_BITS
    ensures TreeAt(tr, nodes, lens, |lens|, ToBits(v, d), Shr(v, d) % 2 == 1)
    ensures Child(nodes, v, d) == Slot(nodes, ToBits(v, d), Shr(v, d) % 2 == 1) < |tr|
  {
    var p, x := ToBits(v, d), Shr(v, d) % 2 == 1;
    AcceptedIsCoded(lens);
    assert Inner(lens, p);
    NodeLength(lens, p);
    assert TreeAt(tr, nodes, lens, |lens|, p, x);
  }

  /** A negative child refers to the node one bit longer. */
  lemma WalkNode(lk: seq<int>, tr: seq<int>, nodes: Nodes, lens: seq<nat>, v: nat, d: nat)
    requires Ready(lk, tr, nodes, lens) && ToBits(v, d) in nodes
    ensures FAST_BITS <= d < MAX_BITS && Child(nodes, v, d) < |tr|
    ensures tr[Child(nodes, v, d)] < 0 ==>
      ToBits(v, d + 1) in nodes && tr[Child(nodes, v, d)] == Ref(nodes[ToBits(v, d + 1)])
  {
    WalkEntry(lk, tr, nodes, lens, v, d);
    hide Ready, Coded, Entered, Inner, CodeWord, ToBits, Shr, Child;
    var p, x := ToBits(v, d), Shr(v, d) % 2 == 1;
    ToBitsNext(v, d);
    if p + [x] !in nodes {
      if s: nat :| LeafFor(lens, |lens|, s, p + [x]) {
        assert tr[Slot(nodes, p, x)] == s;
      }
    }
  }

  /** The walk follows the code word that the bits begin with and ends at its symbol. */
  lemma WalkMatch(lk: seq<int>, tr: seq<int>, nodes: Nodes, lens: seq<nat>, v: nat, d: nat, s: nat)
    requires Ready(lk, tr, nodes, lens) && ToBits(v, d) in nodes && Matches(lens, s, v)
    ensures Child(nodes, v, d) < |tr| && OnTrack(lens, s, tr[Child(nodes, v, d)], d + 1)
  {
    hide Ready, Coded, Entered, Inner, ToBits, Shr, TreeAt;
    WalkEntry(lk, tr, nodes, lens, v, d);
    WalkMatchAt(tr, nodes, lens, v, d, s);
  }

  lemma WalkMatchAt(tr: seq<int>, nodes: Nodes, lens: seq<nat>, v: nat, d: nat, s: nat)
    requires Coded(lens) && Entered(nodes, lens, |lens|) && ToBits(v, d) in nodes && Inner(lens, ToBits(v, d))
    requires d >= FAST_BITS
    requires TreeAt(tr, nodes, lens, |lens|, ToBits(v, d), Shr(v, d) % 2 == 1) && Matches(lens, s, v)
    ensures OnTrack(lens, s, tr[Slot(nodes, ToBits(v, d), Shr(v, d) % 2 == 1)], d + 1)
  {
    hide Coded, Entered, Inner, CodeWord, ToBits, Shr;
    var p, x := ToBits(v, d), Shr(v, d) % 2 == 1;
    ToBitsNext(v, d);
    if lens[s] <= d {
      MatchShorter(lens, s, v, d);
      InnerNotCode(lens, p, s);
    } else if lens[s] == d + 1 {
      assert LeafFor(lens, |lens|, s, p + [x]);
    } else {
      MatchLonger(lens, s, v, d + 1);
      EnteredUse(nodes, lens, |lens|, p + [x], s);
    }
  }

  lemma EnteredUse(nodes: Nodes, lens: seq<nat>, k: nat, p: seq<bool>, s: nat)
    requires Entered(nodes, lens, k) && s < k && InnerOf(lens, p, s)
    ensures p in nodes
  {
  }

  /**
   Decoding one symbol from the bit buffer. If its bits begin with a code word, that symbol and the
   length of its code; bits that begin with no code word come out as symbol zero.
   */
  method DecodeSym(lk: array<int>, tr: array<int>, bitBuf: nat, ghost nodes: Nodes, ghost lens: seq<nat>)
    returns (sym: nat, codeLen: nat)
    requires Ready(lk[..], tr[..], nodes, lens)
    ensures forall s: nat :: Matches(lens, s, bitBuf) ==> sym == s && codeLen == lens[s]
    ensures (Matches(lens, sym, bitBuf) && codeLen == lens[sym]) || sym == 0
    ensures codeLen <= MAX_BITS && Ends(nodes, bitBuf, codeLen)
  {
    hide Ready, Low, ToBits, Shr, CodeWord, Matches;
    LookNode(lk[..], tr[..], nodes, lens, bitBuf);
    var temp := lk[Low(bitBuf, FAST_BITS)];
    forall s: nat | Matches(lens, s, bitBuf)
      ensures s < |lens| && ((temp < 0 && lens[s] > FAST_BITS) || (temp == 512 * lens[s] + s && s < 512))
    {
      MatchBound(lk[..], tr[..], nodes, lens, bitBuf, s);
      LookDecodes(lk[..], tr[..], nodes, lens, bitBuf, s);
    }
    if temp >= 0 {
      LookValue(lk[..], tr[..], nodes, lens, bitBuf);
      codeLen, sym := temp / 512, temp % 512;
    } else {
      codeLen, sym := WalkTree(lk, tr, bitBuf, temp, nodes, lens);
    }
  }

  /** Follows the tree bit by bit, from the node for the first ten bits. */
  method WalkTree(lk: array<int>, tr: array<int>, bitBuf: nat, first: int, ghost nodes: Nodes, ghost lens: seq<nat>)
    returns (codeLen: nat, sym: nat)
    requires Ready(lk[..], tr[..], nodes, lens) && first < 0
    requires ToBits(bitBuf, FAST_BITS) in nodes && first == Ref(nodes[ToBits(bitBuf, FAST_BITS)])
    requires forall s: nat :: Matches(lens, s, bitBuf) ==> OnTrack(lens, s, first, FAST_BITS)
    ensures forall s: nat :: Matches(lens, s, bitBuf) ==> s < |lens| && sym == s && codeLen == lens[s]
    ensures (Matches(lens, sym, bitBuf) && codeLen == lens[sym]) || sym == 0
    ensures FAST_BITS < codeLen <= MAX_BITS && Ends(nodes, bitBuf, codeLen)
  {
    hide Ready, Low, ToBits, Shr, CodeWord, Matches;
    var temp := first;
    codeLen := FAST_BITS;
    while temp < 0
      invariant temp < 0 ==> ToBits(bitBuf, codeLen) in nodes && temp == Ref(nodes[ToBits(bitBuf, codeLen)])
      invariant temp >= 0 ==>
        Stands(lens, bitBuf, temp, temp, codeLen) && codeLen > FAST_BITS && Ends(nodes, bitBuf, codeLen)
      invariant FAST_BITS <= codeLen <= MAX_BITS
      invariant forall s: nat :: Matches(lens, s, bitBuf) ==> OnTrack(lens, s, temp, codeLen)
      decreases MAX_BITS - codeLen, temp < 0
    {
      WalkNode(lk[..], tr[..], nodes, lens, bitBuf, codeLen);
      WalkValue(lk[..], tr[..], nodes, lens, bitBuf, codeLen);
      ghost var i := Child(nodes, bitBuf, codeLen);
      temp := tr[-temp - 1 + Shr(bitBuf, codeLen) % 2];
      forall s: nat | Matches(lens, s, bitBuf) ensures OnTrack(lens, s, temp, codeLen + 1) {
        WalkMatch(lk[..], tr[..], nodes, lens, bitBuf, codeLen, s);
      }
      codeLen := codeLen + 1;
    }
    sym := temp;
  }

  lemma MatchBound(lk: seq<int>, tr: seq<int>, nodes: Nodes, lens: seq<nat>, v: nat, s: nat)
    requires Ready(lk, tr, nodes, lens) && Matches(lens, s, v)
    ensures s < |lens| <= 288 && 0 < lens[s] <= MAX_BITS
  {
  }
}

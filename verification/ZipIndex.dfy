/** The index of a ZIP archive's file names: sorted by heap sort, searched by halving. */
module ZipIndex {
  import opened Arith
  import opened Bits

  type Name = seq<byte>

  /** The 16-bit field that holds the length of a name bounds it. */
  type FileName = s: seq<byte> | |s| < 0x10000 witness []

  const TWO31: int := 0x8000_0000
  const TWO32: int := 0x1_0000_0000

  function ToLower(c: byte): byte {
    if 65 <= c <= 90 then c + 32 else c
  }

  function Lower(s: Name): (r: Name)
    ensures |r| == |s|
  {
    seq(|s|, i requires 0 <= i < |s| => ToLower(s[i]))
  }

  /** Alphabetical order, a proper prefix coming first. */
  predicate Less(s: Name, t: Name) {
    t != [] && (s == [] || s[0] < t[0] || (s[0] == t[0] && Less(s[1..], t[1..])))
  }

  predicate AtMost(s: Name, t: Name) {
    !Less(t, s)
  }

  lemma {:induction false} LessTrichotomy(s: Name, t: Name)
    ensures Less(s, t) ==> !Less(t, s) && s != t
    ensures !Less(s, t) && !Less(t, s) ==> s == t
  {
    if s == [] || t == [] {
    } else {
      LessTrichotomy(s[1..], t[1..]);
      assert s == [s[0]] + s[1..] && t == [t[0]] + t[1..];
    }
  }

  lemma {:induction false} AtMostTransitive(s: Name, t: Name, u: Name)
    requires AtMost(s, t) && AtMost(t, u)
    ensures AtMost(s, u)
  {
    if s == [] || t == [] || u == [] {
    } else if s[0] == t[0] == u[0] {
      AtMostTransitive(s[1..], t[1..], u[1..]);
    }
  }

  /** The order is decided at the first place where two names differ. */
  lemma {:induction false} LessAt(s: Name, t: Name, k: nat)
    requires k <= |s| && k <= |t| && s[..k] == t[..k]
    ensures Less(s, t) <==> Less(s[k..], t[k..])
  {
    if k == 0 {
      assert s[k..] == s && t[k..] == t;
    } else {
      assert s[0] == s[..k][0] && t[0] == t[..k][0];
      assert s[1..][..k - 1] == s[..k][1..] && t[1..][..k - 1] == t[..k][1..];
      LessAt(s[1..], t[1..], k - 1);
      assert s[1..][k - 1..] == s[k..] && t[1..][k - 1..] == t[k..];
    }
  }

  /** How far two names agree but for case, as far as the shorter one goes. */
  method Common(s: Name, t: Name) returns (k: nat)
    ensures k <= |s| && k <= |t| && Lower(s)[..k] == Lower(t)[..k]
    ensures k == Min(|s|, |t|) || ToLower(s[k]) != ToLower(t[k])
  {
    k := 0;
    while k < Min(|s|, |t|)
      invariant k <= |s| && k <= |t| && Lower(s)[..k] == Lower(t)[..k]
    {
      if ToLower(s[k]) != ToLower(t[k]) {
        return;
      }
      assert Lower(s)[..k + 1] == Lower(s)[..k] + [ToLower(s[k])];
      assert Lower(t)[..k + 1] == Lower(t)[..k] + [ToLower(t[k])];
      k := k + 1;
    }
  }

  lemma Decided(s: Name, t: Name, k: nat)
    requires k <= |s| && k <= |t| && Lower(s)[..k] == Lower(t)[..k]
    requires k == Min(|s|, |t|) || ToLower(s[k]) != ToLower(t[k])
    ensures Less(Lower(s), Lower(t)) <==> if k == Min(|s|, |t|) then |s| < |t| else ToLower(s[k]) < ToLower(t[k])
    ensures Lower(s) == Lower(t) <==> k == |s| == |t|
  {
    LessAt(Lower(s), Lower(t), k);
    if k < Min(|s|, |t|) {
      assert Lower(s)[k] != Lower(t)[k];
    } else if |s| == |t| {
      assert Lower(s) == Lower(s)[..k] && Lower(t) == Lower(t)[..k];
    }
  }

  method FilenameLess(s: FileName, t: FileName) returns (less: bool)
    ensures less <==> Less(Lower(s), Lower(t))
  {
    var k := Common(s, t);
    Decided(s, t, k);
    less := if k == Min(|s|, |t|) then |s| < |t| else ToLower(s[k]) < ToLower(t[k]);
  }

  /** A 32-bit pattern read as a signed number. */
  function Signed(x: nat): (r: int)
    requires x < TWO32
    ensures -TWO31 <= r < TWO31 && (r - x) % TWO32 == 0
  {
    if x < TWO31 then x else x - TWO32
  }

  /**
   Zero exactly for the same name. The lengths are subtracted as 32-bit numbers: the sign is
   right for every name shorter than two gigabytes.
   */
  method FilenameCompare(s: FileName, t: Name) returns (c: int)
    requires |t| < TWO32
    ensures c == 0 <==> Lower(s) == Lower(t)
    ensures |t| < TWO31 ==> (c < 0 <==> Less(Lower(s), Lower(t)))
  {
    var k := Common(s, t);
    Decided(s, t, k);
    if k == Min(|s|, |t|) {
      c := Signed((|s| - |t|) % TWO32);
    } else {
      c := ToLower(s[k]) as int - ToLower(t[k]) as int;
    }
  }

  // ----- heaps of file indices

  function Key(names: seq<FileName>, x: nat): Name {
    if x < |names| then Lower(names[x]) else []
  }

  predicate InOrder(names: seq<FileName>, x: nat, y: nat) {
    AtMost(Key(names, x), Key(names, y))
  }

  function Parent(i: nat): nat {
    if i == 0 then 0 else (i - 1) / 2
  }

  /** No entry from lo on below n comes after its parent, save below the one at hole. */
  ghost predicate HeapBut(names: seq<FileName>, s: seq<nat>, lo: nat, n: nat, hole: nat) {
    && n <= |s|
    && (forall i :: 0 < i < n && lo <= Parent(i) && Parent(i) != hole ==> InOrder(names, s[i], s[Parent(i)]))
    && (forall i ::
          0 < i < n && Parent(i) == hole && 0 < hole && lo <= Parent(hole) ==> InOrder(names, s[i], s[Parent(hole)]))
  }

  ghost predicate Heap(names: seq<FileName>, s: seq<nat>, lo: nat, n: nat) {
    && n <= |s|
    && (forall i :: 0 < i < n && lo <= Parent(i) ==> InOrder(names, s[i], s[Parent(i)]))
  }

  lemma {:induction false} RootIsLast(names: seq<FileName>, s: seq<nat>, n: nat, i: nat)
    requires Heap(names, s, 0, n) && i < n
    ensures InOrder(names, s[i], s[0])
  {
    hide Less, Key;
    if i == 0 {
      LessTrichotomy(Key(names, s[0]), Key(names, s[0]));
    } else {
      RootIsLast(names, s, n, Parent(i));
      AtMostTransitive(Key(names, s[i]), Key(names, s[Parent(i)]), Key(names, s[0]));
    }
  }

  function Swapped(s: seq<nat>, i: nat, j: nat): seq<nat>
    requires i < |s| && j < |s|
  {
    s[i := s[j]][j := s[i]]
  }

  /** The larger child of the hole moves up, and the hole moves down to where it was. */
  lemma HoleMoves(names: seq<FileName>, s: seq<nat>, lo: nat, n: nat, root: nat, child: nat)
    requires HeapBut(names, s, lo, n, root) && root < child < n && Parent(child) == root && lo <= root
    requires forall i :: 0 < i < n && Parent(i) == root ==> InOrder(names, s[i], s[child])
    requires InOrder(names, s[root], s[child])
    ensures HeapBut(names, Swapped(s, root, child), lo, n, child)
  {
    hide AtMost, Key;
    var t := Swapped(s, root, child);
    forall i | 0 < i < n && lo <= Parent(i) && Parent(i) != child
      ensures InOrder(names, t[i], t[Parent(i)])
    {
      if Parent(i) != root && i == root {
        assert InOrder(names, s[child], s[Parent(root)]);
      }
    }
    forall i | 0 < i < n && Parent(i) == child
      ensures InOrder(names, t[i], t[Parent(child)])
    {
      assert InOrder(names, s[i], s[Parent(i)]);
    }
  }

  /** With the hole's entry not before its children's there is no hole any more. */
  lemma HoleCloses(names: seq<FileName>, s: seq<nat>, lo: nat, n: nat, root: nat)
    requires HeapBut(names, s, lo, n, root)
    requires forall i :: 0 < i < n && Parent(i) == root ==> InOrder(names, s[i], s[root])
    ensures Heap(names, s, lo, n)
  {
  }

  lemma SwapKeeps(s: seq<nat>, i: nat, j: nat)
    requires i < |s| && j < |s|
    ensures multiset(Swapped(s, i, j)) == multiset(s)
  {
  }

  /** Exchanges two entries. */
  method Swap(a: array<nat>, i: nat, j: nat)
    requires i < a.Length && j < a.Length
    modifies a
    ensures a[..] == Swapped(old(a[..]), i, j)
  {
    a[i], a[j] := a[j], a[i];
  }

  ghost predicate Same(s: seq<nat>, t: seq<nat>, n: nat) {
    n <= |s| == |t| && multiset(s[..n]) == multiset(t[..n]) && s[n..] == t[n..]
  }

  lemma SwapSame(s: seq<nat>, t: seq<nat>, n: nat, i: nat, j: nat)
    requires Same(s, t, n) && i < n && j < n
    ensures Same(Swapped(s, i, j), t, n)
  {
    assert Swapped(s, i, j)[..n] == Swapped(s[..n], i, j);
    assert Swapped(s, i, j)[n..] == s[n..];
    SwapKeeps(s[..n], i, j);
  }

  // ----- what the sort computes

  function LaterOf(names: seq<FileName>, s: seq<nat>, root: nat, n: nat): (child: nat)
    requires 2 * root + 1 < n <= |s|
    ensures root < child < n
  {
    var c := 2 * root + 1;
    if c + 1 < n && Less(Key(names, s[c]), Key(names, s[c + 1])) then c + 1 else c
  }

  function Sifted(names: seq<FileName>, s: seq<nat>, root: nat, n: nat): (r: seq<nat>)
    requires n <= |s|
    ensures |r| == |s|
    decreases n - root
  {
    if 2 * root + 1 >= n then s
    else
      var child := LaterOf(names, s, root, n);
      if Less(Key(names, s[root]), Key(names, s[child])) then Sifted(names, Swapped(s, root, child), child, n) else s
  }

  function Heaped(names: seq<FileName>, s: seq<nat>, start: nat): (r: seq<nat>)
    ensures |r| == |s|
    decreases start
  {
    var t := Sifted(names, s, start, |s|);
    if start == 0 then t else Heaped(names, t, start - 1)
  }

  function Drained(names: seq<FileName>, s: seq<nat>, end: nat): (r: seq<nat>)
    requires end < |s|
    ensures |r| == |s|
    decreases end
  {
    if end == 0 then s else Drained(names, Sifted(names, Swapped(s, end, 0), 0, end), end - 1)
  }

  /** The order heap sort leaves. Among names that differ in case only it is settled by the exchanges made. */
  function HeapSorted(names: seq<FileName>, s: seq<nat>): (r: seq<nat>)
    ensures |r| == |s|
  {
    if |s| <= 1 then s else Drained(names, Heaped(names, s, (|s| - 2) / 2), |s| - 1)
  }

  /** The later of the children of root. */
  method LaterChild(names: seq<FileName>, a: array<nat>, root: nat, n: nat) returns (child: nat)
    requires n <= a.Length && 2 * root + 1 < n && forall i :: 0 <= i < a.Length ==> a[i] < |names|
    ensures child == LaterOf(names, a[..], root, n)
  {
    hide Less;
    child := 2 * root + 1;
    if child + 1 < n {
      var less := FilenameLess(names[a[child]], names[a[child + 1]]);
      if less {
        child := child + 1;
      }
    }
  }

  /** Sinks the entry at start until no child comes after it. */
  method SiftDown(names: seq<FileName>, a: array<nat>, start: nat, n: nat)
    requires n <= a.Length && forall i :: 0 <= i < a.Length ==> a[i] < |names|
    modifies a
    ensures a[..] == Sifted(names, old(a[..]), start, n)
    ensures forall i :: 0 <= i < a.Length ==> a[i] < |names|
  {
    hide Less, Sifted;
    var root := start;
    while 2 * root + 1 < n
      invariant Sifted(names, a[..], root, n) == Sifted(names, old(a[..]), start, n)
      invariant forall i :: 0 <= i < a.Length ==> a[i] < |names|
      decreases n - root
    {
      var child := LaterChild(names, a, root, n);
      var less := FilenameLess(names[a[root]], names[a[child]]);
      SiftedStep(names, a[..], root, n);
      if !less {
        return;
      }
      Swap(a, root, child);
      root := child;
    }
    SiftedStep(names, a[..], root, n);
  }

  lemma SiftedStep(names: seq<FileName>, s: seq<nat>, root: nat, n: nat)
    requires n <= |s|
    ensures 2 * root + 1 >= n ==> Sifted(names, s, root, n) == s
    ensures 2 * root + 1 < n ==>
      var child := LaterOf(names, s, root, n);
      Sifted(names, s, root, n) == if Less(Key(names, s[root]), Key(names, s[child]))
        then Sifted(names, Swapped(s, root, child), child, n) else s
  {
  }

  method BuildHeap(names: seq<FileName>, a: array<nat>)
    requires a.Length >= 2 && forall i :: 0 <= i < a.Length ==> a[i] < |names|
    modifies a
    ensures a[..] == Heaped(names, old(a[..]), (a.Length - 2) / 2)
    ensures forall i :: 0 <= i < a.Length ==> a[i] < |names|
  {
    hide Sifted;
    var start: nat := (a.Length - 2) / 2;
    while true
      invariant Heaped(names, a[..], start) == Heaped(names, old(a[..]), (a.Length - 2) / 2)
      invariant forall i :: 0 <= i < a.Length ==> a[i] < |names|
      decreases start
    {
      SiftDown(names, a, start, a.Length);
      if start == 0 {
        return;
      }
      start := start - 1;
    }
  }

  /** Heap sort of the indices by the names they stand for, case aside. */
  method SortByName(names: seq<FileName>, a: array<nat>)
    requires forall i :: 0 <= i < a.Length ==> a[i] < |names|
    modifies a
    ensures a[..] == HeapSorted(names, old(a[..]))
    ensures forall i :: 0 <= i < a.Length ==> a[i] < |names|
  {
    hide Sifted, Heaped;
    if a.Length <= 1 {
      return;
    }
    BuildHeap(names, a);
    var end: nat := a.Length - 1;
    while end > 0
      invariant end < a.Length && Drained(names, a[..], end) == HeapSorted(names, old(a[..]))
      invariant forall i :: 0 <= i < a.Length ==> a[i] < |names|
    {
      Swap(a, end, 0);
      SiftDown(names, a, 0, end);
      end := end - 1;
    }
  }

  // ----- why it is a sort

  lemma LaterIs(names: seq<FileName>, s: seq<nat>, root: nat, n: nat)
    requires 2 * root + 1 < n <= |s|
    ensures Parent(LaterOf(names, s, root, n)) == root
    ensures forall i :: 0 < i < n && Parent(i) == root ==> InOrder(names, s[i], s[LaterOf(names, s, root, n)])
  {
    hide Less, Key;
    var c := 2 * root + 1;
    LessTrichotomy(Key(names, s[c]), Key(names, s[c]));
    if c + 1 < n {
      LessTrichotomy(Key(names, s[c + 1]), Key(names, s[c + 1]));
      LessTrichotomy(Key(names, s[c]), Key(names, s[c + 1]));
    }
  }

  /** Sifting closes the hole and permutes nothing but the heap's own entries. */
  lemma {:induction false} SiftedHeap(names: seq<FileName>, s: seq<nat>, lo: nat, root: nat, n: nat)
    requires lo <= root && HeapBut(names, s, lo, n, root)
    ensures Heap(names, Sifted(names, s, root, n), lo, n) && Same(Sifted(names, s, root, n), s, n)
    decreases n - root
  {
    hide Less, AtMost, Key, Sifted, LaterOf, Same;
    SiftedStep(names, s, root, n);
    ItselfSame(s, n);
    if 2 * root + 1 >= n {
      HoleCloses(names, s, lo, n, root);
    } else {
      LaterIs(names, s, root, n);
      var child := LaterOf(names, s, root, n);
      KeyOrder(names, s[root], s[child]);
      if Less(Key(names, s[root]), Key(names, s[child])) {
        var t := Swapped(s, root, child);
        HoleMoves(names, s, lo, n, root, child);
        SiftedHeap(names, t, lo, child, n);
        SwapSame(s, s, n, root, child);
        SameTransitive(Sifted(names, s, root, n), t, s, n);
      } else {
        BelowToo(names, s, n, root, child);
        HoleCloses(names, s, lo, n, root);
      }
    }
  }

  lemma SameTransitive(s: seq<nat>, t: seq<nat>, u: seq<nat>, n: nat)
    requires Same(s, t, n) && Same(t, u, n)
    ensures Same(s, u, n)
  {
  }

  lemma {:induction false} HeapedHeap(names: seq<FileName>, s: seq<nat>, start: nat)
    requires HeapBut(names, s, start, |s|, start)
    ensures Heap(names, Heaped(names, s, start), 0, |s|) && multiset(Heaped(names, s, start)) == multiset(s)
    decreases start
  {
    hide Less, AtMost, Key, Sifted, Same;
    var t := Sifted(names, s, start, |s|);
    SiftedHeap(names, s, start, start, |s|);
    SameAll(t, s, |s|);
    if start == 0 {
    } else {
      HeapedHeap(names, t, start - 1);
    }
  }

  lemma {:induction false} DrainedSorted(names: seq<FileName>, s: seq<nat>, end: nat)
    requires end < |s| && Heap(names, s, 0, end + 1) && SortedFrom(names, s, end + 1)
    ensures SortedFrom(names, Drained(names, s, end), 0) && multiset(Drained(names, s, end)) == multiset(s)
    decreases end
  {
    hide Less, AtMost, Key, Sifted, Same;
    if end == 0 {
    } else {
      var t := Swapped(s, end, 0);
      var u := Sifted(names, t, 0, end);
      TopGoesLast(names, s, end);
      SwapKeeps(s, end, 0);
      SiftedHeap(names, t, 0, 0, end);
      SameSorted(names, t, u, end);
      SameAll(u, t, end);
      DrainedSorted(names, u, end - 1);
    }
  }

  /** The same indices, in alphabetical order of the names they stand for, case aside. */
  lemma HeapSortSorts(names: seq<FileName>, s: seq<nat>)
    ensures SortedFrom(names, HeapSorted(names, s), 0) && multiset(HeapSorted(names, s)) == multiset(s)
  {
    hide Less, AtMost, Key, Drained, Heaped;
    if |s| > 1 {
      HeapedHeap(names, s, (|s| - 2) / 2);
      DrainedSorted(names, Heaped(names, s, (|s| - 2) / 2), |s| - 1);
    }
  }

  lemma ItselfSame(s: seq<nat>, n: nat)
    requires n <= |s|
    ensures Same(s, s, n)
  {
  }

  lemma KeyOrder(names: seq<FileName>, x: nat, y: nat)
    ensures if Less(Key(names, x), Key(names, y)) then InOrder(names, x, y) else InOrder(names, y, x)
  {
    LessTrichotomy(Key(names, x), Key(names, y));
  }

  lemma BelowToo(names: seq<FileName>, s: seq<nat>, n: nat, root: nat, child: nat)
    requires n <= |s| && root < n && child < n && InOrder(names, s[child], s[root])
    requires forall i :: 0 < i < n && Parent(i) == root ==> InOrder(names, s[i], s[child])
    ensures forall i :: 0 < i < n && Parent(i) == root ==> InOrder(names, s[i], s[root])
  {
    forall i | 0 < i < n && Parent(i) == root
      ensures InOrder(names, s[i], s[root])
    {
      AtMostTransitive(Key(names, s[i]), Key(names, s[child]), Key(names, s[root]));
    }
  }

  // ----- sorting

  /** Sorted from n on, with nothing before n that belongs after it. */
  ghost predicate SortedFrom(names: seq<FileName>, s: seq<nat>, n: nat) {
    forall i, j :: 0 <= i < j < |s| && n <= j ==> InOrder(names, s[i], s[j])
  }

  lemma SameSorted(names: seq<FileName>, s: seq<nat>, t: seq<nat>, n: nat)
    requires SortedFrom(names, s, n) && Same(t, s, n)
    ensures SortedFrom(names, t, n)
  {
    hide AtMost, Key;
    forall i, j | 0 <= i < j < |t| && n <= j
      ensures InOrder(names, t[i], t[j])
    {
      assert t[j] == t[n..][j - n] == s[j];
      if i < n {
        assert t[i] in multiset(t[..n]);
        var k :| 0 <= k < n && s[..n][k] == t[i];
        assert s[k] == t[i];
      } else {
        assert t[i] == t[n..][i - n] == s[i];
      }
    }
  }

  /** The top of the heap goes to the end of it. */
  lemma TopGoesLast(names: seq<FileName>, s: seq<nat>, last: nat)
    requires last < |s| && Heap(names, s, 0, last + 1) && SortedFrom(names, s, last + 1)
    ensures SortedFrom(names, Swapped(s, last, 0), last) && HeapBut(names, Swapped(s, last, 0), 0, last, 0)
  {
    hide AtMost, Key;
    var t := Swapped(s, last, 0);
    forall i, j | 0 <= i < j < |t| && last <= j
      ensures InOrder(names, t[i], t[j])
    {
      if j == last {
        RootIsLast(names, s, last + 1, if i == 0 then last else i);
      }
    }
  }

  lemma SameAll(s: seq<nat>, t: seq<nat>, n: nat)
    requires Same(s, t, n)
    ensures multiset(s) == multiset(t)
  {
    assert s == s[..n] + s[n..] && t == t[..n] + t[n..];
  }

  // ----- searching

  ghost predicate Bears(names: seq<FileName>, i: nat, name: Name) {
    i < |names| && Lower(names[i]) == Lower(name)
  }

  /** The first file of a name from i on, case aside. */
  function FirstFrom(names: seq<FileName>, name: Name, i: nat): (r: Option<nat>)
    ensures r.Some? ==>
      i <= r.value && Bears(names, r.value, name) && forall k :: i <= k < r.value ==> !Bears(names, k, name)
    ensures r.None? ==> forall k :: i <= k ==> !Bears(names, k, name)
    decreases |names| - i
  {
    if i >= |names| then None else if Lower(names[i]) == Lower(name) then Some(i) else FirstFrom(names, name, i + 1)
  }

  method StringEqual(s: Name, t: Name, matchCase: bool) returns (equal: bool)
    requires |s| == |t|
    ensures equal <==> if matchCase then s == t else Lower(s) == Lower(t)
  {
    if matchCase {
      return s == t;
    }
    var i := 0;
    while i < |s|
      invariant 0 <= i <= |s| && forall k :: 0 <= k < i ==> ToLower(s[k]) == ToLower(t[k])
    {
      if ToLower(s[i]) != ToLower(t[i]) {
        assert Lower(s)[i] != Lower(t)[i];
        return false;
      }
      i := i + 1;
    }
    equal := true;
  }

  datatype Entry = Entry(name: FileName, comment: FileName)
  datatype Query = Query(name: Name, comment: Name, ignorePath: bool, matchCase: bool)

  predicate Separator(c: byte) {
    c == 47 || c == 92 || c == 58
  }

  /** What is left of a name behind its last separator. */
  function BaseName(s: Name): (r: Name)
    ensures |r| <= |s|
  {
    if s == [] || Separator(s[|s| - 1]) then [] else BaseName(s[..|s| - 1]) + [s[|s| - 1]]
  }

  /** It is the longest end of the name without a separator. */
  lemma {:induction false} BaseNameIs(s: Name)
    ensures var r := BaseName(s);
      && s[|s| - |r|..] == r && (forall i :: 0 <= i < |r| ==> !Separator(r[i]))
      && (|r| < |s| ==> Separator(s[|s| - |r| - 1]))
  {
    if s != [] && !Separator(s[|s| - 1]) {
      BaseNameIs(s[..|s| - 1]);
    }
  }

  predicate SameText(s: Name, t: Name, matchCase: bool) {
    if matchCase then s == t else Lower(s) == Lower(t)
  }

  /** An entry answers a query: its comment, if one is asked for, and its name, perhaps without its path. */
  predicate Answers(e: Entry, q: Query) {
    && (q.comment == [] || SameText(q.comment, e.comment, q.matchCase))
    && SameText(q.name, if q.ignorePath then BaseName(e.name) else e.name, q.matchCase)
  }

  lemma BaseNameStep(s: Name, n: nat)
    requires n <= |s|
    ensures n == 0 || Separator(s[n - 1]) ==> BaseName(s[..n]) == []
    ensures n > 0 && !Separator(s[n - 1]) ==> BaseName(s[..n]) + s[n..] == BaseName(s[..n - 1]) + s[n - 1..]
  {
    if n > 0 && !Separator(s[n - 1]) {
      assert s[..n][..n - 1] == s[..n - 1] && s[n - 1..] == [s[n - 1]] + s[n..];
    }
  }

  /** Only the name counts, case aside. */
  predicate Plain(q: Query) {
    !q.ignorePath && !q.matchCase && q.comment == []
  }

  function NamesOf(entries: seq<Entry>): (r: seq<FileName>)
    ensures |r| == |entries|
  {
    seq(|entries|, i requires 0 <= i < |entries| => entries[i].name)
  }

  /** Looks for the last separator. */
  method StripPath(name: FileName) returns (base: FileName)
    ensures base == BaseName(name)
  {
    hide BaseName;
    var ofs := |name|;
    assert name[..ofs] == name && name[ofs..] == [];
    while ofs > 0 && !Separator(name[ofs - 1])
      invariant 0 <= ofs <= |name| && BaseName(name) == BaseName(name[..ofs]) + name[ofs..]
    {
      BaseNameStep(name, ofs);
      ofs := ofs - 1;
    }
    BaseNameStep(name, ofs);
    base := name[ofs..];
  }

  lemma SameTextLength(s: Name, t: Name, matchCase: bool)
    requires SameText(s, t, matchCase)
    ensures |s| == |t|
  {
  }

  method MatchesEntry(e: Entry, q: Query) returns (yes: bool)
    requires |q.name| < 0x10000
    ensures yes <==> Answers(e, q)
  {
    hide Lower;
    if SameText(q.comment, e.comment, q.matchCase) {
      SameTextLength(q.comment, e.comment, q.matchCase);
    }
    var base := e.name;
    if q.ignorePath {
      base := StripPath(e.name);
    }
    if SameText(q.name, base, q.matchCase) {
      SameTextLength(q.name, base, q.matchCase);
    }
    if |e.name| < |q.name| {
      return false;
    }
    if q.comment != [] {
      if |e.comment| != |q.comment| {
        return false;
      }
      var equal := StringEqual(q.comment, e.comment, q.matchCase);
      if !equal {
        return false;
      }
    }
    if |base| != |q.name| {
      return false;
    }
    yes := StringEqual(q.name, base, q.matchCase);
  }

  /** The linear scan finds the first entry that answers the query, if one does. */
  method Scan(entries: seq<Entry>, q: Query) returns (r: Option<nat>)
    ensures r.Some? ==>
      r.value < |entries| && Answers(entries[r.value], q) && forall i :: 0 <= i < r.value ==> !Answers(entries[i], q)
    ensures r.None? ==> forall i :: 0 <= i < |entries| ==> !Answers(entries[i], q)
    ensures Plain(q) ==> r == FirstFrom(NamesOf(entries), q.name, 0)
  {
    hide Answers, FirstFrom;
    if Plain(q) {
      PlainAnswers(entries, q);
    }
    if |q.name| > 0xFFFF || |q.comment| > 0xFFFF {
      TooLong(entries, q);
      return None;
    }
    var i := 0;
    while i < |entries|
      invariant 0 <= i <= |entries| && forall k :: 0 <= k < i ==> !Answers(entries[k], q)
    {
      var yes := MatchesEntry(entries[i], q);
      if yes {
        return Some(i);
      }
      i := i + 1;
    }
    r := None;
  }

  lemma PlainAnswers(entries: seq<Entry>, q: Query)
    requires Plain(q)
    ensures forall i :: 0 <= i < |entries| ==> (Answers(entries[i], q) <==> Bears(NamesOf(entries), i, q.name))
  {
    hide Lower;
  }

  lemma TooLong(entries: seq<Entry>, q: Query)
    requires |q.name| > 0xFFFF || |q.comment| > 0xFFFF
    ensures forall i :: 0 <= i < |entries| ==> !Answers(entries[i], q)
  {
    hide Lower;
    forall i | 0 <= i < |entries| && Answers(entries[i], q)
      ensures false
    {
      if |q.name| > 0xFFFF {
        var base := if q.ignorePath then BaseName(entries[i].name) else entries[i].name;
        SameTextLength(q.name, base, q.matchCase);
      } else {
        SameTextLength(q.comment, entries[i].comment, q.matchCase);
      }
    }
  }

  /** Every file is in the index once. */
  ghost predicate Covers(s: seq<nat>, n: nat) {
    (forall x :: 0 <= x < n ==> x in s) && (forall i :: 0 <= i < |s| ==> s[i] < n)
  }

  /** What halving finds between two places of an index. */
  function HalvedFrom(names: seq<FileName>, s: seq<nat>, name: Name, l: nat, h: int): (r: Option<nat>)
    requires h < |s|
    ensures r.Some? ==> r.value in s && Key(names, r.value) == Lower(name)
    decreases h - l
  {
    if l > h then None
    else
      var m := l + (h - l) / 2;
      if Key(names, s[m]) == Lower(name) then Some(s[m])
      else if Less(Key(names, s[m]), Lower(name)) then HalvedFrom(names, s, name, m + 1, h)
      else HalvedFrom(names, s, name, l, m - 1)
  }

  /** The part of a name that its 32-bit length leaves. */
  function Cut(name: Name): (r: Name)
    ensures |r| < TWO32 && (|name| < TWO32 ==> r == name)
  {
    name[..|name| % TWO32]
  }

  lemma {:induction false} HalvedNone(names: seq<FileName>, s: seq<nat>, name: Name, l: nat, h: int)
    requires h < |s| && forall i :: l <= i <= h ==> Key(names, s[i]) != Lower(name)
    ensures HalvedFrom(names, s, name, l, h) == None
    decreases h - l
  {
    if l > h {
    } else {
      var m := l + (h - l) / 2;
      HalvedNone(names, s, name, m + 1, h);
      HalvedNone(names, s, name, l, m - 1);
    }
  }

  /** Halving, whatever the index; the sign of the comparison is only wrong for names that no file has. */
  method BinarySearch(names: seq<FileName>, a: array<nat>, name: Name) returns (r: Option<nat>)
    requires forall i :: 0 <= i < a.Length ==> a[i] < |names|
    ensures r == HalvedFrom(names, a[..], Cut(name), 0, a.Length - 1)
  {
    hide Less, HalvedFrom;
    ghost var key := Cut(name);
    if |key| >= TWO31 {
      forall i | 0 <= i < a.Length
        ensures Key(names, a[i]) != Lower(key)
      {
        assert |Key(names, a[i])| < 0x10000;
      }
      HalvedNone(names, a[..], key, 0, a.Length - 1);
    }
    var l, h := 0, a.Length - 1;
    while l <= h
      invariant 0 <= l <= h + 1 <= a.Length
      invariant |key| < TWO31 ==> HalvedFrom(names, a[..], key, l, h) == HalvedFrom(names, a[..], key, 0, a.Length - 1)
    {
      var m := l + (h - l) / 2;
      var fileIndex := a[m];
      var c := FilenameCompare(names[fileIndex], name[..|name| % TWO32]);
      HalvedStep(names, a[..], key, l, h);
      if c == 0 {
        return Some(fileIndex);
      }
      if c < 0 {
        l := m + 1;
      } else {
        h := m - 1;
      }
    }
    HalvedStep(names, a[..], key, l, h);
    r := None;
  }

  lemma HalvedStep(names: seq<FileName>, s: seq<nat>, name: Name, l: nat, h: int)
    requires h < |s|
    ensures l > h ==> HalvedFrom(names, s, name, l, h) == None
    ensures l <= h ==>
      var m := l + (h - l) / 2;
      HalvedFrom(names, s, name, l, h) ==
        if Key(names, s[m]) == Lower(name) then Some(s[m])
        else if Less(Key(names, s[m]), Lower(name)) then HalvedFrom(names, s, name, m + 1, h)
        else HalvedFrom(names, s, name, l, m - 1)
  {
  }

  function Identity(n: nat): (r: seq<nat>)
    ensures |r| == n
  {
    seq(n, i => i)
  }

  /** The index made when an archive is opened. */
  function Index(names: seq<FileName>): (r: seq<nat>)
    ensures |r| == |names|
  {
    HeapSorted(names, Identity(|names|))
  }

  /** Every file once, in alphabetical order. */
  method SortedIndex(names: seq<FileName>) returns (a: array<nat>)
    ensures fresh(a) && a[..] == Index(names)
    ensures Covers(a[..], |names|) && SortedFrom(names, a[..], 0)
  {
    hide HeapSorted;
    HeapSortSorts(names, Identity(|names|));
    a := new nat[|names|](i => i);
    assert a[..] == Identity(|names|);
    ghost var was := a[..];
    SortByName(names, a);
    forall x | 0 <= x < |names|
      ensures x in a[..]
    {
      assert was[x] == x && x in multiset(was);
    }
  }

  /**
   Looks a file up: by halving when there is an index and only the name counts, case aside, and by
   scanning otherwise.
   */
  method LocateFile(entries: seq<Entry>, index: Option<array<nat>>, q: Query) returns (r: Option<nat>)
    requires index.Some? ==> forall i :: 0 <= i < index.value.Length ==> index.value[i] < |entries|
    ensures index.Some? && index.value.Length > 0 && Plain(q) ==>
      r == HalvedFrom(NamesOf(entries), index.value[..], Cut(q.name), 0, index.value.Length - 1)
    ensures Plain(q) && (index.None? || index.value.Length == 0) ==> r == FirstFrom(NamesOf(entries), q.name, 0)
    ensures !(index.Some? && index.value.Length > 0 && Plain(q)) ==>
      if r.Some? then
        r.value < |entries| && Answers(entries[r.value], q) && forall i :: 0 <= i < r.value ==> !Answers(entries[i], q)
      else
        forall i :: 0 <= i < |entries| ==> !Answers(entries[i], q)
  {
    hide Answers, HalvedFrom;
    if index.Some? && index.value.Length > 0 && Plain(q) {
      r := BinarySearch(NamesOf(entries), index.value, q.name);
    } else {
      r := Scan(entries, q);
    }
  }

  // ----- when the two ways of looking up agree

  /** The entries p up to q of the index are those of a name. */
  ghost predicate Run(names: seq<FileName>, s: seq<nat>, name: Name, p: nat, q: nat) {
    && p < q <= |s|
    && (forall i :: p <= i < q ==> Key(names, s[i]) == Lower(name))
    && (forall i :: 0 <= i < p ==> Less(Key(names, s[i]), Lower(name)))
    && (forall i :: q <= i < |s| ==> Less(Lower(name), Key(names, s[i])))
  }

  /** The first place from p up to q that halving looks at. */
  function Landing(l: nat, h: int, p: nat, q: nat): (m: nat)
    requires l <= p < q <= h + 1
    ensures p <= m < q
    decreases h - l
  {
    var m := l + (h - l) / 2;
    if m < p then Landing(m + 1, h, p, q) else if m >= q then Landing(l, m - 1, p, q) else m
  }

  lemma {:induction false} HalvedLands(names: seq<FileName>, s: seq<nat>, name: Name, p: nat, q: nat, l: nat, h: int)
    requires Run(names, s, name, p, q) && l <= p < q <= h + 1 && h < |s|
    ensures HalvedFrom(names, s, name, l, h) == Some(s[Landing(l, h, p, q)])
    decreases h - l
  {
    hide Less, Key, HalvedFrom, Lower;
    var m := l + (h - l) / 2;
    HalvedStep(names, s, name, l, h);
    LessTrichotomy(Key(names, s[m]), Lower(name));
    if m < p {
      HalvedLands(names, s, name, p, q, m + 1, h);
    } else if m >= q {
      HalvedLands(names, s, name, p, q, l, m - 1);
    }
  }

  /** The files of a name stand together in the index. */
  lemma FindRun(names: seq<FileName>, s: seq<nat>, name: Name, j: nat) returns (p: nat, q: nat)
    requires SortedFrom(names, s, 0) && j < |s| && Key(names, s[j]) == Lower(name)
    ensures Run(names, s, name, p, q)
  {
    hide Less, Key, Lower;
    p, q := j, j + 1;
    while p > 0 && Key(names, s[p - 1]) == Lower(name)
      invariant p <= j && forall i :: p <= i <= j ==> Key(names, s[i]) == Lower(name)
    {
      p := p - 1;
    }
    while q < |s| && Key(names, s[q]) == Lower(name)
      invariant j < q <= |s| && forall i :: j <= i < q ==> Key(names, s[i]) == Lower(name)
      decreases |s| - q
    {
      q := q + 1;
    }
    forall i | 0 <= i < p
      ensures Less(Key(names, s[i]), Lower(name))
    {
      Strictly(names, s, i, p - 1, p);
    }
    forall i | q <= i < |s|
      ensures Less(Lower(name), Key(names, s[i]))
    {
      Strictly(names, s, q - 1, q, i);
    }
  }

  lemma Strictly(names: seq<FileName>, s: seq<nat>, i: nat, j: nat, k: nat)
    requires SortedFrom(names, s, 0) && i <= j <= k < |s| && i < k
    requires Key(names, s[i]) != Key(names, s[j]) || Key(names, s[j]) != Key(names, s[k])
    ensures Less(Key(names, s[i]), Key(names, s[k]))
  {
    hide Less, Key;
    var x, y, z := Key(names, s[i]), Key(names, s[j]), Key(names, s[k]);
    assert InOrder(names, s[i], s[k]);
    LessTrichotomy(x, z);
    if !Less(x, z) {
      assert i < j ==> InOrder(names, s[i], s[j]);
      assert j < k ==> InOrder(names, s[j], s[k]);
      LessTrichotomy(x, y);
      assert false;
    }
  }

  /** The entry of a run that halving comes upon first is the first file of its name. */
  ghost predicate Least(s: seq<nat>, p: nat, q: nat)
    requires p < q <= |s|
  {
    forall i :: p <= i < q ==> s[Landing(0, |s| - 1, p, q)] <= s[i]
  }

  /** The first file of a name is in its run. */
  lemma FirstInRun(names: seq<FileName>, s: seq<nat>, name: Name, p: nat, q: nat) returns (k: nat)
    requires Covers(s, |names|) && Run(names, s, name, p, q)
    ensures p <= k < q && FirstFrom(names, name, 0) == Some(s[k])
    ensures forall i :: p <= i < q ==> s[k] <= s[i]
  {
    hide Less, Lower;
    assert Bears(names, s[p], name);
    var first := FirstFrom(names, name, 0).value;
    assert first in s;
    k :| 0 <= k < |s| && s[k] == first;
    LessTrichotomy(Key(names, s[k]), Lower(name));
    LessTrichotomy(Lower(name), Key(names, s[k]));
    forall i | p <= i < q
      ensures first <= s[i]
    {
      assert Bears(names, s[i], name);
    }
  }

  /** For one name, the two ways agree if and only if halving comes upon the first of its files first. */
  lemma AgreeAt(names: seq<FileName>, s: seq<nat>, name: Name, p: nat, q: nat)
    requires Covers(s, |names|) && Run(names, s, name, p, q)
    ensures HalvedFrom(names, s, name, 0, |s| - 1) == FirstFrom(names, name, 0) <==> Least(s, p, q)
  {
    hide Less, HalvedFrom, Lower, Key, FirstFrom, Covers;
    HalvedLands(names, s, name, p, q, 0, |s| - 1);
    var k := FirstInRun(names, s, name, p, q);
  }

  /** For every name the two ways agree, whatever the archive. */
  ghost predicate AlwaysAgree(names: seq<FileName>, s: seq<nat>) {
    forall name: Name :: |name| < TWO32 ==> HalvedFrom(names, s, Cut(name), 0, |s| - 1) == FirstFrom(names, name, 0)
  }

  /** Halving comes upon the first file of every name first. */
  ghost predicate AllLeast(names: seq<FileName>, s: seq<nat>) {
    forall name: Name, p: nat, q: nat :: Run(names, s, name, p, q) ==> Least(s, p, q)
  }

  lemma IndexFacts(names: seq<FileName>)
    ensures Covers(Index(names), |names|) && SortedFrom(names, Index(names), 0)
  {
    hide HeapSorted;
    var was := Identity(|names|);
    HeapSortSorts(names, was);
    forall x | 0 <= x < |names|
      ensures x in Index(names)
    {
      assert was[x] == x && x in multiset(was);
    }
    forall i | 0 <= i < |names|
      ensures Index(names)[i] < |names|
    {
      assert Index(names)[i] in multiset(was);
    }
  }

  /** A name no file has is found neither way. */
  lemma NeitherFinds(names: seq<FileName>, s: seq<nat>, name: Name)
    requires Covers(s, |names|) && forall i :: 0 <= i < |s| ==> Key(names, s[i]) != Lower(name)
    ensures HalvedFrom(names, s, name, 0, |s| - 1) == FirstFrom(names, name, 0) == None
  {
    hide HalvedFrom, Lower;
    HalvedNone(names, s, name, 0, |s| - 1);
    forall k: nat | k < |names|
      ensures !Bears(names, k, name)
    {
      assert k in s;
    }
  }

  lemma LeastAgrees(names: seq<FileName>, s: seq<nat>, name: Name)
    requires Covers(s, |names|) && SortedFrom(names, s, 0) && AllLeast(names, s)
    ensures HalvedFrom(names, s, name, 0, |s| - 1) == FirstFrom(names, name, 0)
  {
    hide HalvedFrom, Lower, FirstFrom, Key, Covers, SortedFrom;
    if i :| 0 <= i < |s| && Key(names, s[i]) == Lower(name) {
      var p, q := FindRun(names, s, name, i);
      AgreeAt(names, s, name, p, q);
    } else {
      NeitherFinds(names, s, name);
    }
  }

  /**
   Halving the index of an archive and scanning it find the same file, for every name, if and only if
   among the files whose names differ in case only halving comes upon the first one first.
   */
  lemma LookupsAgree(names: seq<FileName>)
    ensures AlwaysAgree(names, Index(names)) <==> AllLeast(names, Index(names))
  {
    hide HalvedFrom, Lower, Index, FirstFrom, Covers, SortedFrom, Run, Least;
    IndexFacts(names);
    var s := Index(names);
    if AllLeast(names, s) {
      forall name: Name | |name| < TWO32
        ensures HalvedFrom(names, s, Cut(name), 0, |s| - 1) == FirstFrom(names, name, 0)
      {
        LeastAgrees(names, s, name);
      }
    }
    if AlwaysAgree(names, s) {
      forall name: Name, p: nat, q: nat | Run(names, s, name, p, q)
        ensures p < q <= |s| && Least(s, p, q)
      {
        RunShort(names, s, name, p, q);
        AgreeAt(names, s, name, p, q);
      }
    }
  }

  lemma RunShort(names: seq<FileName>, s: seq<nat>, name: Name, p: nat, q: nat)
    requires Run(names, s, name, p, q)
    ensures p < q <= |s| && |name| < TWO32
  {
    assert |Key(names, s[p])| == |name|;
  }

  ghost predicate Distinct(names: seq<FileName>) {
    forall i, j :: 0 <= i < j < |names| ==> Lower(names[i]) != Lower(names[j])
  }

  /** When no two names differ in case only, they always agree. */
  lemma DistinctAgree(names: seq<FileName>)
    requires Distinct(names)
    ensures AlwaysAgree(names, Index(names))
  {
    hide Lower, Index, HalvedFrom, FirstFrom, Less;
    IndexFacts(names);
    var s := Index(names);
    forall name: Name, p: nat, q: nat | Run(names, s, name, p, q)
      ensures Least(s, p, q)
    {
      forall i, j | p <= i < q && p <= j < q
        ensures s[i] == s[j]
      {
        assert Key(names, s[i]) == Key(names, s[j]);
      }
    }
    LookupsAgree(names);
  }

  /** A name of 4 gigabytes or more is never found by scanning; halving looks for what is left of it. */
  lemma HugeNames(names: seq<FileName>, name: Name)
    requires |name| >= TWO32
    ensures FirstFrom(names, name, 0) == None
    ensures HalvedFrom(names, Index(names), Cut(name), 0, |names| - 1) == None <==>
      FirstFrom(names, Cut(name), 0) == None
  {
    hide Lower, Index, Less;
    IndexFacts(names);
    var s, key := Index(names), Cut(name);
    if i :| 0 <= i < |s| && Key(names, s[i]) == Lower(key) {
      var p, q := FindRun(names, s, key, i);
      HalvedLands(names, s, key, p, q, 0, |s| - 1);
      assert Bears(names, s[i], key);
    } else {
      NeitherFinds(names, s, key);
    }
  }

  /** In an archive of "a" and "A" halving finds the second and scanning the first. */
  lemma TwoCases()
    ensures var names: seq<FileName> := [[97], [65]];
      && Index(names) == [1, 0]
      && HalvedFrom(names, Index(names), [97], 0, 1) == Some(1) && FirstFrom(names, [97], 0) == Some(0)
  {
    var names: seq<FileName> := [[97], [65]];
    assert Lower(names[0]) == [97] && Lower(names[1]) == [97];
    assert Identity(2) == [0, 1];
    assert Key(names, 0) == Key(names, 1) == [97] && !Less([97], [97]);
    assert Sifted(names, [0, 1], 0, 2) == [0, 1];
    assert Heaped(names, [0, 1], 0) == [0, 1];
    assert Swapped([0, 1], 1, 0) == [1, 0];
    assert Sifted(names, [1, 0], 0, 1) == [1, 0];
  }

  lemma ThreeKeys(names: seq<FileName>)
    requires names == [[97], [65], [98]]
    ensures Key(names, 0) == Key(names, 1) == [97] && Key(names, 2) == [98]
    ensures Less([97], [98]) && !Less([97], [97]) && !Less([98], [97])
  {
    assert Lower(names[0]) == [97] && Lower(names[1]) == [97] && Lower(names[2]) == [98];
  }

  lemma ThreeSorted(names: seq<FileName>)
    requires names == [[97], [65], [98]]
    ensures Index(names) == [1, 0, 2]
  {
    ThreeKeys(names);
    hide Key, Less;
    assert Identity(3) == [0, 1, 2];
    assert Swapped([0, 1, 2], 0, 2) == [2, 1, 0];
    assert Sifted(names, [0, 1, 2], 0, 3) == [2, 1, 0];
    assert Heaped(names, [0, 1, 2], 0) == [2, 1, 0];
    assert Swapped([2, 1, 0], 2, 0) == [0, 1, 2];
    assert Sifted(names, [0, 1, 2], 0, 2) == [0, 1, 2];
    assert Swapped([0, 1, 2], 1, 0) == [1, 0, 2];
    assert Sifted(names, [1, 0, 2], 0, 1) == [1, 0, 2];
    assert Drained(names, [0, 1, 2], 1) == [1, 0, 2];
  }

  /** In an archive of "a", "A" and "b" they agree all the same. */
  lemma ThreeNames()
    ensures var names: seq<FileName> := [[97], [65], [98]];
      !Distinct(names) && Index(names) == [1, 0, 2] && AlwaysAgree(names, Index(names))
  {
    var names: seq<FileName> := [[97], [65], [98]];
    ThreeKeys(names);
    ThreeSorted(names);
    assert !Distinct(names) by { assert Lower(names[0]) == Lower(names[1]); }
    hide Index, Less, Key, Lower, Distinct;
    var s := [1, 0, 2];
    forall name: Name, p: nat, q: nat | Run(names, s, name, p, q)
      ensures Least(s, p, q)
    {
      assert Key(names, s[p]) == Lower(name) && Key(names, s[q - 1]) == Lower(name);
      assert q < 3 ==> Less(Lower(name), Key(names, s[q]));
      assert p > 0 ==> Less(Key(names, s[p - 1]), Lower(name));
      assert [97] != [98] by { assert [97][0] != [98][0]; }
      assert Landing(0, 2, 0, 2) == 1;
    }
    LookupsAgree(names);
  }
}

/** The two-pass least-significant-digit radix sort of symbol frequencies. */
module RadixSort {
  import opened SymFreqs

  const RADIX: nat := 256

  function Digit(x: SymFreq, pass: nat): nat {
    if pass == 0 then x.key % 256 else x.key / 256 % 256
  }

  /** The elements with a given digit, in order. */
  function WithDigit(s: seq<SymFreq>, pass: nat, d: nat): seq<SymFreq> {
    if s == [] then []
    else
      var rest := WithDigit(s[..|s| - 1], pass, d);
      if Digit(s[|s| - 1], pass) == d then rest + [s[|s| - 1]] else rest
  }

  /** The elements with a given key, in order. */
  function WithKey(s: seq<SymFreq>, k: nat): seq<SymFreq> {
    if s == [] then []
    else
      var rest := WithKey(s[..|s| - 1], k);
      if s[|s| - 1].key == k then rest + [s[|s| - 1]] else rest
  }

  /** The elements with digits below d, grouped by digit: what one pass of the sort produces for d = 256. */
  function Grouped(s: seq<SymFreq>, pass: nat, d: nat): seq<SymFreq> {
    if d == 0 then [] else Grouped(s, pass, d - 1) + WithDigit(s, pass, d - 1)
  }

  /** Sorted by key, with exactly the elements of s and those of equal key in their old order. */
  ghost predicate StablySorted(r: seq<SymFreq>, s: seq<SymFreq>) {
    && |r| == |s|
    && (forall i, j :: 0 <= i <= j < |r| ==> r[i].key <= r[j].key)
    && (forall k :: WithKey(r, k) == WithKey(s, k))
  }

  // ----- grouping keeps the elements of each key in order

  lemma {:induction false} WithKeyConcat(s: seq<SymFreq>, t: seq<SymFreq>, k: nat)
    ensures WithKey(s + t, k) == WithKey(s, k) + WithKey(t, k)
  {
    if t == [] {
      assert s + t == s;
    } else {
      var m := |t| - 1;
      WithKeyConcat(s, t[..m], k);
      assert (s + t)[..|s + t| - 1] == s + t[..m];
    }
  }

  lemma {:induction false} WithKeyOfDigit(s: seq<SymFreq>, pass: nat, d: nat, k: nat)
    ensures WithKey(WithDigit(s, pass, d), k) == if Digit(SymFreq(k, 0), pass) == d then WithKey(s, k) else []
  {
    if s == [] {
    } else {
      var m := |s| - 1;
      WithKeyOfDigit(s[..m], pass, d, k);
      var rest := WithDigit(s[..m], pass, d);
      if Digit(s[m], pass) == d {
        assert (rest + [s[m]])[..|rest + [s[m]]| - 1] == rest;
      }
    }
  }

  lemma {:induction false} WithKeyOfGrouped(s: seq<SymFreq>, pass: nat, d: nat, k: nat)
    ensures WithKey(Grouped(s, pass, d), k) == if Digit(SymFreq(k, 0), pass) < d then WithKey(s, k) else []
    decreases d
  {
    hide WithDigit, Digit;
    if d == 0 {
    } else {
      WithKeyOfGrouped(s, pass, d - 1, k);
      WithKeyOfDigit(s, pass, d - 1, k);
      WithKeyConcat(Grouped(s, pass, d - 1), WithDigit(s, pass, d - 1), k);
    }
  }

  // ----- lengths

  function Hist(s: seq<SymFreq>, pass: nat, d: nat): nat {
    |WithDigit(s, pass, d)|
  }

  lemma {:induction false} GroupedSnoc(s: seq<SymFreq>, x: SymFreq, pass: nat, d: nat)
    ensures |Grouped(s + [x], pass, d)| == |Grouped(s, pass, d)| + if Digit(x, pass) < d then 1 else 0
    decreases d
  {
    if d == 0 {
    } else {
      GroupedSnoc(s, x, pass, d - 1);
      assert (s + [x])[..|s + [x]| - 1] == s;
    }
  }

  lemma {:induction false} GroupedLength(s: seq<SymFreq>, pass: nat)
    ensures |Grouped(s, pass, RADIX)| == |s|
  {
    if s == [] {
      GroupedEmpty(pass, RADIX);
    } else {
      var m := |s| - 1;
      GroupedLength(s[..m], pass);
      GroupedSnoc(s[..m], s[m], pass, RADIX);
      assert s == s[..m] + [s[m]];
    }
  }

  lemma {:induction false} GroupedEmpty(pass: nat, d: nat)
    ensures Grouped([], pass, d) == []
  {
    if d == 0 {
    } else {
      GroupedEmpty(pass, d - 1);
    }
  }

  lemma {:induction false} GroupedPrefix(s: seq<SymFreq>, pass: nat, d: nat, e: nat)
    requires d <= e
    ensures |Grouped(s, pass, d)| <= |Grouped(s, pass, e)|
    ensures Grouped(s, pass, e)[..|Grouped(s, pass, d)|] == Grouped(s, pass, d)
    decreases e
  {
    if d >= e {
    } else {
      GroupedPrefix(s, pass, d, e - 1);
      var a, b := Grouped(s, pass, e - 1), WithDigit(s, pass, e - 1);
      assert (a + b)[..|Grouped(s, pass, d)|] == a[..|Grouped(s, pass, d)|];
    }
  }

  // ----- order

  /** In order of the low bytes alone. */
  ghost predicate LowSorted(s: seq<SymFreq>) {
    forall i, j :: 0 <= i <= j < |s| ==> s[i].key % 256 <= s[j].key % 256
  }

  ghost predicate AllDigit(s: seq<SymFreq>, pass: nat, d: nat) {
    forall i :: 0 <= i < |s| ==> Digit(s[i], pass) == d
  }

  lemma {:induction false} WithDigitIs(s: seq<SymFreq>, pass: nat, d: nat)
    ensures AllDigit(WithDigit(s, pass, d), pass, d)
    ensures forall x :: x in WithDigit(s, pass, d) ==> x in s
  {
    if s == [] {
    } else {
      WithDigitIs(s[..|s| - 1], pass, d);
    }
  }

  lemma {:induction false} WithDigitLowSorted(s: seq<SymFreq>, pass: nat, d: nat)
    requires LowSorted(s)
    ensures LowSorted(WithDigit(s, pass, d))
  {
    if s == [] {
    } else {
      var m := |s| - 1;
      WithDigitLowSorted(s[..m], pass, d);
      WithDigitIs(s[..m], pass, d);
      var rest := WithDigit(s[..m], pass, d);
      forall i | 0 <= i < |rest| ensures rest[i].key % 256 <= s[m].key % 256 {
        assert rest[i] in s[..m];
      }
    }
  }

  /** Digits below d, in order. */
  ghost predicate DigitSorted(s: seq<SymFreq>, pass: nat, d: nat) {
    && (forall i :: 0 <= i < |s| ==> Digit(s[i], pass) < d)
    && (forall i, j :: 0 <= i <= j < |s| ==> Digit(s[i], pass) <= Digit(s[j], pass))
  }

  lemma {:induction false} GroupedDigitSorted(s: seq<SymFreq>, pass: nat, d: nat)
    ensures DigitSorted(Grouped(s, pass, d), pass, d)
    decreases d
  {
    hide Digit, WithDigit;
    if d == 0 {
    } else {
      GroupedDigitSorted(s, pass, d - 1);
      WithDigitIs(s, pass, d - 1);
    }
  }

  /** Key order of sixteen-bit keys, as high byte then low byte. */
  ghost predicate KeySorted(s: seq<SymFreq>) {
    forall i, j :: 0 <= i <= j < |s| ==>
      s[i].key / 256 < s[j].key / 256 || (s[i].key / 256 == s[j].key / 256 && s[i].key % 256 <= s[j].key % 256)
  }

  ghost predicate Keys16(s: seq<SymFreq>) {
    forall x :: x in s ==> x.key < 65536
  }

  lemma {:induction false} GroupedKeySorted(s: seq<SymFreq>, d: nat)
    requires LowSorted(s) && Keys16(s) && d <= RADIX
    ensures KeySorted(Grouped(s, 1, d)) && forall x :: x in Grouped(s, 1, d) ==> x.key / 256 < d && x.key < 65536
    decreases d
  {
    if d == 0 {
    } else {
      GroupedKeySorted(s, d - 1);
      WithDigitLowSorted(s, 1, d - 1);
      WithDigitIs(s, 1, d - 1);
      KeySortedAppend(Grouped(s, 1, d - 1), WithDigit(s, 1, d - 1), d - 1);
    }
  }

  lemma KeySortedAppend(a: seq<SymFreq>, b: seq<SymFreq>, d: nat)
    requires KeySorted(a) && LowSorted(b) && Keys16(b) && AllDigit(b, 1, d)
    requires forall x :: x in a ==> x.key / 256 < d && x.key < 65536
    ensures KeySorted(a + b) && forall x :: x in a + b ==> x.key / 256 < d + 1 && x.key < 65536
  {
    forall i | 0 <= i < |b| ensures b[i].key / 256 == d {
      assert b[i] in b;
      assert Digit(b[i], 1) == d;
    }
    forall i, j | 0 <= i <= j < |a + b|
      ensures (a + b)[i].key / 256 < (a + b)[j].key / 256
           || ((a + b)[i].key / 256 == (a + b)[j].key / 256 && (a + b)[i].key % 256 <= (a + b)[j].key % 256)
    {
      if i < |a| {
        assert a[i] in a;
      }
    }
  }

  lemma SortedByKey(s: seq<SymFreq>)
    requires KeySorted(s)
    ensures forall i, j :: 0 <= i <= j < |s| ==> s[i].key <= s[j].key
  {
  }

  // ----- the counting and scattering loops

  function Base(s: seq<SymFreq>, pass: nat, d: nat): nat {
    |Grouped(s, pass, d)|
  }

  lemma WithDigitNext(s: seq<SymFreq>, i: nat, pass: nat, d: nat)
    requires i < |s|
    ensures WithDigit(s[..i + 1], pass, d) == WithDigit(s[..i], pass, d) + if Digit(s[i], pass) == d then [s[i]] else []
  {
    assert s[..i + 1][..i] == s[..i];
  }

  lemma {:induction false} HistMono(s: seq<SymFreq>, i: nat, j: nat, pass: nat, d: nat)
    requires i <= j <= |s|
    ensures Hist(s[..i], pass, d) <= Hist(s[..j], pass, d)
    decreases j
  {
    if i >= j {
    } else {
      HistMono(s, i, j - 1, pass, d);
      WithDigitNext(s, j - 1, pass, d);
    }
  }

  /** One half of the histogram array counts one byte of the keys. */
  ghost predicate HistAt(hist: seq<nat>, s: seq<SymFreq>, pass: nat) {
    |hist| == 512 && pass < 2 &&
      forall j :: 256 * pass <= j < 256 * pass + 256 ==> hist[j] == Hist(s, pass, j - 256 * pass)
  }

  /** The histograms of both bytes, in one pass over the symbols. */
  method Histograms(syms: array<SymFreq>, n: nat) returns (hist: array<nat>)
    requires n <= syms.Length
    ensures fresh(hist) && hist.Length == 512
    ensures HistAt(hist[..], syms[..n], 0) && HistAt(hist[..], syms[..n], 1)
  {
    hide WithDigit;
    hist := new nat[512](_ => 0);
    ghost var s := syms[..n];
    HistStart(hist[..], s);
    hide HistAt, Hist;
    for i := 0 to n
      invariant syms[..n] == s
      invariant HistAt(hist[..], s[..i], 0) && HistAt(hist[..], s[..i], 1)
    {
      HistStep(hist[..], s, i);
      ghost var h := hist[..];
      var freq := syms[i].key;
      hist[freq % 256] := hist[freq % 256] + 1;
      hist[256 + freq / 256 % 256] := hist[256 + freq / 256 % 256] + 1;
      assert hist[..] == Counted(h, s[i]);
    }
    assert s[..n] == s;
  }

  lemma HistStart(h: seq<nat>, s: seq<SymFreq>)
    requires |h| == 512 && forall j :: 0 <= j < 512 ==> h[j] == 0
    ensures HistAt(h, s[..0], 0) && HistAt(h, s[..0], 1)
  {
  }

  function Counted(h: seq<nat>, x: SymFreq): seq<nat>
    requires |h| == 512
  {
    var d, e := x.key % 256, 256 + x.key / 256 % 256;
    h[d := h[d] + 1][e := h[e] + 1]
  }

  lemma HistStep(h: seq<nat>, s: seq<SymFreq>, i: nat)
    requires i < |s| && HistAt(h, s[..i], 0) && HistAt(h, s[..i], 1)
    ensures HistAt(Counted(h, s[i]), s[..i + 1], 0) && HistAt(Counted(h, s[i]), s[..i + 1], 1)
  {
    HistStepPass(h, s, i, 0);
    HistStepPass(h, s, i, 1);
  }

  lemma HistStepPass(h: seq<nat>, s: seq<SymFreq>, i: nat, pass: nat)
    requires i < |s| && HistAt(h, s[..i], pass)
    ensures HistAt(Counted(h, s[i]), s[..i + 1], pass)
  {
    hide WithDigit;
    forall j | 256 * pass <= j < 256 * pass + 256
      ensures Counted(h, s[i])[j] == Hist(s[..i + 1], pass, j - 256 * pass)
    {
      WithDigitNext(s, i, pass, j - 256 * pass);
    }
  }

  /** The elements of digit d among the first i lie in order from the start of their group. */
  ghost predicate PlacedAt(t: seq<SymFreq>, s: seq<SymFreq>, i: nat, pass: nat, d: nat) {
    && i <= |s| == |t| && Base(s, pass, d) + Hist(s[..i], pass, d) <= |t|
    && t[Base(s, pass, d)..Base(s, pass, d) + Hist(s[..i], pass, d)] == WithDigit(s[..i], pass, d)
  }

  lemma BaseMono(s: seq<SymFreq>, pass: nat, d: nat, e: nat)
    requires d < e
    ensures Base(s, pass, d) + Hist(s, pass, d) <= Base(s, pass, e)
  {
    GroupedPrefix(s, pass, d + 1, e);
  }

  lemma PlaceNext(t: seq<SymFreq>, s: seq<SymFreq>, i: nat, pass: nat, d: nat, o: nat)
    requires i < |s| && d < RADIX && PlacedAt(t, s, i, pass, d)
    requires o == Base(s, pass, Digit(s[i], pass)) + Hist(s[..i], pass, Digit(s[i], pass)) < |t|
    ensures PlacedAt(t[o := s[i]], s, i + 1, pass, d)
  {
    hide Grouped, WithDigit, Digit;
    var d0, b := Digit(s[i], pass), Base(s, pass, d);
    var h := Hist(s[..i], pass, d);
    WithDigitNext(s, i, pass, d);
    HistMono(s, i + 1, |s|, pass, d);
    HistMono(s, i + 1, |s|, pass, d0);
    WithDigitNext(s, i, pass, d0);
    assert s[..|s|] == s;
    var u := t[o := s[i]];
    if d == d0 {
      assert u[b..b + h + 1] == t[b..b + h] + [s[i]];
    } else {
      if d < d0 {
        BaseMono(s, pass, d, d0);
      } else {
        BaseMono(s, pass, d0, d);
      }
      assert u[b..b + h] == t[b..b + h];
    }
  }

  lemma {:induction false} AllPlaced(t: seq<SymFreq>, s: seq<SymFreq>, pass: nat, d: nat)
    requires |t| == |s| && d <= RADIX && forall e :: 0 <= e < RADIX ==> PlacedAt(t, s, |s|, pass, e)
    ensures Base(s, pass, d) <= |t| && t[..Base(s, pass, d)] == Grouped(s, pass, d)
    decreases d
  {
    if d == 0 {
    } else {
      AllPlaced(t, s, pass, d - 1);
      assert PlacedAt(t, s, |s|, pass, d - 1);
      assert s[..|s|] == s;
      var b, c := Base(s, pass, d - 1), Base(s, pass, d);
      assert t[..c] == t[..b] + t[b..c];
    }
  }

  /** The start of every group. */
  method Offsets(hist: array<nat>, pass: nat, ghost s: seq<SymFreq>) returns (offsets: array<nat>)
    requires HistAt(hist[..], s, pass)
    ensures fresh(offsets) && offsets.Length == RADIX
    ensures forall d :: 0 <= d < RADIX ==> offsets[d] == Base(s, pass, d)
  {
    offsets := new nat[RADIX](_ => 0);
    var curOfs := 0;
    for i := 0 to RADIX
      invariant curOfs == Base(s, pass, i)
      invariant forall d :: 0 <= d < i ==> offsets[d] == Base(s, pass, d)
    {
      offsets[i] := curOfs;
      curOfs := curOfs + hist[256 * pass + i];
    }
  }

  ghost predicate Scattering(t: seq<SymFreq>, s: seq<SymFreq>, i: nat, pass: nat, offsets: seq<nat>) {
    && |offsets| == RADIX && |t| == |s| && i <= |s|
    && (forall d :: 0 <= d < RADIX ==> offsets[d] == Base(s, pass, d) + Hist(s[..i], pass, d))
    && (forall d :: 0 <= d < RADIX ==> PlacedAt(t, s, i, pass, d))
  }

  lemma ScatterStep(t: seq<SymFreq>, s: seq<SymFreq>, i: nat, pass: nat, offsets: seq<nat>)
    requires Scattering(t, s, i, pass, offsets) && i < |s|
    ensures Digit(s[i], pass) < RADIX && offsets[Digit(s[i], pass)] < |t|
    ensures Scattering(t[offsets[Digit(s[i], pass)] := s[i]], s, i + 1, pass,
      offsets[Digit(s[i], pass) := offsets[Digit(s[i], pass)] + 1])
  {
    var d0 := Digit(s[i], pass);
    var o := offsets[d0];
    assert o < |t| by {
      WithDigitNext(s, i, pass, d0);
      HistMono(s, i + 1, |s|, pass, d0);
      assert s[..|s|] == s;
      BaseMono(s, pass, d0, RADIX);
      GroupedLength(s, pass);
    }
    var u, i' := t[o := s[i]], i + 1;
    forall d | 0 <= d < RADIX ensures PlacedAt(u, s, i', pass, d) {
      PlaceNext(t, s, i, pass, d, o);
    }
    forall d ensures Hist(s[..i + 1], pass, d) == Hist(s[..i], pass, d) + if d0 == d then 1 else 0 {
      WithDigitNext(s, i, pass, d);
    }
  }

  lemma ScatterStart(t: seq<SymFreq>, s: seq<SymFreq>, pass: nat, offsets: seq<nat>)
    requires |t| == |s| && |offsets| == RADIX && forall d :: 0 <= d < RADIX ==> offsets[d] == Base(s, pass, d)
    ensures Scattering(t, s, 0, pass, offsets)
  {
    GroupedLength(s, pass);
    assert s[..0] == [];
    forall d | 0 <= d < RADIX ensures PlacedAt(t, s, 0, pass, d) {
      GroupedPrefix(s, pass, d, RADIX);
    }
  }

  /** One pass: a stable distribution of cur into dst by one byte of the key. */
  method Scatter(cur: array<SymFreq>, dst: array<SymFreq>, n: nat, hist: array<nat>, pass: nat)
    requires cur != dst && n <= cur.Length && n <= dst.Length && HistAt(hist[..], cur[..n], pass)
    modifies dst
    ensures dst[..n] == Grouped(cur[..n], pass, RADIX)
  {
    hide Grouped, WithDigit, Base, Hist, Scattering;
    ghost var s := cur[..n];
    var offsets := Offsets(hist, pass, s);
    ScatterStart(dst[..n], s, pass, offsets[..]);
    for i := 0 to n
      invariant cur[..n] == s
      invariant Scattering(dst[..n], s, i, pass, offsets[..])
    {
      ScatterStep(dst[..n], s, i, pass, offsets[..]);
      var d := if pass == 0 then cur[i].key % 256 else cur[i].key / 256 % 256;
      ghost var t, os := dst[..n], offsets[..];
      dst[offsets[d]] := cur[i];
      assert dst[..n] == t[os[d] := s[i]];
      offsets[d] := offsets[d] + 1;
      assert offsets[..] == os[d := os[d] + 1];
    }
    ScatterEnd(dst[..n], s, pass, offsets[..]);
  }

  lemma ScatterEnd(t: seq<SymFreq>, s: seq<SymFreq>, pass: nat, offsets: seq<nat>)
    requires Scattering(t, s, |s|, pass, offsets)
    ensures t == Grouped(s, pass, RADIX)
  {
    AllPlaced(t, s, pass, RADIX);
    GroupedLength(s, pass);
  }

  // ----- the sort

  lemma HighPassSkipped(s: seq<SymFreq>)
    requires Hist(s, 1, 0) == |s|
    ensures forall i :: 0 <= i < |s| ==> s[i].key / 256 % 256 == 0
  {
    if s != [] {
      var m := |s| - 1;
      HistAtMost(s[..m], 1, 0);
      HighPassSkipped(s[..m]);
    }
  }

  lemma {:induction false} HistAtMost(s: seq<SymFreq>, pass: nat, d: nat)
    ensures Hist(s, pass, d) <= |s|
  {
    if s == [] {
    } else {
      HistAtMost(s[..|s| - 1], pass, d);
    }
  }

  lemma {:induction false} GroupedMember(s: seq<SymFreq>, pass: nat, d: nat)
    ensures forall x :: x in Grouped(s, pass, d) ==> x in s
    decreases d
  {
    if d == 0 {
    } else {
      GroupedMember(s, pass, d - 1);
      WithDigitIs(s, pass, d - 1);
    }
  }

  lemma OnePassSorts(s: seq<SymFreq>)
    requires Keys16(s) && Hist(s, 1, 0) == |s|
    ensures StablySorted(Grouped(s, 0, RADIX), s)
  {
    hide Grouped, WithDigit, WithKey;
    var r := Grouped(s, 0, RADIX);
    HighPassSkipped(s);
    GroupedMember(s, 0, RADIX);
    GroupedDigitSorted(s, 0, RADIX);
    GroupedLength(s, 0);
    forall i | 0 <= i < |r| ensures r[i].key == Digit(r[i], 0) {
      assert r[i] in s;
    }
    forall k ensures WithKey(r, k) == WithKey(s, k) {
      WithKeyOfGrouped(s, 0, RADIX, k);
    }
  }

  lemma TwoPassesSort(s: seq<SymFreq>)
    requires Keys16(s)
    ensures StablySorted(Grouped(Grouped(s, 0, RADIX), 1, RADIX), s)
  {
    hide Grouped, WithDigit, WithKey;
    var t := Grouped(s, 0, RADIX);
    var r := Grouped(t, 1, RADIX);
    GroupedMember(s, 0, RADIX);
    GroupedDigitSorted(s, 0, RADIX);
    GroupedLength(s, 0);
    GroupedLength(t, 1);
    GroupedKeySorted(t, RADIX);
    SortedByKey(r);
    forall k ensures WithKey(r, k) == WithKey(s, k) {
      WithKeyOfGrouped(s, 0, RADIX, k);
      WithKeyOfGrouped(t, 1, RADIX, k);
    }
  }

  /** Grouping by one byte does not change the histogram of the other. */
  lemma {:induction false} HistGrouped(s: seq<SymFreq>, d: nat, pass: nat, e: nat)
    ensures Hist(Grouped(s, 0, d), pass, e) == CountBelow(s, d, pass, e)
    decreases d
  {
    if d == 0 {
      CountBelowZero(s, pass, e);
    } else {
      HistGrouped(s, d - 1, pass, e);
      HistConcat(Grouped(s, 0, d - 1), WithDigit(s, 0, d - 1), pass, e);
      CountBelowNext(s, d - 1, pass, e);
    }
  }

  /** How many elements have digit e and a low byte below d. */
  function CountBelow(s: seq<SymFreq>, d: nat, pass: nat, e: nat): nat {
    if s == [] then 0
    else
      CountBelow(s[..|s| - 1], d, pass, e)
        + if Digit(s[|s| - 1], 0) < d && Digit(s[|s| - 1], pass) == e then 1 else 0
  }

  lemma {:induction false} CountBelowZero(s: seq<SymFreq>, pass: nat, e: nat)
    ensures CountBelow(s, 0, pass, e) == 0
  {
    if s == [] {
    } else {
      CountBelowZero(s[..|s| - 1], pass, e);
    }
  }

  lemma {:induction false} CountBelowAll(s: seq<SymFreq>, pass: nat, e: nat)
    ensures CountBelow(s, RADIX, pass, e) == Hist(s, pass, e)
  {
    if s == [] {
    } else {
      CountBelowAll(s[..|s| - 1], pass, e);
    }
  }

  lemma {:induction false} HistConcat(s: seq<SymFreq>, t: seq<SymFreq>, pass: nat, e: nat)
    ensures Hist(s + t, pass, e) == Hist(s, pass, e) + Hist(t, pass, e)
  {
    if t == [] {
      assert s + t == s;
    } else {
      var m := |t| - 1;
      HistConcat(s, t[..m], pass, e);
      assert (s + t)[..|s + t| - 1] == s + t[..m];
    }
  }

  lemma {:induction false} CountBelowNext(s: seq<SymFreq>, d: nat, pass: nat, e: nat)
    ensures CountBelow(s, d + 1, pass, e) == CountBelow(s, d, pass, e) + Hist(WithDigit(s, 0, d), pass, e)
  {
    if s == [] {
    } else {
      var m := |s| - 1;
      CountBelowNext(s[..m], d, pass, e);
      var rest := WithDigit(s[..m], 0, d);
      if Digit(s[m], 0) == d {
        assert (rest + [s[m]])[..|rest + [s[m]]| - 1] == rest;
      }
    }
  }

  lemma HistOfPass(s: seq<SymFreq>, pass: nat, e: nat)
    ensures Hist(Grouped(s, 0, RADIX), pass, e) == Hist(s, pass, e)
  {
    HistGrouped(s, RADIX, pass, e);
    CountBelowAll(s, pass, e);
  }

  lemma HistKept(hist: seq<nat>, s: seq<SymFreq>)
    requires HistAt(hist, s, 1)
    ensures HistAt(hist, Grouped(s, 0, RADIX), 1)
  {
    hide Grouped, Hist;
    forall d: nat ensures Hist(Grouped(s, 0, RADIX), 1, d) == Hist(s, 1, d) {
      HistOfPass(s, 1, d);
    }
  }

  /** Sorts the first n symbols of syms0; the result is in one of the two buffers. */
  method RadixSortSyms(n: nat, syms0: array<SymFreq>, syms1: array<SymFreq>) returns (r: array<SymFreq>)
    requires syms0 != syms1 && n <= syms0.Length && n <= syms1.Length
    requires Keys16(syms0[..n])
    modifies syms0, syms1
    ensures (r == syms0 || r == syms1) && n <= r.Length
    ensures StablySorted(r[..n], old(syms0[..n]))
  {
    hide Grouped, WithDigit, StablySorted, WithKey, Keys16;
    ghost var s := syms0[..n];
    var hist := Histograms(syms0, n);
    var totalPasses := 2;
    while totalPasses > 1 && n == hist[(totalPasses - 1) * 256]
      invariant totalPasses == 2 || (totalPasses == 1 && hist[256] == n)
      decreases totalPasses
    {
      totalPasses := totalPasses - 1;
    }
    Scatter(syms0, syms1, n, hist, 0);
    r := syms1;
    if totalPasses == 1 {
      OnePassSorts(s);
    } else {
      HistKept(hist[..], s);
      Scatter(syms1, syms0, n, hist, 1);
      r := syms0;
      TwoPassesSort(s);
    }
  }

  // ----- a stable sort is a permutation

  lemma {:induction false} WithKeyCount(s: seq<SymFreq>, x: SymFreq)
    ensures multiset(WithKey(s, x.key))[x] == multiset(s)[x]
  {
    if s == [] {
    } else {
      var m := |s| - 1;
      WithKeyCount(s[..m], x);
      assert s == s[..m] + [s[m]];
    }
  }

  lemma StablySortedPermutation(r: seq<SymFreq>, s: seq<SymFreq>)
    requires StablySorted(r, s)
    ensures multiset(r) == multiset(s)
  {
    hide WithKey;
    forall x ensures multiset(r)[x] == multiset(s)[x] {
      WithKeyCount(r, x);
      WithKeyCount(s, x);
    }
  }
}

/** Reading the header of a dynamic block, with input that may end at any point. */
module HeaderReader {
  import opened Arith
  import opened Bits
  import opened Canonical
  import opened DecodeTable
  import opened Format
  import opened Blocks
  import opened BitReader
  import opened HuffDecode
  import opened Inflater
  import CL = CodeLengths

  const LEN_CODES: nat := 457

  type Lengths = Option<(nat, seq<nat>)>

  /** The places at which the inflater may be waiting, and the counts it knows there. */
  datatype Head =
    | HLit
    | HDist(nl: nat)
    | HCount(nl: nat, nd: nat)
    | HSize(nl: nat, nd: nat, n: nat, k: nat)
    | HLens(nl: nat, nd: nat, n: nat, k: nat, resumed: bool)
    | HRun(nl: nat, nd: nat, n: nat, k: nat, sym: nat)

  // ----- code lengths

  /** What the code lengths are once symbol s has been read. */
  ghost function LensAfter(cl: seq<nat>, bits: seq<bool>, p: nat, total: nat, lens: seq<nat>, s: nat): (r: Lengths)
    requires |cl| == 19 && s < 19
  {
    var x := Number(bits, p, CL.ExtraBits(s));
    if x.None? then None
    else
      Pow2Mono(CL.ExtraBits(s), 7);
      SmallPowers();
      var more := CL.Apply(lens, CL.Item(s, x.value));
      if more.None? then None else InflateLens(cl, bits, p + CL.ExtraBits(s), total, more.value)
  }

  lemma LensUnfold(cl: seq<nat>, bits: seq<bool>, pos: nat, total: nat, lens: seq<nat>)
    requires |cl| == 19
    ensures |lens| == total ==> InflateLens(cl, bits, pos, total, lens) == Some((pos, lens))
    ensures |lens| > total ==> InflateLens(cl, bits, pos, total, lens) == None
    ensures |lens| < total ==>
      var s := Symbol(cl, bits, pos);
      InflateLens(cl, bits, pos, total, lens) == if s.None? then None
        else LensAfter(cl, bits, pos + cl[s.value], total, lens, s.value)
  {
    hide Number, CL.Apply, Symbol, CL.ExtraBits, Pow2;
    Pow2Sevens();
  }

  lemma Pow2Sevens()
    ensures Pow2(7) == 128
  {
  }

  /** Sets n entries to one value. */
  method FillRun(a: array<nat>, from: nat, n: nat, v: nat)
    requires from + n <= a.Length
    modifies a
    ensures a[..from + n] == old(a[..from]) + CL.Repeat(v, n)
  {
    for i := from to from + n
      invariant a[..from] == old(a[..from]) && forall k :: from <= k < i ==> a[k] == v
    {
      a[i] := v;
    }
  }

  lemma RunFits(bits: seq<bool>, p: nat, sym: nat, x: nat)
    requires 16 <= sym < 19 && Number(bits, p, CL.ExtraBits(sym)) == Some(x)
    ensures x < 128 && x + (if sym == 18 then 11 else 3) <= 138
  {
    SmallPowers();
  }

  /** Code lengths are below 16. */
  ghost predicate SmallLens(s: seq<nat>) {
    forall i :: 0 <= i < |s| ==> s[i] < 16
  }

  /** Reads the length of a run and writes it; even the longest run at the last place stays inside the array. */
  method RunStep(r: Reader, lens: array<nat>, k: nat, sym: nat, ghost cl: seq<nat>, ghost total: nat)
    returns (st: Status, more: nat)
    requires r.Valid() && 16 <= sym < 19 && k < 320 && lens.Length == LEN_CODES && SmallLens(lens[..k]) && |cl| == 19
    modifies r`cur, r`bitBuf, r`numBits, lens
    ensures r.Valid() && r.Pos() >= old(r.Pos()) && st in {Going, Failed, NeedsInput} && more <= LEN_CODES
    ensures SmallLens(lens[..more])
    ensures st == Going ==> k < more && r.Pos() == old(r.Pos()) + CL.ExtraBits(sym)
    ensures st == Going ==>
      LensAfter(cl, BytesToBits(r.all), old(r.Pos()), total, old(lens[..k]), sym)
        == InflateLens(cl, BytesToBits(r.all), r.Pos(), total, lens[..more])
    ensures st == Failed ==> LensAfter(cl, BytesToBits(r.all), old(r.Pos()), total, old(lens[..k]), sym) == None
    ensures st != Going ==> more == k
    ensures st == NeedsInput ==>
      && r.Pos() == old(r.Pos()) && lens[..k] == old(lens[..k]) && r.cur == |r.piece|
      && r.Pos() + CL.ExtraBits(sym) > r.End()
  {
    hide BytesToBits, Number, Buffered, InflateLens;
    ghost var was := lens[..k];
    more := k;
    if sym == 16 && k == 0 {
      return Failed, k;
    }
    var ok, x := r.GetBits(CL.ExtraBits(sym));
    if !ok {
      return NeedsInput, k;
    }
    var v := if sym == 16 then lens[k - 1] else 0;
    RunFits(BytesToBits(r.all), r.Pos() - CL.ExtraBits(sym), sym, x);
    var run := x + (if sym == 18 then 11 else 3);
    FillRun(lens, k, run, v);
    more, st := k + run, Going;
    forall i | 0 <= i < more ensures lens[i] < 16 {
      assert lens[i] == lens[..more][i] == (was + CL.Repeat(v, run))[i];
    }
  }

  /** Reads the next symbol of the code lengths, and stores it if it is a length. */
  method LensStep(r: Reader, t: HuffTable, lens: array<nat>, k: nat, resumed: bool, ghost total: nat)
    returns (st: Status, sym: nat, more: nat, ghost stray: bool)
    requires r.Valid() && t.Usable() && |t.lens| == 19 && k < total <= 320 && lens.Length == LEN_CODES
    requires SmallLens(lens[..k])
    modifies r`cur, r`bitBuf, r`numBits, lens
    ensures r.Valid() && r.Pos() >= old(r.Pos()) && st in {Going, NeedsInput} && k <= more <= LEN_CODES
    ensures SmallLens(lens[..more])
    ensures st == Going && sym >= 16 ==> r.Pos() > old(r.Pos())
    ensures st == Going ==>
      sym < 19 && more == (if sym < 16 then k + 1 else k) && (sym >= 16 ==> lens[..k] == old(lens[..k]))
    ensures st == Going && !stray ==>
      InflateLens(t.lens, BytesToBits(r.all), old(r.Pos()), total, old(lens[..k])) ==
        if sym < 16 then InflateLens(t.lens, BytesToBits(r.all), r.Pos(), total, lens[..more])
        else LensAfter(t.lens, BytesToBits(r.all), r.Pos(), total, lens[..k], sym)
    ensures stray ==> InflateLens(t.lens, BytesToBits(r.all), old(r.Pos()), total, old(lens[..k])) == None
    ensures st == NeedsInput ==>
      && !stray && more == k && r.Pos() == old(r.Pos()) && lens[..k] == old(lens[..k]) && r.cur == |r.piece|
      && NoneYet(t.lens, BytesToBits(r.all), r.Pos(), r.End())
    ensures st == Going && !stray && NoneYet(t.lens, BytesToBits(r.all), old(r.Pos()), 8 * r.before) ==>
      r.Pos() > 8 * r.before
  {
    hide BytesToBits, Ready, At, CodeWord, Number, Buffered, InflateLens, Coded;
    ReadyFacts(t.lk[..], t.tr[..], t.nodes, t.lens);
    ghost var bits, pos, was := BytesToBits(r.all), r.Pos(), lens[..k];
    LensUnfold(t.lens, bits, pos, total, was);
    var ok;
    more, stray := k, false;
    ok, sym := Decode(r, t, resumed);
    if !ok {
      return NeedsInput, sym, k, false;
    }
    SymbolCase(t.lens, bits, pos, sym, r.Pos());
    st, stray := Going, !Begins(t.lens, bits, pos, sym);
    if sym < 16 {
      NoExtra(t.lens, bits, r.Pos(), total, was, sym);
      lens[k] := sym;
      more := k + 1;
      assert lens[..more] == was + [sym];
    }
  }

  lemma NoExtra(cl: seq<nat>, bits: seq<bool>, p: nat, total: nat, lens: seq<nat>, s: nat)
    requires |cl| == 19 && s < 16
    ensures p <= |bits| ==> LensAfter(cl, bits, p, total, lens, s) == InflateLens(cl, bits, p, total, lens + [s])
  {
    hide InflateLens;
  }

  // ----- the whole header

  ghost predicate CountsAt(bits: seq<bool>, q: nat, nl: nat, nd: nat, n: nat) {
    && 257 <= nl <= 288 && 1 <= nd <= 32 && 4 <= n <= 19
    && Number(bits, q, 5) == Some(nl - 257) && Number(bits, q + 5, 5) == Some(nd - 1)
    && Number(bits, q + 10, 4) == Some(n - 4)
  }

  /** The first k of the sizes have been read. */
  ghost predicate SizesRead(bits: seq<bool>, p: nat, k: nat, sizes: seq<nat>) {
    && |sizes| == 19
    && (forall s :: 0 <= s < 19 && Zag(s) < k ==> Number(bits, p + 3 * Zag(s), 3) == Some(sizes[s]))
    && (forall s :: 0 <= s < 19 && Zag(s) >= k ==> sizes[s] == 0)
  }

  /** What the lengths of a header make of its tables. */
  ghost function TablesOf(nl: nat, nd: nat, r: Lengths): (t: Option<(nat, seq<nat>, seq<nat>)>)
    requires r.Some? ==> |r.value.1| == nl + nd
  {
    if r.None? || !Accepted(r.value.1[nl..]) || !Accepted(r.value.1[..nl]) then None
    else Some((r.value.0, r.value.1[..nl], r.value.1[nl..]))
  }

  lemma TablesUnfold(bits: seq<bool>, q: nat, nl: nat, nd: nat, n: nat)
    requires CountsAt(bits, q, nl, nd, n)
    ensures q + 14 + 3 * n > |bits| ==> DynamicTables(bits, q) == None
    ensures q + 14 + 3 * n <= |bits| ==>
      var cl := SizeCodes(bits, q + 14, n);
      DynamicTables(bits, q) == if !Accepted(cl) then None
        else TablesOf(nl, nd, InflateLens(cl, bits, q + 14 + 3 * n, nl + nd, []))
  {
    hide Number, SizeCodes, InflateLens, Accepted, Pow2;
  }

  /** The header that begins at q has been read up to pos. */
  ghost predicate HeadOK(h: Head, q: nat, bits: seq<bool>, pos: int, sizes: seq<nat>, cl: seq<nat>, lens: seq<nat>) {
    match h
    case HLit => pos == q
    case HDist(nl) => pos == q + 5 && 257 <= nl <= 288 && Number(bits, q, 5) == Some(nl - 257)
    case HCount(nl, nd) =>
      && pos == q + 10 && 257 <= nl <= 288 && 1 <= nd <= 32
      && Number(bits, q, 5) == Some(nl - 257) && Number(bits, q + 5, 5) == Some(nd - 1)
    case HSize(nl, nd, n, k) =>
      && CountsAt(bits, q, nl, nd, n) && k <= n && pos == q + 14 + 3 * k
      && SizesRead(bits, q + 14, k, sizes)
    case HLens(nl, nd, n, k, _) =>
      && LensOK(q, bits, cl, nl, nd, n) && 0 <= pos && k <= |lens|
      && LensStart(q, bits, cl, nl, nd, n) == InflateLens(cl, bits, pos, nl + nd, lens[..k])
    case HRun(nl, nd, n, k, sym) =>
      && LensOK(q, bits, cl, nl, nd, n) && 0 <= pos && k <= |lens| && sym < 19
      && LensStart(q, bits, cl, nl, nd, n) == LensAfter(cl, bits, pos, nl + nd, lens[..k], sym)
  }

  ghost predicate LensOK(q: nat, bits: seq<bool>, cl: seq<nat>, nl: nat, nd: nat, n: nat) {
    CountsAt(bits, q, nl, nd, n) && q + 14 + 3 * n <= |bits| && cl == SizeCodes(bits, q + 14, n) && Accepted(cl)
  }

  ghost function LensStart(q: nat, bits: seq<bool>, cl: seq<nat>, nl: nat, nd: nat, n: nat): (r: Lengths)
    requires |cl| == 19
    ensures r.Some? ==> |r.value.1| == nl + nd
  {
    InflateLens(cl, bits, q + 14 + 3 * n, nl + nd, [])
  }

  /** What is being read at pos goes beyond limit. */
  ghost predicate HeadBeyond(h: Head, cl: seq<nat>, bits: seq<bool>, pos: int, limit: int) {
    match h
    case HLit => pos + 5 > limit
    case HDist(_) => pos + 5 > limit
    case HCount(_, _) => pos + 4 > limit
    case HSize(_, _, n, k) => k < n && pos + 3 > limit
    case HLens(nl, nd, _, k, _) => 0 <= pos && k < nl + nd && NoneYet(cl, bits, pos, limit)
    case HRun(_, _, _, _, sym) => pos + CL.ExtraBits(sym) > limit
  }

  /** If that is the end of all input, the header is not complete. */
  lemma HeadBeyondAll(h: Head, q: nat, bits: seq<bool>, pos: int, sizes: seq<nat>, cl: seq<nat>, lens: seq<nat>)
    requires HeadOK(h, q, bits, pos, sizes, cl, lens) && HeadBeyond(h, cl, bits, pos, |bits|)
    ensures DynamicTables(bits, q) == None
  {
    hide SizeCodes, InflateLens, Accepted, Pow2, CodeWord, Zag, CL.Apply;
    match h
    case HSize(nl, nd, n, k) => TablesUnfold(bits, q, nl, nd, n);
    case HLens(nl, nd, n, k, _) =>
      TablesUnfold(bits, q, nl, nd, n);
      LensUnfold(cl, bits, pos, nl + nd, lens[..k]);
      NoSymbol(cl, bits, pos);
    case HRun(nl, nd, n, k, sym) => TablesUnfold(bits, q, nl, nd, n);
    case _ =>
  }

  ghost predicate TableShape(t: HuffTable) {
    t.codeSize.Length == 288 && t.lk.Length == FAST_SIZE && t.tr.Length == TREE_SIZE && t.lk != t.tr
  }

  /** What holds of every header, good or bad. */
  ghost predicate HeadShape(h: Head, t: HuffTable, lens: array<nat>)
    reads t, t.codeSize, t.lk, t.tr, lens
  {
    && TableShape(t) && lens.Length == LEN_CODES && lens != t.codeSize
    && match h
       case HLit => true
       case HDist(nl) => 257 <= nl <= 288
       case HCount(nl, nd) => 257 <= nl <= 288 && 1 <= nd <= 32
       case HSize(nl, nd, n, k) => 257 <= nl <= 288 && 1 <= nd <= 32 && k <= n <= 19 && ValidLens(t.codeSize[..19], 7)
       case HLens(nl, nd, n, k, _) =>
         && 257 <= nl <= 288 && 1 <= nd <= 32 && k <= LEN_CODES
         && SmallLens(lens[..k]) && t.Usable() && |t.lens| == 19
       case HRun(nl, nd, n, k, sym) =>
         && 257 <= nl <= 288 && 1 <= nd <= 32 && k < nl + nd && 16 <= sym < 19
         && SmallLens(lens[..k]) && t.Usable() && |t.lens| == 19
  }

  /** Reads the three counts. */
  method CountStep(r: Reader, h: Head) returns (ok: bool, v: nat)
    requires r.Valid() && (h.HLit? || h.HDist? || h.HCount?)
    modifies r`cur, r`bitBuf, r`numBits
    ensures r.Valid() && r.Pos() >= old(r.Pos())
    ensures ok ==> r.Pos() == old(r.Pos()) + (if h.HCount? then 4 else 5) && v < (if h.HCount? then 16 else 32)
    ensures ok ==> Number(BytesToBits(r.all), old(r.Pos()), if h.HCount? then 4 else 5) == Some(v)
    ensures !ok ==> r.Pos() == old(r.Pos()) && r.cur == |r.piece| && r.Pos() + (if h.HCount? then 4 else 5) > r.End()
  {
    hide BytesToBits, Number, Buffered, Pow2;
    SmallPowers();
    ok, v := r.GetBits(if h.HCount? then 4 else 5);
  }

  /** Clears the sizes of the code length code. */
  method ClearSizes(t: HuffTable)
    requires t.codeSize.Length == 288
    modifies t.codeSize
    ensures forall i :: 0 <= i < 288 ==> t.codeSize[i] == 0
  {
    for i := 0 to 288
      invariant forall j :: 0 <= j < i ==> t.codeSize[j] == 0
    {
      t.codeSize[i] := 0;
    }
  }

  lemma NoSizes(bits: seq<bool>, p: nat, sizes: seq<nat>)
    requires |sizes| == 19 && forall s :: 0 <= s < 19 ==> sizes[s] == 0
    ensures SizesRead(bits, p, 0, sizes) && ValidLens(sizes, 7)
  {
  }

  lemma OneZig(i: nat)
    requires i < 19
    ensures forall s :: 0 <= s < 19 && Zag(s) == i ==> s == Zig(i)
  {
    forall s | 0 <= s < 19 && Zag(s) == i ensures s == Zig(i) {
      ZigZag(s);
    }
  }

  lemma SizesMore(bits: seq<bool>, p: nat, k: nat, sizes: seq<nat>, v: nat)
    requires k < 19 && |sizes| == 19 && Number(bits, p + 3 * k, 3) == Some(v) && v < 8
    ensures SizesRead(bits, p, k, sizes) ==> SizesRead(bits, p, k + 1, sizes[Zig(k) := v])
    ensures ValidLens(sizes, 7) ==> ValidLens(sizes[Zig(k) := v], 7)
  {
    hide Zag, Number;
    OneZig(k);
    assert Zag(Zig(k)) == k;
  }

  lemma SizesAre(bits: seq<bool>, p: nat, n: nat, sizes: seq<nat>)
    requires n <= 19 && p + 3 * n <= |bits| && SizesRead(bits, p, n, sizes)
    ensures sizes == SizeCodes(bits, p, n)
  {
    hide Zag;
  }

  /** Reads one size of the code length code. */
  method SizeStep(r: Reader, t: HuffTable, k: nat, ghost p: nat) returns (ok: bool)
    requires r.Valid() && TableShape(t) && k < 19 && ValidLens(t.codeSize[..19], 7)
    modifies r`cur, r`bitBuf, r`numBits, t.codeSize
    ensures r.Valid() && r.Pos() >= old(r.Pos()) && ValidLens(t.codeSize[..19], 7)
    ensures ok ==> r.Pos() == old(r.Pos()) + 3
    ensures ok && old(r.Pos()) == p + 3 * k && SizesRead(BytesToBits(r.all), p, k, old(t.codeSize[..19])) ==>
      SizesRead(BytesToBits(r.all), p, k + 1, t.codeSize[..19])
    ensures !ok ==>
      r.Pos() == old(r.Pos()) && r.cur == |r.piece| && r.Pos() + 3 > r.End() && t.codeSize[..] == old(t.codeSize[..])
  {
    hide BytesToBits, Number, Buffered, Pow2, Zig, ValidLens, SizesRead;
    SmallPowers();
    var v;
    ok, v := r.GetBits(3);
    if ok {
      ghost var was := t.codeSize[..19];
      if r.Pos() == p + 3 * k + 3 {
        SizesMore(BytesToBits(r.all), p, k, was, v);
      }
      SizeKept(was, k, v);
      t.codeSize[Zig(k)] := v;
      assert t.codeSize[..19] == was[Zig(k) := v];
    }
  }

  lemma SizeKept(sizes: seq<nat>, k: nat, v: nat)
    requires k < 19 && |sizes| == 19 && v < 8
    ensures ValidLens(sizes, 7) ==> ValidLens(sizes[Zig(k) := v], 7)
  {
    hide Zig;
  }

  // ----- the machine

  function HeadRank(h: Head): nat {
    if h.HLens? then (if h.k <= 1000 then 1000 - h.k else 0) else 2000
  }

  /** The header as far as it has been read, given the tables and arrays it has been read into. */
  ghost predicate ReadTo(r: Reader, t: HuffTable, lens: array<nat>, h: Head, q: nat)
    reads r, t, t.codeSize, lens
  {
    t.codeSize.Length == 288 && HeadOK(h, q, BytesToBits(r.all), r.Pos(), t.codeSize[..19], t.lens, lens[..])
  }

  /** The counts and the sizes of the code length code. */
  method FrontStep(r: Reader, t: HuffTable, lens: array<nat>, h: Head, ghost q: nat) returns (st: Status, h': Head)
    requires r.Valid() && HeadShape(h, t, lens) && (h.HLit? || h.HDist? || h.HCount? || (h.HSize? && h.k < h.n))
    modifies r`cur, r`bitBuf, r`numBits, t.codeSize
    ensures r.Valid() && HeadShape(h', t, lens) && r.Pos() >= old(r.Pos()) && st in {Going, NeedsInput}
    ensures st == Going ==>
      && r.Pos() > old(r.Pos())
      && (old(HeadBeyond(h, t.lens, BytesToBits(r.all), r.Pos(), 8 * r.before)) ==> r.Pos() > 8 * r.before)
    ensures old(ReadTo(r, t, lens, h, q)) ==> ReadTo(r, t, lens, h', q)
    ensures st == NeedsInput ==>
      && h' == h && r.Pos() == old(r.Pos()) && r.cur == |r.piece|
      && HeadBeyond(h', t.lens, BytesToBits(r.all), r.Pos(), r.End())
  {
    hide BytesToBits, Number, Buffered, Zag, ValidLens, SizesRead, Ready;
    if h.HSize? {
      var ok := SizeStep(r, t, h.k, q + 14);
      st, h' := if ok then Going else NeedsInput, if ok then HSize(h.nl, h.nd, h.n, h.k + 1) else h;
    } else {
      var ok, v := CountStep(r, h);
      if !ok {
        return NeedsInput, h;
      }
      st := Going;
      match h {
        case HLit => h' := HDist(v + 257);
        case HDist(nl) => h' := HCount(nl, v + 1);
        case HCount(nl, nd) =>
          ClearSizes(t);
          NoSizes(BytesToBits(r.all), q + 14, t.codeSize[..19]);
          h' := HSize(nl, nd, v + 4, 0);
      }
    }
  }

  /** Builds the table of the code length code. */
  method BuildSizes(r: Reader, t: HuffTable, lens: array<nat>, h: Head, ghost q: nat) returns (st: Status, h': Head)
    requires r.Valid() && HeadShape(h, t, lens) && h.HSize? && h.k == h.n
    modifies t, t.lk, t.tr
    ensures HeadShape(h', t, lens) && st in {Going, Failed} && (st == Going ==> h' == HLens(h.nl, h.nd, h.n, 0, false))
    ensures old(ReadTo(r, t, lens, h, q)) ==>
      if st == Failed then DynamicTables(BytesToBits(r.all), q) == None else ReadTo(r, t, lens, h', q)
  {
    hide BytesToBits, Number, Buffered, Zag, Ready, Accepted, SizeCodes, InflateLens, SizesRead, DynamicTables;
    ghost var bits, sizes := BytesToBits(r.all), t.codeSize[..19];
    ghost var good := ReadTo(r, t, lens, h, q);
    if good {
      r.InBounds();
      TablesUnfold(bits, q, h.nl, h.nd, h.n);
      SizesAre(bits, q + 14, h.n, sizes);
    }
    ShorterLens(sizes);
    var ok := t.Build(19);
    if !ok {
      return Failed, h;
    }
    st, h' := Going, HLens(h.nl, h.nd, h.n, 0, false);
    assert lens[..][..0] == [];
  }

  lemma ShorterLens(lens: seq<nat>)
    ensures ValidLens(lens, 7) ==> ValidLens(lens, MAX_BITS)
  {
  }

  /** The lengths read so far say what the header says. */
  lemma LensKnown(q: nat, bits: seq<bool>, cl: seq<nat>, nl: nat, nd: nat, n: nat)
    requires LensOK(q, bits, cl, nl, nd, n)
    ensures |cl| == 19 && DynamicTables(bits, q) == TablesOf(nl, nd, LensStart(q, bits, cl, nl, nd, n))
  {
    hide Number, SizeCodes, InflateLens, Accepted, DynamicTables;
    TablesUnfold(bits, q, nl, nd, n);
  }

  /** The next symbol of the code lengths. */
  method SymbolStep(r: Reader, t: HuffTable, lens: array<nat>, h: Head, ghost q: nat)
    returns (st: Status, h': Head, ghost stray: bool)
    requires r.Valid() && HeadShape(h, t, lens) && h.HLens? && h.k < h.nl + h.nd
    modifies r`cur, r`bitBuf, r`numBits, lens
    ensures r.Valid() && HeadShape(h', t, lens) && r.Pos() >= old(r.Pos()) && st in {Going, NeedsInput}
    ensures st == Going ==> r.Pos() > old(r.Pos()) || HeadRank(h') < HeadRank(h)
    ensures st == Going && !stray && old(HeadBeyond(h, t.lens, BytesToBits(r.all), r.Pos(), 8 * r.before)) ==>
      r.Pos() > 8 * r.before
    ensures old(ReadTo(r, t, lens, h, q)) ==>
      if stray then DynamicTables(BytesToBits(r.all), q) == None else ReadTo(r, t, lens, h', q)
    ensures st == NeedsInput ==>
      && !stray && r.Pos() == old(r.Pos()) && r.cur == |r.piece|
      && HeadBeyond(h', t.lens, BytesToBits(r.all), r.Pos(), r.End())
  {
    hide BytesToBits, Buffered, Ready, LensOK, InflateLens, LensAfter, DynamicTables, NoneYet;
    ghost var total := h.nl + h.nd;
    ghost var was := lens[..];
    assert was[..h.k] == lens[..h.k];
    if ReadTo(r, t, lens, h, q) {
      LensKnown(q, BytesToBits(r.all), t.lens, h.nl, h.nd, h.n);
    }
    var sym, more;
    st, sym, more, stray := LensStep(r, t, lens, h.k, h.resumed, total);
    assert lens[..][..more] == lens[..more];
    if st == NeedsInput {
      h' := HLens(h.nl, h.nd, h.n, h.k, true);
    } else if sym < 16 {
      h' := HLens(h.nl, h.nd, h.n, more, false);
    } else {
      h' := HRun(h.nl, h.nd, h.n, h.k, sym);
    }
  }

  /** A run of code lengths. */
  method RepeatStep(r: Reader, t: HuffTable, lens: array<nat>, h: Head, ghost q: nat) returns (st: Status, h': Head)
    requires r.Valid() && HeadShape(h, t, lens) && h.HRun?
    modifies r`cur, r`bitBuf, r`numBits, lens
    ensures r.Valid() && HeadShape(h', t, lens) && r.Pos() >= old(r.Pos()) && st in {Going, Failed, NeedsInput}
    ensures st == Going ==> h'.HLens?
    ensures st == Going && old(HeadBeyond(h, t.lens, BytesToBits(r.all), r.Pos(), 8 * r.before)) ==>
      r.Pos() > 8 * r.before
    ensures old(ReadTo(r, t, lens, h, q)) ==>
      if st == Failed then DynamicTables(BytesToBits(r.all), q) == None else ReadTo(r, t, lens, h', q)
    ensures st == NeedsInput ==>
      r.Pos() == old(r.Pos()) && r.cur == |r.piece| && HeadBeyond(h', t.lens, BytesToBits(r.all), r.Pos(), r.End())
  {
    hide BytesToBits, Buffered, Ready, LensOK, InflateLens, LensAfter, DynamicTables, NoneYet;
    ghost var was := lens[..];
    assert was[..h.k] == lens[..h.k];
    if ReadTo(r, t, lens, h, q) {
      LensKnown(q, BytesToBits(r.all), t.lens, h.nl, h.nd, h.n);
    }
    var more;
    st, more := RunStep(r, lens, h.k, h.sym, t.lens, h.nl + h.nd);
    assert lens[..][..more] == lens[..more];
    h' := if st == Going then HLens(h.nl, h.nd, h.n, more, false) else h;
  }

  /** One step, from one place at which the inflater may wait to the next. */
  method HeadStep(r: Reader, t: HuffTable, lens: array<nat>, h: Head, ghost q: nat)
    returns (st: Status, h': Head, ghost stray: bool)
    requires r.Valid() && HeadShape(h, t, lens)
    modifies r`cur, r`bitBuf, r`numBits, t, t.codeSize, t.lk, t.tr, lens
    ensures r.Valid() && HeadShape(h', t, lens) && r.Pos() >= old(r.Pos()) && st in {Going, Done, Failed, NeedsInput}
    ensures st == Going ==> r.Pos() > old(r.Pos()) || HeadRank(h') < HeadRank(h)
    ensures st == Done ==> h' == h && h.HLens? && h.k == h.nl + h.nd
    ensures st == Going && !stray && old(HeadBeyond(h, t.lens, BytesToBits(r.all), r.Pos(), 8 * r.before)) ==>
      r.Pos() > 8 * r.before
    ensures old(ReadTo(r, t, lens, h, q)) ==>
      if stray || st == Failed then DynamicTables(BytesToBits(r.all), q) == None else ReadTo(r, t, lens, h', q)
    ensures st == NeedsInput ==>
      && !stray && r.Pos() == old(r.Pos()) && r.cur == |r.piece|
      && HeadBeyond(h', t.lens, BytesToBits(r.all), r.Pos(), r.End())
  {
    hide BytesToBits, Buffered, HeadOK, DynamicTables, NoneYet, Ready;
    stray := false;
    if h.HSize? && h.k == h.n {
      st, h' := BuildSizes(r, t, lens, h, q);
    } else if h.HRun? {
      st, h' := RepeatStep(r, t, lens, h, q);
    } else if !h.HLens? {
      st, h' := FrontStep(r, t, lens, h, q);
    } else if h.k < h.nl + h.nd {
      st, h', stray := SymbolStep(r, t, lens, h, q);
    } else {
      st, h' := if h.k == h.nl + h.nd then Done else Failed, h;
      if ReadTo(r, t, lens, h, q) {
        LensOver(q, BytesToBits(r.all), t.lens, h, r.Pos(), t.codeSize[..19], lens[..]);
      }
    }
  }

  /** Once there are enough lengths. */
  lemma LensOver(q: nat, bits: seq<bool>, cl: seq<nat>, h: Head, pos: int, sizes: seq<nat>, lens: seq<nat>)
    requires HeadOK(h, q, bits, pos, sizes, cl, lens) && h.HLens? && h.k >= h.nl + h.nd
    ensures h.k > h.nl + h.nd ==> DynamicTables(bits, q) == None
    ensures h.k == h.nl + h.nd ==>
      0 <= pos && h.k <= |lens| && DynamicTables(bits, q) == TablesOf(h.nl, h.nd, Some((pos, lens[..h.k])))
  {
    hide InflateLens, DynamicTables, LensOK;
    LensKnown(q, bits, cl, h.nl, h.nd, h.n);
    LensUnfold(cl, bits, pos, h.nl + h.nd, lens[..h.k]);
  }

  // ----- the tables of the block

  method SetSizes(t: HuffTable, lens: array<nat>, from: nat, n: nat)
    requires n <= 288 == t.codeSize.Length && from + n <= lens.Length && t.codeSize != lens
    modifies t.codeSize
    ensures t.codeSize[..n] == lens[from..from + n]
  {
    for i := 0 to n
      invariant forall j :: 0 <= j < i ==> t.codeSize[j] == lens[from + j]
    {
      t.codeSize[i] := lens[from + i];
    }
  }

  /** Two tables have nothing in common. */
  ghost predicate Apart(t: HuffTable, u: HuffTable) {
    t != u && t.codeSize != u.codeSize && t.lk != u.lk && t.lk != u.tr && t.tr != u.lk && t.tr != u.tr
  }

  /** The three tables and the lengths have nothing in common. */
  ghost predicate Separate(t0: HuffTable, t1: HuffTable, t2: HuffTable, lens: array<nat>) {
    && TableShape(t0) && TableShape(t1) && TableShape(t2) && lens.Length == LEN_CODES
    && lens != t0.codeSize && lens != t1.codeSize && lens != t2.codeSize
    && Apart(t0, t1) && Apart(t0, t2) && Apart(t1, t2)
  }

  /** Builds the distance and the literal/length table from the lengths read, in that order. */
  method BuildBoth(t0: HuffTable, t1: HuffTable, t2: HuffTable, lens: array<nat>, numLit: nat, numDist: nat)
    returns (ok: bool)
    requires Separate(t0, t1, t2, lens) && numLit <= 288 && numDist <= 32 && SmallLens(lens[..numLit + numDist])
    modifies t0, t0.codeSize, t0.lk, t0.tr, t1, t1.codeSize, t1.lk, t1.tr
    ensures ok <==> Accepted(lens[..numLit]) && Accepted(lens[numLit..numLit + numDist])
    ensures ok ==> Tables(t0, t1) && t0.lens == lens[..numLit] && t1.lens == lens[numLit..numLit + numDist]
  {
    hide Accepted, Ready;
    SetSizes(t0, lens, 0, numLit);
    SetSizes(t1, lens, numLit, numDist);
    assert lens[0..numLit] == lens[..numLit];
    assert forall i :: 0 <= i < numLit + numDist ==> lens[i] == lens[..numLit + numDist][i];
    ok := t1.Build(numDist);
    if ok {
      ok := t0.Build(numLit);
    }
  }

  /** Once every length has been read the tables are built. */
  method FinishHead(r: Reader, t0: HuffTable, t1: HuffTable, t2: HuffTable, lens: array<nat>, h: Head, ghost q: nat)
    returns (st: Status)
    requires r.Valid() && Separate(t0, t1, t2, lens) && HeadShape(h, t2, lens) && h.HLens? && h.k == h.nl + h.nd
    modifies t0, t0.codeSize, t0.lk, t0.tr, t1, t1.codeSize, t1.lk, t1.tr
    ensures st in {Done, Failed} && (st == Done ==> Tables(t0, t1))
    ensures old(ReadTo(r, t2, lens, h, q)) ==>
      if st == Failed then DynamicTables(BytesToBits(r.all), q) == None
      else DynamicTables(BytesToBits(r.all), q) == Some((r.Pos(), t0.lens, t1.lens))
  {
    hide BytesToBits, Buffered, HeadOK, DynamicTables, NoneYet, Ready, Accepted;
    if ReadTo(r, t2, lens, h, q) {
      LensOver(q, BytesToBits(r.all), t2.lens, h, r.Pos(), t2.codeSize[..19], lens[..]);
    }
    ghost var all := lens[..][..h.k];
    assert all == lens[..h.k] && all[..h.nl] == lens[..h.nl] && all[h.nl..] == lens[h.nl..h.nl + h.nd];
    var ok := BuildBoth(t0, t1, t2, lens, h.nl, h.nd);
    st := if ok then Done else Failed;
  }

  /** Hardly any bits from before limit are left over once what is being read at pos has been read. */
  ghost predicate HeadLean(h: Head, cl: seq<nat>, bits: seq<bool>, pos: int, limit: int) {
    pos + 8 > limit || HeadBeyond(h, cl, bits, pos, limit)
  }

  /** Steps until every length has been read, the piece is used up or the header turns out to be bad. */
  method ReadHead(r: Reader, t: HuffTable, lens: array<nat>, h0: Head, ghost q: nat)
    returns (st: Status, h: Head, ghost stray: bool)
    requires r.Valid() && HeadShape(h0, t, lens)
    modifies r`cur, r`bitBuf, r`numBits, lens, t, t.codeSize, t.lk, t.tr
    ensures r.Valid() && HeadShape(h, t, lens) && r.Pos() >= old(r.Pos()) && st in {Done, Failed, NeedsInput}
    ensures st == Done ==> h.HLens? && h.k == h.nl + h.nd
    ensures old(ReadTo(r, t, lens, h0, q)) ==>
      if stray || st == Failed then DynamicTables(BytesToBits(r.all), q) == None else ReadTo(r, t, lens, h, q)
    ensures st == NeedsInput ==> r.cur == |r.piece| && HeadBeyond(h, t.lens, BytesToBits(r.all), r.Pos(), r.End())
    ensures st == Done && !stray && old(HeadLean(h0, t.lens, BytesToBits(r.all), r.Pos(), 8 * r.before)) ==>
      r.Pos() + 8 > 8 * r.before
  {
    hide BytesToBits, Buffered, HeadOK, HeadBeyond, DynamicTables, Ready, HeadShape;
    ghost var bits := BytesToBits(r.all);
    ghost var ok, lean := ReadTo(r, t, lens, h0, q), HeadLean(h0, t.lens, bits, r.Pos(), 8 * r.before);
    h, st, stray := h0, Going, false;
    while st == Going
      invariant r.Valid() && HeadShape(h, t, lens) && r.Pos() >= old(r.Pos()) && st in {Going, Done, Failed, NeedsInput}
      invariant ok ==> if stray || st == Failed then DynamicTables(bits, q) == None else ReadTo(r, t, lens, h, q)
      invariant st in {Going, Done} && !stray && lean ==> HeadLean(h, t.lens, bits, r.Pos(), 8 * r.before)
      invariant st == NeedsInput ==> r.cur == |r.piece| && HeadBeyond(h, t.lens, bits, r.Pos(), r.End())
      invariant st == Done ==> h.HLens? && h.k == h.nl + h.nd
      decreases st == Going, r.End() - r.Pos(), HeadRank(h)
    {
      ghost var more := stray;
      NotReadingHead(h, t.lens, bits, r.Pos(), 8 * r.before);
      st, h, stray := HeadStep(r, t, lens, h, q);
      stray := stray || more;
    }
    NotReadingHead(h, t.lens, bits, r.Pos(), 8 * r.before);
  }

  lemma NotReadingHead(h: Head, cl: seq<nat>, bits: seq<bool>, pos: int, limit: int)
    ensures h.HLens? && h.k >= h.nl + h.nd ==> !HeadBeyond(h, cl, bits, pos, limit)
  {
  }

  /** Goes on with the header of a dynamic block, and builds the tables when it is complete. */
  method RunHead(r: Reader, t0: HuffTable, t1: HuffTable, t2: HuffTable, lens: array<nat>, h0: Head, ghost q: nat)
    returns (st: Status, h: Head, ghost stray: bool)
    requires r.Valid() && Separate(t0, t1, t2, lens) && HeadShape(h0, t2, lens)
    modifies r`cur, r`bitBuf, r`numBits, lens
    modifies t0, t0.codeSize, t0.lk, t0.tr, t1, t1.codeSize, t1.lk, t1.tr, t2, t2.codeSize, t2.lk, t2.tr
    ensures r.Valid() && HeadShape(h, t2, lens) && r.Pos() >= old(r.Pos()) && st in {Done, Failed, NeedsInput}
    ensures st == Done ==> Tables(t0, t1)
    ensures old(ReadTo(r, t2, lens, h0, q)) ==>
      if stray || st == Failed then DynamicTables(BytesToBits(r.all), q) == None
      else if st == Done then DynamicTables(BytesToBits(r.all), q) == Some((r.Pos(), t0.lens, t1.lens))
      else ReadTo(r, t2, lens, h, q)
    ensures st == NeedsInput ==> r.cur == |r.piece| && HeadBeyond(h, t2.lens, BytesToBits(r.all), r.Pos(), r.End())
    ensures st == Done && !stray && old(HeadLean(h0, t2.lens, BytesToBits(r.all), r.Pos(), 8 * r.before)) ==>
      r.Pos() + 8 > 8 * r.before
  {
    hide BytesToBits, Buffered, HeadOK, HeadBeyond, DynamicTables, Ready, HeadShape, HeadLean;
    st, h, stray := ReadHead(r, t2, lens, h0, q);
    if st == Done {
      st := FinishHead(r, t0, t1, t2, lens, h, q);
    }
  }
}

/** Building the header of a dynamic block. */
module DynamicBlock {
  import opened Arith
  import opened Bits
  import opened BitIO
  import opened Canonical
  import opened DecodeTable
  import opened SymFreqs
  import opened HuffmanTable
  import opened Tokens
  import opened CodeBuffer
  import opened Format
  import opened Blocks
  import opened BlockWriter
  import opened BlockSize
  import CL = CodeLengths

  // ----- lengths of zero at the end of a table change nothing

  ghost predicate Trims(lens: seq<nat>, n: nat) {
    n <= |lens| && forall i :: n <= i < |lens| ==> lens[i] == 0
  }

  lemma {:induction false} CountTrim(lens: seq<nat>, n: nat, l: nat)
    requires Trims(lens, n) && l > 0
    ensures Count(lens, l) == Count(lens[..n], l)
    decreases |lens|
  {
    if n < |lens| {
      CountTrim(lens[..|lens| - 1], n, l);
      assert lens[..|lens| - 1][..n] == lens[..n];
    } else {
      assert lens[..n] == lens;
    }
  }

  lemma {:induction false} FirstTrim(lens: seq<nat>, n: nat, l: nat)
    requires Trims(lens, n)
    ensures First(lens, l) == First(lens[..n], l)
  {
    if l <= 1 {
    } else {
      FirstTrim(lens, n, l - 1);
      CountTrim(lens, n, l - 1);
    }
  }

  lemma {:induction false} KraftTrim(lens: seq<nat>, n: nat, top: nat)
    requires Trims(lens, n)
    ensures Kraft(lens, top) == Kraft(lens[..n], top)
    decreases |lens|
  {
    if n < |lens| {
      KraftTrim(lens[..|lens| - 1], n, top);
      assert lens[..|lens| - 1][..n] == lens[..n];
    } else {
      assert lens[..n] == lens;
    }
  }

  lemma {:induction false} CountFromTrim(lens: seq<nat>, n: nat, e: nat)
    requires Trims(lens, n) && e > 0
    ensures CountFrom(lens, e) == CountFrom(lens[..n], e)
    decreases MAX_BITS + 1 - e
  {
    if e > MAX_BITS {
    } else {
      CountFromTrim(lens, n, e + 1);
      CountTrim(lens, n, e);
    }
  }

  lemma CodeWordTrim(lens: seq<nat>, n: nat, s: nat)
    requires Trims(lens, n) && s < |lens| && lens[s] > 0
    ensures s < n && CodeWord(lens[..n], s) == CodeWord(lens, s)
  {
    FirstTrim(lens, n, lens[s]);
    assert lens[..n][..s] == lens[..s];
  }

  lemma AcceptedTrim(lens: seq<nat>, n: nat)
    requires Trims(lens, n) && Accepted(lens)
    ensures Accepted(lens[..n])
  {
    hide Kraft, CountFrom, Pow2;
    KraftTrim(lens, n, MAX_BITS);
    CountFromTrim(lens, n, 1);
  }

  lemma {:induction false} TokensBitsTrim(lit: seq<nat>, n: nat, dst: seq<nat>, m: nat, ts: seq<Token>)
    requires Trims(lit, n) && Trims(dst, m) && n > 256 && AllCodable(lit, dst, ts)
    ensures AllCodable(lit[..n], dst[..m], ts) && TokensBits(lit[..n], dst[..m], ts) == TokensBits(lit, dst, ts)
    decreases |ts|
  {
    if ts == [] {
    } else {
      var us, t := ts[..|ts| - 1], ts[|ts| - 1];
      TokensBitsTrim(lit, n, dst, m, us);
      TokenBitsTrim(lit, n, dst, m, t);
    }
  }

  lemma TokenBitsTrim(lit: seq<nat>, n: nat, dst: seq<nat>, m: nat, t: Token)
    requires Trims(lit, n) && Trims(dst, m) && n > 256 && Codable(lit, dst, t)
    ensures Codable(lit[..n], dst[..m], t) && TokenBits(lit[..n], dst[..m], t) == TokenBits(lit, dst, t)
  {
    hide LenSym, DistSym, LenExtra, DistExtra, ToBits, CodeWord;
    match t
    case Literal(b) => CodeWordTrim(lit, n, b);
    case Match(len, dist) =>
      CodeWordTrim(lit, n, LenSym(len - 3));
      CodeWordTrim(dst, m, DistSym(dist - 1));
  }

  // ----- the tables built are ones the decoder accepts

  lemma {:induction false} UsedCount(counts: seq<nat>, sizes: seq<nat>)
    requires |counts| == |sizes| && ValidLens(sizes, MAX_BITS)
    requires forall s :: 0 <= s < |counts| ==> (sizes[s] > 0 <==> counts[s] > 0)
    ensures CountFrom(sizes, 1) == |Used(counts)|
    decreases |counts|
  {
    hide CountFrom;
    if counts == [] {
      CountFromEmpty(1);
    } else {
      var n := |counts| - 1;
      UsedCount(counts[..n], sizes[..n]);
      CountFromSnoc(sizes[..n], sizes[n], 1);
      assert sizes == sizes[..n] + [sizes[n]];
    }
  }

  lemma TableAccepted(counts: seq<nat>, sizes: seq<nat>, codes: seq<nat>, limit: nat)
    requires TableFor(counts, sizes, codes, limit) && limit <= MAX_BITS
    ensures Accepted(sizes)
  {
    hide Kraft, CountFrom, Used, Shl, CodesAssigned;
    UsedCount(counts, sizes);
    if |Used(counts)| >= 2 {
      KraftScale(sizes, limit, MAX_BITS - limit);
      ShlShl(1, limit, MAX_BITS - limit);
    }
  }

  class Tables {
    const sizes0: array<nat>
    const codes0: array<nat>
    const sizes1: array<nat>
    const codes1: array<nat>
    const sizes2: array<nat>
    const codes2: array<nat>
    const counts2: array<nat>

    constructor ()
      ensures Shape() && fresh(Repr())
    {
      sizes0, codes0 := new nat[288], new nat[288];
      sizes1, codes1 := new nat[32], new nat[32];
      sizes2, codes2, counts2 := new nat[19], new nat[19], new nat[19];
    }

    ghost predicate Shape() {
      && sizes0.Length == codes0.Length == 288 && sizes1.Length == codes1.Length == 32
      && sizes2.Length == codes2.Length == counts2.Length == 19
      && sizes0 != codes0 && sizes1 != codes1 && sizes2 != codes2 && sizes2 != counts2 && codes2 != counts2
    }

    ghost function Repr(): set<object> {
      {sizes0, codes0, sizes1, codes1, sizes2, codes2, counts2}
    }
  }

  /** Leaves off the unused codes at the end of a table, down to a minimum. */
  method TrimTable(sizes: array<nat>, most: nat, least: nat) returns (n: nat)
    requires least <= most <= sizes.Length && Trims(sizes[..], most)
    ensures least <= n <= most && Trims(sizes[..], n)
  {
    n := most;
    while n > least && sizes[n - 1] == 0
      invariant least <= n <= most && Trims(sizes[..], n)
    {
      n := n - 1;
    }
  }

  /** How many of the code length codes have to be sent. */
  method SizesToSend(sizes: array<nat>) returns (n: nat)
    requires sizes.Length == 19
    ensures 4 <= n <= 19 && forall i :: n <= i < 19 ==> sizes[..][Zig(i)] == 0
  {
    hide Zig;
    var k := 18;
    while k >= 0 && sizes[Zig(k)] == 0
      invariant -1 <= k <= 18
      invariant forall i :: k < i < 19 ==> sizes[Zig(i)] == 0
    {
      k := k - 1;
    }
    n := Max(4, k + 1);
  }

  lemma {:induction false} OccursSum(items: seq<CL.Item>, counts: seq<nat>)
    requires |counts| == 19 && forall s :: 0 <= s < 19 ==> counts[s] == CL.Occurs(items, s)
    requires forall i :: 0 <= i < |items| ==> items[i].sym < 19
    ensures Sum(counts) == |items|
    decreases |items|
  {
    if items == [] {
      SumZero(counts);
    } else {
      var us, s := items[..|items| - 1], items[|items| - 1].sym;
      var fewer := counts[s := counts[s] - 1];
      OccursSum(us, fewer);
      SumUpdate(fewer, s, counts[s]);
      assert fewer[s := counts[s]] == counts;
    }
  }

  lemma {:induction false} OccursMember(items: seq<CL.Item>, i: nat)
    requires i < |items|
    ensures CL.Occurs(items, items[i].sym) > 0
    decreases |items|
  {
    if i >= |items| - 1 {
    } else {
      OccursMember(items[..|items| - 1], i);
    }
  }

  // ----- every symbol the tokens use has a code

  lemma {:induction false} LitUsesMember(ts: seq<Token>, i: nat)
    requires AllValid(ts) && i < |ts|
    ensures LitUses(ts, LitSym(ts[i])) > 0
    decreases |ts|
  {
    hide LitSym;
    if i >= |ts| - 1 {
    } else {
      LitUsesMember(ts[..|ts| - 1], i);
    }
  }

  lemma {:induction false} DistUsesMember(ts: seq<Token>, i: nat)
    requires AllValid(ts) && i < |ts| && ts[i].Match?
    ensures DistUses(ts, DistSym(ts[i].dist - 1)) > 0
    decreases |ts|
  {
    hide DistSym;
    if i >= |ts| - 1 {
    } else {
      DistUsesMember(ts[..|ts| - 1], i);
    }
  }

  lemma {:induction false} LitUsesNone(ts: seq<Token>, s: nat)
    requires AllValid(ts) && (s == 256 || s >= 286)
    ensures LitUses(ts, s) == 0
    decreases |ts|
  {
    hide LitSym;
    if ts == [] {
    } else {
      LitUsesNone(ts[..|ts| - 1], s);
    }
  }

  lemma {:induction false} DistUsesNone(ts: seq<Token>, s: nat)
    requires AllValid(ts) && s >= 30
    ensures DistUses(ts, s) == 0
    decreases |ts|
  {
    if ts == [] {
    } else {
      hide DistSym;
      DistUsesNone(ts[..|ts| - 1], s);
      if ts[|ts| - 1].Match? {
        DistSymSmall(ts[|ts| - 1]);
      }
    }
  }

  /** The counts a dynamic block's tables are made from. */
  ghost predicate CountsOf(lit: seq<nat>, dst: seq<nat>, ts: seq<Token>) {
    && AllValid(ts) && |lit| == 288 && |dst| == 32 && lit[256] == 1
    && (forall s :: 0 <= s < 288 && s != 256 ==> lit[s] == LitUses(ts, s))
    && (forall s :: 0 <= s < 32 ==> dst[s] == DistUses(ts, s))
    && Sum(lit) == |ts| + 1 && Sum(dst) <= |ts|
  }

  lemma WithEnd(lit: seq<nat>, dst: seq<nat>, ts: seq<Token>)
    requires Counted(lit, dst, ts)
    ensures CountsOf(lit[256 := 1], dst, ts)
  {
    hide Sum, AllValid, LitUses, DistUses;
    LitUsesNone(ts, 256);
    SumUpdate(lit, 256, 1);
  }

  lemma LitSizes(ts: seq<Token>, lit: seq<nat>, dst: seq<nat>, sizes: seq<nat>, codes: seq<nat>)
    requires CountsOf(lit, dst, ts) && TableFor(lit, sizes, codes, 15)
    ensures sizes[256] > 0 && Trims(sizes, 286)
    ensures forall i :: 0 <= i < |ts| ==> sizes[LitSym(ts[i])] > 0
  {
    hide LitUses, DistUses, LitSym, Sum, Kraft, CodesAssigned, Used;
    forall s | 286 <= s < 288 ensures sizes[s] == 0 {
      LitUsesNone(ts, s);
    }
    forall i | 0 <= i < |ts| ensures sizes[LitSym(ts[i])] > 0 {
      LitUsesMember(ts, i);
    }
  }

  lemma DistSizes(ts: seq<Token>, lit: seq<nat>, dst: seq<nat>, sizes: seq<nat>, codes: seq<nat>)
    requires CountsOf(lit, dst, ts) && TableFor(dst, sizes, codes, 15)
    ensures Trims(sizes, 30)
    ensures forall i ::
      0 <= i < |ts| && ts[i].Match? ==> DistSym(ts[i].dist - 1) < 30 && sizes[DistSym(ts[i].dist - 1)] > 0
  {
    hide LitUses, DistUses, DistSym, Sum, Kraft, CodesAssigned, Used;
    forall s | 30 <= s < 32 ensures sizes[s] == 0 {
      DistUsesNone(ts, s);
    }
    forall i | 0 <= i < |ts| && ts[i].Match?
      ensures DistSym(ts[i].dist - 1) < 30 && sizes[DistSym(ts[i].dist - 1)] > 0
    {
      DistSymSmall(ts[i]);
      DistUsesMember(ts, i);
    }
  }

  lemma AllCoded(ts: seq<Token>, lit: seq<nat>, dst: seq<nat>)
    requires AllValid(ts) && |lit| == 288 && |dst| == 32
    requires forall i :: 0 <= i < |ts| ==> lit[LitSym(ts[i])] > 0
    requires forall i ::
      0 <= i < |ts| && ts[i].Match? ==> DistSym(ts[i].dist - 1) < 30 && dst[DistSym(ts[i].dist - 1)] > 0
    ensures AllCodable(lit, dst, ts)
  {
    hide DistSym, LenSym;
    forall i | 0 <= i < |ts| ensures Codable(lit, dst, ts[i]) {
      LitSymCases(ts[i]);
      assert lit[LitSym(ts[i])] > 0;
    }
  }

  lemma LitSymCases(t: Token)
    requires ValidToken(t)
    ensures t.Literal? ==> LitSym(t) == t.b
    ensures t.Match? ==> LitSym(t) == LenSym(t.len - 3)
  {
    hide LenSym;
  }

  // ----- the encoder's steps

  lemma FewUsed(counts: seq<nat>, limit: nat)
    requires if limit == 7 then |counts| == 19 else limit == 15 && |counts| <= 288
    ensures |Used(counts)| <= Pow2(limit)
  {
    UsedBound(counts);
    Pow2Fifteen();
    assert Pow2(7) == 128;
  }

  /** Builds the literal/length and distance tables of the block. */
  method BuildTables(lit: array<nat>, dst: array<nat>, tb: Tables, ghost ts: seq<Token>)
    requires tb.Shape() && lit != dst && lit !in tb.Repr() && dst !in tb.Repr()
    requires Counted(lit[..], dst[..], ts) && |Pack(ts)| <= CODE_BUF_SIZE
    modifies lit, tb.Repr()
    ensures Coding(tb.codes0, tb.sizes0) && Coding(tb.codes1, tb.sizes1)
    ensures Accepted(tb.sizes0[..]) && Accepted(tb.sizes1[..]) && Trims(tb.sizes0[..], 286) && Trims(tb.sizes1[..], 30)
    ensures AllCodable(tb.sizes0[..], tb.sizes1[..], ts) && tb.sizes0[256] > 0
    ensures |CodesBits(tb.sizes0[..], tb.sizes1[..], ts)| <= 666750
  {
    hide Used, Sum, LitUses, DistUses, TableFor, AllValid, Accepted, AllCodable, Trims, ValidLens, CodesAssigned, Pow2,
      DistSym, LitSym, Pack, CodesBits;
    ghost var l0 := lit[..];
    TokensBound(ts);
    lit[256] := 1;
    assert lit[..] == l0[256 := 1];
    WithEnd(l0, dst[..], ts);
    FewUsed(lit[..], 15);
    FewUsed(dst[..], 15);
    OptimizeHuffmanTable(lit, tb.sizes0, tb.codes0, 15);
    OptimizeHuffmanTable(dst, tb.sizes1, tb.codes1, 15);
    TableAccepted(lit[..], tb.sizes0[..], tb.codes0[..], 15);
    TableAccepted(dst[..], tb.sizes1[..], tb.codes1[..], 15);
    TableCoding(lit[..], tb.sizes0, tb.codes0, 15);
    TableCoding(dst[..], tb.sizes1, tb.codes1, 15);
    LitSizes(ts, lit[..], dst[..], tb.sizes0[..], tb.codes0[..]);
    DistSizes(ts, lit[..], dst[..], tb.sizes1[..], tb.codes1[..]);
    AllCoded(ts, tb.sizes0[..], tb.sizes1[..]);
    TableNearly(lit[..], tb.sizes0[..], tb.codes0[..]);
    TableNearly(dst[..], tb.sizes1[..], tb.codes1[..]);
    LitUsesNone(ts, 256);
    DynamicTokens(tb.sizes0[..], tb.sizes1[..], l0, dst[..], ts);
  }

  lemma TableNearly(counts: seq<nat>, sizes: seq<nat>, codes: seq<nat>)
    requires TableFor(counts, sizes, codes, 15) && |counts| <= 288
    ensures NearlyOptimal(counts, sizes)
  {
  }

  lemma TableCoding(counts: seq<nat>, sizes: array<nat>, codes: array<nat>, limit: nat)
    requires TableFor(counts, sizes[..], codes[..], limit) && limit <= 15
    ensures Coding(codes, sizes)
  {
    hide Kraft, Used;
  }

  /** Sends the lengths of the code length codes. */
  method SendSizes(w: BitWriter, sizes: array<nat>, n: nat)
    requires w.Valid() && sizes.Length == 19 && n <= 19 && ValidLens(sizes[..], 7)
    modifies w
    ensures w.Valid() && Sent(w.capacity, old(w.Bits()), old(w.clean), SizeBits(sizes[..], n), w.Bits(), w.clean)
  {
    hide Zig, Sent, w.Bits, Pow2, ToBits;
    ghost var cap, b0, c0 := w.capacity, w.Bits(), w.clean;
    SentNothing(cap, b0, c0);
    SmallPowers();
    for i := 0 to n
      invariant w.Valid() && Sent(cap, b0, c0, SizeBits(sizes[..], i), w.Bits(), w.clean)
    {
      ghost var b1, c1 := w.Bits(), w.clean;
      w.PutBits(sizes[Zig(i)], 3);
      SentMore(cap, b0, c0, SizeBits(sizes[..], i), b1, c1, ToBits(sizes[Zig(i)], 3), w.Bits(), w.clean);
    }
  }

  lemma ItemsBitsStep(cl: seq<nat>, items: seq<CL.Item>, k: nat)
    requires Sendable(cl, items) && k < |items|
    ensures Sendable(cl, items[..k]) && Sendable(cl, items[..k + 1])
    ensures ItemsBits(cl, items[..k + 1]) == ItemsBits(cl, items[..k]) + ItemBits(cl, items[k])
  {
    hide SendableItem, ItemBits;
    assert items[..k + 1][..k] == items[..k];
  }

  /** Sends the packed code lengths. */
  method SendItems(w: BitWriter, codes: array<nat>, sizes: array<nat>, packed: array<byte>, n: nat,
                   ghost items: seq<CL.Item>)
    requires w.Valid() && Coding(codes, sizes) && Sendable(sizes[..], items)
    requires n <= packed.Length && packed[..n] == CL.ItemBytes(items)
    modifies w
    ensures w.Valid() && Sent(w.capacity, old(w.Bits()), old(w.clean), ItemsBits(sizes[..], items), w.Bits(), w.clean)
  {
    hide w.Bits, Coding, CL.ItemBytes, Sendable, ItemsBits, CodeWord, Pow2, CL.ExtraBits;
    ghost var cap, b0, c0, cl := w.capacity, w.Bits(), w.clean, sizes[..];
    ghost var k: nat := 0;
    var i := 0;
    NoItems(cl, items);
    SentNothing(cap, b0, c0);
    while i < n
      invariant w.Valid() && k <= |items| && Sendable(cl, items[..k]) && i == |CL.ItemBytes(items[..k])| <= n
      invariant Sent(cap, b0, c0, ItemsBits(cl, items[..k]), w.Bits(), w.clean)
    {
      hide Sent;
      MoreItems(items, k);
      ghost var it, b1, c1 := items[k], w.Bits(), w.clean;
      NextItem(packed[..n], items, k, i);
      ItemsBitsStep(cl, items, k);
      ItemSendable(cl, items, k);
      var code := packed[i];
      i := i + 1;
      PutSymbol(w, codes, sizes, code);
      ghost var b2, c2 := w.Bits(), w.clean;
      if code >= 16 {
        w.PutBits(packed[i], CL.ExtraBits(code));
        i := i + 1;
      } else {
        SentNothing(cap, b2, c2);
      }
      SentMore(cap, b1, c1, CodeWord(cl, it.sym), b2, c2, ToBits(it.extra, CL.ExtraBits(it.sym)), w.Bits(), w.clean);
      SentMore(cap, b0, c0, ItemsBits(cl, items[..k]), b1, c1, ItemBits(cl, it), w.Bits(), w.clean);
      k := k + 1;
    }
    AllItems(items, k, i);
    assert items[..k] == items;
  }

  lemma NoItems(cl: seq<nat>, items: seq<CL.Item>)
    ensures Sendable(cl, items[..0]) && ItemsBits(cl, items[..0]) == [] && CL.ItemBytes(items[..0]) == []
  {
  }

  lemma NextItem(packed: seq<byte>, items: seq<CL.Item>, k: nat, i: nat)
    requires packed == CL.ItemBytes(items) && k < |items| && i == |CL.ItemBytes(items[..k])|
    ensures i < |packed| && packed[i] == items[k].sym
    ensures items[k].sym >= 16 ==> i + 1 < |packed| && packed[i + 1] == items[k].extra
    ensures |CL.ItemBytes(items[..k + 1])| == i + (if items[k].sym < 16 then 1 else 2) <= |packed|
  {
    hide CL.ItemBytes;
    CL.ItemBytesAt(items, k);
    var w := CL.ItemBytes(items[..k]) + CL.OneItem(items[k]);
    assert forall j :: 0 <= j < |w| ==> packed[j] == w[j];
    assert w[i] == items[k].sym;
  }

  lemma ItemSendable(cl: seq<nat>, items: seq<CL.Item>, k: nat)
    requires Sendable(cl, items) && k < |items|
    ensures SendableItem(cl, items[k])
    ensures items[k].sym < 16 ==> ToBits(items[k].extra, CL.ExtraBits(items[k].sym)) == []
  {
  }

  lemma MoreItems(items: seq<CL.Item>, k: nat)
    requires k <= |items| && |CL.ItemBytes(items[..k])| < |CL.ItemBytes(items)|
    ensures k < |items|
  {
    assert items[..|items|] == items;
  }

  lemma AllItems(items: seq<CL.Item>, k: nat, i: nat)
    requires k <= |items| && i == |CL.ItemBytes(items[..k])| >= |CL.ItemBytes(items)|
    ensures k == |items|
  {
    if k < |items| {
      CL.ItemBytesAt(items, k);
    }
  }

  /** Builds the tables of the code length code from the packed lengths. */
  method BuildSizeTable(tb: Tables, ghost items: seq<CL.Item>)
    requires tb.Shape() && |items| < 65536 && forall s :: 0 <= s < 19 ==> tb.counts2[s] == CL.Occurs(items, s)
    requires forall k :: 0 <= k < |items| ==> CL.WellFormed(items[k])
    modifies tb.sizes2, tb.codes2
    ensures Coding(tb.codes2, tb.sizes2) && ValidLens(tb.sizes2[..], 7) && Accepted(tb.sizes2[..])
    ensures Sendable(tb.sizes2[..], items)
  {
    hide Used, Sum, Accepted, CodesAssigned, Kraft, CL.ExtraBits, Pow2, CL.Occurs;
    ghost var counts := tb.counts2[..];
    OccursSum(items, counts);
    FewUsed(counts, 7);
    OptimizeHuffmanTable(tb.counts2, tb.sizes2, tb.codes2, 7);
    TableAccepted(counts, tb.sizes2[..], tb.codes2[..], 7);
    TableCoding(counts, tb.sizes2, tb.codes2, 7);
    forall i | 0 <= i < |items| ensures SendableItem(tb.sizes2[..], items[i]) {
      OccursMember(items, i);
      assert CL.WellFormed(items[i]);
    }
  }

  /** Everything the header is made of. */
  method PrepareHeader(lit: array<nat>, dst: array<nat>, tb: Tables, ghost ts: seq<Token>)
    returns (numLit: nat, numDist: nat, sent: nat, packed: array<byte>, n: nat, ghost h: Header)
    requires tb.Shape() && lit != dst && lit !in tb.Repr() && dst !in tb.Repr()
    requires Counted(lit[..], dst[..], ts) && |Pack(ts)| <= CODE_BUF_SIZE
    modifies lit, tb.Repr()
    ensures Coding(tb.codes0, tb.sizes0) && Coding(tb.codes1, tb.sizes1) && Coding(tb.codes2, tb.sizes2)
    ensures AllCodable(tb.sizes0[..], tb.sizes1[..], ts) && tb.sizes0[256] > 0
    ensures ValidBlock(Dynamic(h, ts)) && CodesBits(h.lit, h.dst, ts) == CodesBits(tb.sizes0[..], tb.sizes1[..], ts)
    ensures |CodesBits(h.lit, h.dst, ts)| <= 666750
    ensures |h.lit| == numLit && |h.dst| == numDist && h.cl == tb.sizes2[..] && h.sent == sent
    ensures n <= packed.Length && packed[..n] == CL.ItemBytes(h.items)
  {
    hide Coding, AllCodable, Counted, Accepted, Trims, Sendable, CodesBits, ValidBlock, Zig, CL.Occurs, CL.Expand,
      CL.ItemBytes, CL.WellFormed, Pack;
    BuildTables(lit, dst, tb, ts);
    numLit := TrimTable(tb.sizes0, 286, 257);
    numDist := TrimTable(tb.sizes1, 30, 1);
    ghost var lens0, lens1 := tb.sizes0[..], tb.sizes1[..];
    var toPack := tb.sizes0[..numLit] + tb.sizes1[..numDist];
    PackableSizes(tb.codes0, tb.sizes0, tb.codes1, tb.sizes1);
    packed := new byte[320];
    ghost var items;
    n, items := CL.PackCodeSizes(toPack, packed, tb.counts2);
    BuildSizeTable(tb, items);
    sent := SizesToSend(tb.sizes2);
    h := Header(lens0[..numLit], lens1[..numDist], tb.sizes2[..], sent, items);
    HeaderIsValid(h, lens0, numLit, lens1, numDist, ts);
  }

  /** Sends the header and leaves tables in which every symbol the tokens use has a code. */
  method StartDynamicBlock(w: BitWriter, lit: array<nat>, dst: array<nat>, tb: Tables, ghost ts: seq<Token>)
    returns (ghost h: Header)
    requires w.Valid() && tb.Shape() && lit != dst && lit !in tb.Repr() && dst !in tb.Repr()
    requires Counted(lit[..], dst[..], ts) && |Pack(ts)| <= CODE_BUF_SIZE
    modifies w, lit, tb.Repr()
    ensures w.Valid() && Coding(tb.codes0, tb.sizes0) && Coding(tb.codes1, tb.sizes1)
    ensures AllCodable(tb.sizes0[..], tb.sizes1[..], ts) && tb.sizes0[256] > 0
    ensures ValidBlock(Dynamic(h, ts)) && CodesBits(h.lit, h.dst, ts) == CodesBits(tb.sizes0[..], tb.sizes1[..], ts)
    ensures |CodesBits(h.lit, h.dst, ts)| <= 666750
    ensures Sent(w.capacity, old(w.Bits()), old(w.clean), ToBits(2, 2) + HeaderBits(h), w.Bits(), w.clean)
  {
    hide Coding, AllCodable, Counted, CodesBits, HeaderBits, Sent, w.Bits, CL.ItemBytes, ValidHeader, Pack;
    var numLit, numDist, sent, packed, n;
    numLit, numDist, sent, packed, n, h := PrepareHeader(lit, dst, tb, ts);
    SendHeader(w, tb, numLit, numDist, sent, packed, n, h);
  }

  method SendHeader(w: BitWriter, tb: Tables, numLit: nat, numDist: nat, sent: nat, packed: array<byte>, n: nat,
                    ghost h: Header)
    requires w.Valid() && tb.Shape() && ValidHeader(h) && h.cl == tb.sizes2[..] && h.sent == sent
    requires |h.lit| == numLit && |h.dst| == numDist && Coding(tb.codes2, tb.sizes2)
    requires n <= packed.Length && packed[..n] == CL.ItemBytes(h.items)
    modifies w
    ensures w.Valid() && Sent(w.capacity, old(w.Bits()), old(w.clean), ToBits(2, 2) + HeaderBits(h), w.Bits(), w.clean)
  {
    hide Accepted, Sendable, Zig, CL.Expand, CL.ItemBytes, Sent, w.Bits, w.Valid, Pow2, ToBits, Coding, SizeBits,
      ItemsBits;
    SmallPowers();
    ghost var cap, b0, c0 := w.capacity, w.Bits(), w.clean;
    w.PutBits(2, 2);
    ghost var b1, c1 := w.Bits(), w.clean;
    w.PutBits(numLit - 257, 5);
    ghost var b2, c2 := w.Bits(), w.clean;
    w.PutBits(numDist - 1, 5);
    ghost var b3, c3 := w.Bits(), w.clean;
    w.PutBits(sent - 4, 4);
    ghost var b4, c4 := w.Bits(), w.clean;
    SendSizes(w, tb.sizes2, sent);
    ghost var b5, c5 := w.Bits(), w.clean;
    SendItems(w, tb.codes2, tb.sizes2, packed, n, h.items);
    ghost var a, b, c, d, e := ToBits(|h.lit| - 257, 5), ToBits(|h.dst| - 1, 5), ToBits(h.sent - 4, 4),
      SizeBits(h.cl, h.sent), ItemsBits(h.cl, h.items);
    SentMore(cap, b1, c1, a, b2, c2, b, b3, c3);
    SentMore(cap, b1, c1, a + b, b3, c3, c, b4, c4);
    SentMore(cap, b1, c1, a + b + c, b4, c4, d, b5, c5);
    SentMore(cap, b1, c1, a + b + c + d, b5, c5, e, w.Bits(), w.clean);
    SentMore(cap, b0, c0, ToBits(2, 2), b1, c1, HeaderBits(h), w.Bits(), w.clean);
  }

  lemma PackableSizes(codes0: array<nat>, sizes0: array<nat>, codes1: array<nat>, sizes1: array<nat>)
    requires Coding(codes0, sizes0) && Coding(codes1, sizes1)
    ensures forall i :: 0 <= i < sizes0.Length ==> sizes0[i] < 16
    ensures forall i :: 0 <= i < sizes1.Length ==> sizes1[i] < 16
  {
    assert forall i :: 0 <= i < sizes0.Length ==> sizes0[..][i] == sizes0[i];
    assert forall i :: 0 <= i < sizes1.Length ==> sizes1[..][i] == sizes1[i];
  }

  lemma HeaderIsValid(h: Header, lens0: seq<nat>, n: nat, lens1: seq<nat>, m: nat, ts: seq<Token>)
    requires |lens0| == 288 && |lens1| == 32 && 257 <= n <= 288 && 1 <= m <= 32
    requires h.lit == lens0[..n] && h.dst == lens1[..m] && Trims(lens0, n) && Trims(lens1, m)
    requires Accepted(lens0) && Accepted(lens1) && |h.cl| == 19 && Accepted(h.cl) && ValidLens(h.cl, 7)
    requires 4 <= h.sent <= 19
    requires forall i :: h.sent <= i < 19 ==> h.cl[Zig(i)] == 0
    requires Sendable(h.cl, h.items) && CL.Expand(h.items) == Some(h.lit + h.dst)
    requires AllCodable(lens0, lens1, ts) && lens0[256] > 0
    ensures ValidBlock(Dynamic(h, ts)) && CodesBits(h.lit, h.dst, ts) == CodesBits(lens0, lens1, ts)
  {
    hide Accepted, AllCodable, Sendable, Trims, CL.Expand, Zig, TokensBits, CodeWord;
    AcceptedTrim(lens0, n);
    AcceptedTrim(lens1, m);
    TokensBitsTrim(lens0, n, lens1, m, ts);
    CodeWordTrim(lens0, n, 256);
  }
}

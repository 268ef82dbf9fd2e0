/** Inflating the compressed data of a block, with input and output that may end at any point. */
module Inflater {
  import opened Arith
  import opened Bits
  import opened Canonical
  import opened DecodeTable
  import opened Tokens
  import opened Format
  import opened BitReader
  import opened HuffDecode
  import opened MatchCopy
  import opened OutputBuffer

  /** Stuck: more input is needed and none is to come. */
  datatype Status = Going | Done | Failed | NeedsInput | Stuck | HasMoreOutput | Mismatch

  type Result = Option<(nat, seq<byte>)>

  /** The places inside a block at which the inflater may be waiting, and what it knows there. */
  datatype Codes =
    | LitSym(resumed: bool)
    | LitPut(b: byte)
    | LenBits(i: nat)
    | DistSym(len: nat, resumed: bool)
    | DistBits(len: nat, d: nat)
    | Copying(len: nat, dist: nat)

  // ----- what a block says from each of these places on

  ghost function Follow(lit: seq<nat>, dst: seq<nat>, bits: seq<bool>, out: seq<byte>, step: Step): (r: Result) {
    match step
    case Bad => None
    case End(p) => Some((p, out))
    case Next(t, p) => if Applies(out, t) then InflateCodes(lit, dst, bits, p, Apply(out, t)) else None
  }

  ghost function CodesGoes(c: Codes, lit: seq<nat>, dst: seq<nat>, bits: seq<bool>, pos: nat,
    out: seq<byte>): (r: Result) {
    match c
    case LitSym(_) => InflateCodes(lit, dst, bits, pos, out)
    case LitPut(b) => InflateCodes(lit, dst, bits, pos, out + [b])
    case LenBits(i) => if i < 29 then Follow(lit, dst, bits, out, MatchAt(i, dst, bits, pos)) else None
    case DistSym(len, _) => Follow(lit, dst, bits, out, DistAt(len, dst, bits, pos))
    case DistBits(len, d) => if d < 30 then Follow(lit, dst, bits, out, DistBitsAt(len, d, bits, pos)) else None
    case Copying(len, dist) => if 1 <= dist <= |out| then InflateCodes(lit, dst, bits, pos, Copy(out, len, dist))
      else None
  }

  lemma CodesUnfold(lit: seq<nat>, dst: seq<nat>, bits: seq<bool>, pos: nat, out: seq<byte>)
    ensures InflateCodes(lit, dst, bits, pos, out) == Follow(lit, dst, bits, out, NextToken(lit, dst, bits, pos))
  {
    hide NextToken;
  }

  /** Output is only ever added to. */
  lemma {:induction false} OutputGrows(lit: seq<nat>, dst: seq<nat>, bits: seq<bool>, pos: nat, out: seq<byte>)
    requires InflateCodes(lit, dst, bits, pos, out).Some?
    ensures out <= InflateCodes(lit, dst, bits, pos, out).value.1
    decreases |bits| - pos
  {
    hide NextToken;
    var n := NextToken(lit, dst, bits, pos);
    if !n.Next? {
    } else {
      OutputGrows(lit, dst, bits, n.next, Apply(out, n.tok));
    }
  }

  lemma GoesGrows(c: Codes, lit: seq<nat>, dst: seq<nat>, bits: seq<bool>, pos: nat, out: seq<byte>)
    requires CodesGoes(c, lit, dst, bits, pos, out).Some?
    ensures out <= CodesGoes(c, lit, dst, bits, pos, out).value.1
  {
    hide InflateCodes, MatchAt, DistAt, DistBitsAt;
    match c
    case LitSym(_) => OutputGrows(lit, dst, bits, pos, out);
    case LitPut(b) => OutputGrows(lit, dst, bits, pos, out + [b]);
    case LenBits(i) => FollowGrows(lit, dst, bits, out, MatchAt(i, dst, bits, pos));
    case DistSym(len, _) => FollowGrows(lit, dst, bits, out, DistAt(len, dst, bits, pos));
    case DistBits(len, d) => FollowGrows(lit, dst, bits, out, DistBitsAt(len, d, bits, pos));
    case Copying(len, dist) => OutputGrows(lit, dst, bits, pos, Copy(out, len, dist));
  }

  lemma FollowGrows(lit: seq<nat>, dst: seq<nat>, bits: seq<bool>, out: seq<byte>, step: Step)
    requires Follow(lit, dst, bits, out, step).Some?
    ensures out <= Follow(lit, dst, bits, out, step).value.1
  {
    hide InflateCodes;
    if step.Next? {
      OutputGrows(lit, dst, bits, step.next, Apply(out, step.tok));
    }
  }

  /** What a decoded symbol means. */
  lemma SymbolGoes(lit: seq<nat>, dst: seq<nat>, bits: seq<bool>, pos: nat, out: seq<byte>, sym: nat, next: nat)
    requires Coded(lit) && Decoded(lit, bits, pos, sym, next)
    ensures !Begins(lit, bits, pos, sym) || sym > 285 ==> InflateCodes(lit, dst, bits, pos, out) == None
    ensures Begins(lit, bits, pos, sym) && sym < 256 ==>
      InflateCodes(lit, dst, bits, pos, out) == InflateCodes(lit, dst, bits, next, out + [sym])
    ensures Begins(lit, bits, pos, sym) && sym == 256 ==> InflateCodes(lit, dst, bits, pos, out) == Some((next, out))
    ensures Begins(lit, bits, pos, sym) && 256 < sym < 286 ==>
      InflateCodes(lit, dst, bits, pos, out) == Follow(lit, dst, bits, out, MatchAt(sym - 257, dst, bits, next))
  {
    hide Coded, Begins, MatchAt, InflateCodes;
    CodesUnfold(lit, dst, bits, pos, out);
    SymbolCase(lit, bits, pos, sym, next);
  }

  /** The symbol at a position is the one decoded there. */
  lemma SymbolCase(lens: seq<nat>, bits: seq<bool>, pos: nat, sym: nat, next: int)
    requires Coded(lens) && Decoded(lens, bits, pos, sym, next)
    ensures Symbol(lens, bits, pos) == if Begins(lens, bits, pos, sym) then Some(sym) else None
  {
    hide Coded, Begins;
    if Begins(lens, bits, pos, sym) {
      SymbolIs(lens, bits, pos, sym);
    }
  }

  // ----- what the inflater may wait for

  /** What is being read at pos goes beyond limit. */
  ghost predicate Beyond(c: Codes, lit: seq<nat>, dst: seq<nat>, bits: seq<bool>, pos: nat, limit: int) {
    match c
    case LitSym(_) => NoneYet(lit, bits, pos, limit)
    case LenBits(i) => i < 31 && pos + LengthExtra(i) > limit
    case DistSym(_, _) => NoneYet(dst, bits, pos, limit)
    case DistBits(_, d) => d < 32 && pos + DistanceExtra(d) > limit
    case _ => false
  }

  /** If that is the end of all input, the block is not complete. */
  lemma BeyondAll(c: Codes, lit: seq<nat>, dst: seq<nat>, bits: seq<bool>, pos: nat, out: seq<byte>)
    requires Beyond(c, lit, dst, bits, pos, |bits|)
    ensures CodesGoes(c, lit, dst, bits, pos, out) == None
  {
    hide CodeWord, LengthBase, LengthExtra, DistanceBase, DistanceExtra;
    match c
    case LitSym(_) => NoSymbol(lit, bits, pos);
    case DistSym(_, _) => NoSymbol(dst, bits, pos);
    case _ =>
  }

  lemma NoSymbol(lens: seq<nat>, bits: seq<bool>, pos: nat)
    requires NoneYet(lens, bits, pos, |bits|)
    ensures Symbol(lens, bits, pos) == None
  {
  }

  ghost predicate CodesShape(c: Codes, o: Sink)
    reads o`made
  {
    match c
    case LenBits(i) => i < 31
    case DistBits(_, d) => d < 32
    case Copying(_, dist) => dist <= WINDOW && (!o.wrap ==> dist <= |o.made|)
    case _ => true
  }

  /** Outcomes agree: g is what was said before a step, h what is said after it. */
  ghost predicate Agrees(g: Result, stray: bool, st: Status, h: Result, pos: int, made: seq<byte>) {
    if stray || st == Failed then g == None
    else if st == Done then g == Some((pos, made))
    else g == h
  }

  /** There is output to come without any more input. */
  ghost predicate Owes(c: Codes) {
    c.LitPut? || (c.Copying? && c.len > 0)
  }

  lemma OwesMore(c: Codes, lit: seq<nat>, dst: seq<nat>, bits: seq<bool>, pos: nat, out: seq<byte>)
    requires Owes(c) && CodesGoes(c, lit, dst, bits, pos, out).Some?
    ensures |out| < |CodesGoes(c, lit, dst, bits, pos, out).value.1|
  {
    hide InflateCodes, Copy;
    if c.LitPut? {
      OutputGrows(lit, dst, bits, pos, out + [c.b]);
    } else {
      OutputGrows(lit, dst, bits, pos, Copy(out, c.len, c.dist));
    }
  }

  /** How far from the end of a pass around the decoding loop. */
  function Rank(c: Codes): nat {
    match c
    case LitPut(_) => 1
    case LitSym(_) => 2
    case Copying(_, _) => 3
    case DistBits(_, _) => 4
    case DistSym(_, _) => 5
    case LenBits(_) => 6
  }

  lemma ExtraSmall(i: nat)
    ensures i < 31 ==> LengthExtra(i) <= 5
    ensures i < 32 ==> DistanceExtra(i) <= 13
  {
    hide LengthBase, DistanceBase;
    if i < 28 {
      LengthExtraIs(i);
    }
    if i < 30 {
      DistanceExtraIs(i);
    }
  }

  // ----- literals

  /** Where a symbol leads. */
  function After(sym: nat): Codes {
    if sym < 256 then LitPut(sym) else LenBits(if sym >= 257 then sym - 257 else 0)
  }

  lemma AfterGoes(lit: seq<nat>, dst: seq<nat>, bits: seq<bool>, pos: nat, out: seq<byte>, sym: nat, next: nat)
    requires Coded(lit) && Decoded(lit, bits, pos, sym, next)
    ensures Agrees(InflateCodes(lit, dst, bits, pos, out), !Begins(lit, bits, pos, sym),
      if sym == 256 then Done else Going,
                   CodesGoes(After(sym), lit, dst, bits, next, out), next, out)
  {
    hide Coded, Begins, MatchAt, InflateCodes, Decoded;
    SymbolGoes(lit, dst, bits, pos, out, sym, next);
  }

  /** Decodes one symbol with every check. */
  method SlowStep(r: Reader, t: HuffTable, resumed: bool, ghost dst: seq<nat>, ghost out: seq<byte>)
    returns (st: Status, c: Codes, ghost stray: bool)
    requires r.Valid() && t.Usable()
    modifies r`cur, r`bitBuf, r`numBits
    ensures r.Valid() && st in {Going, Done, NeedsInput}
    ensures r.Pos() >= old(r.Pos()) && c != LitSym(false)
    ensures (c.LenBits? ==> c.i < 31) && (st != NeedsInput && !c.LitPut? ==> r.Pos() > old(r.Pos()))
    ensures Agrees(InflateCodes(t.lens, dst, BytesToBits(r.all), old(r.Pos()), out), stray, st,
                   CodesGoes(c, t.lens, dst, BytesToBits(r.all), r.Pos(), out), r.Pos(), out)
    ensures st != NeedsInput ==> (c.LitPut? || c.LenBits?)
    ensures st == NeedsInput ==>
      && !stray && c == LitSym(true) && r.Pos() == old(r.Pos()) && r.cur == |r.piece|
      && NoneYet(t.lens, BytesToBits(r.all), r.Pos(), r.End())
    ensures st != NeedsInput && !stray && NoneYet(t.lens, BytesToBits(r.all), old(r.Pos()), 8 * r.before) ==>
      r.Pos() > 8 * r.before
  {
    hide BytesToBits, At, CodeWord, Ready, InflateCodes, MatchAt, Coded;
    ReadyFacts(t.lk[..], t.tr[..], t.nodes, t.lens);
    ghost var bits, pos := BytesToBits(r.all), r.Pos();
    var ok, sym := Decode(r, t, resumed);
    if !ok {
      return NeedsInput, LitSym(true), false;
    }
    stray := !Begins(t.lens, bits, pos, sym);
    AfterGoes(t.lens, dst, bits, pos, out, sym, r.Pos());
    st, c := if sym == 256 then Done else Going, After(sym);
  }

  /** Fills the buffer with four bytes if it holds too few bits for two code words. */
  method FillFast(r: Reader)
    requires r.Valid() && |r.piece| - r.cur >= 4
    modifies r`cur, r`bitBuf, r`numBits
    ensures r.Valid() && r.Pos() == old(r.Pos()) && r.numBits >= 30
  {
    hide Buffered, BytesToBits;
    if r.numBits < 30 {
      r.Push();
      r.Push();
      r.Push();
      r.Push();
    }
  }

  /** Decodes a symbol from bits known to be there. */
  method FastSymbol(r: Reader, t: HuffTable, ghost dst: seq<nat>, ghost out: seq<byte>) returns (sym: nat)
    requires r.Valid() && t.Usable() && r.numBits >= 15
    modifies r`bitBuf, r`numBits
    ensures r.Valid() && r.numBits >= old(r.numBits) - 15 && r.Pos() >= old(r.Pos())
    ensures Decoded(t.lens, BytesToBits(r.all), old(r.Pos()), sym, r.Pos())
    ensures Agrees(InflateCodes(t.lens, dst, BytesToBits(r.all), old(r.Pos()), out),
      !Begins(t.lens, BytesToBits(r.all), old(r.Pos()), sym),
                   if sym == 256 then Done else Going,
                     CodesGoes(After(sym), t.lens, dst, BytesToBits(r.all), r.Pos(), out), r.Pos(), out)
    ensures sym >= 256 ==> sym < |t.lens| <= 288 && r.Pos() > old(r.Pos())
  {
    hide BytesToBits, At, CodeWord, Ready, InflateCodes, MatchAt, Coded;
    ReadyFacts(t.lk[..], t.tr[..], t.nodes, t.lens);
    ghost var bits, pos := BytesToBits(r.all), r.Pos();
    forall s: nat | Begins(t.lens, bits, pos, s) ensures t.lens[s] <= r.numBits {
      CodeLengthBound(t.lk[..], t.tr[..], t.nodes, t.lens, s);
    }
    sym := TakeSymbol(r, t, 0);
    AfterGoes(t.lens, dst, bits, pos, out, sym, r.Pos());
  }

  /** Two steps in a row agree if each of them does. */
  lemma AgreesTwice(g: Result, s1: bool, h1: Result, s2: bool, st: Status, h2: Result, pos: int, made: seq<byte>)
    requires (if s1 then g == None else g == h1) && Agrees(h1, s2, st, h2, pos, made)
    ensures Agrees(g, s1 || s2, st, h2, pos, made)
  {
  }

  /** Decodes up to two symbols with one check of the buffers. */
  method FastStep(r: Reader, o: Sink, t: HuffTable, ghost dst: seq<nat>)
    returns (st: Status, c: Codes, ghost stray: bool)
    requires r.Valid() && o.Valid() && t.Usable() && |r.piece| - r.cur >= 4 && o.cur + 2 <= o.buf.Length
    modifies r`cur, r`bitBuf, r`numBits, o`cur, o`made, o.buf
    ensures r.Valid() && o.Valid() && st in {Going, Done} && old(o.made) <= o.made && o.base == old(o.base)
    ensures r.Pos() >= old(r.Pos()) && (c == LitSym(false) || (c.LenBits? && c.i < 31))
    ensures if c.LenBits? then r.Pos() > old(r.Pos()) else o.cur > old(o.cur)
    ensures Agrees(InflateCodes(t.lens, dst, BytesToBits(r.all), old(r.Pos()), old(o.made)), stray, st,
                   CodesGoes(c, t.lens, dst, BytesToBits(r.all), r.Pos(), o.made), r.Pos(), o.made)
    ensures !stray && NoneYet(t.lens, BytesToBits(r.all), old(r.Pos()), 8 * r.before) ==> r.Pos() > 8 * r.before
  {
    hide BytesToBits, Ready, InflateCodes, MatchAt, At, CodeWord;
    ghost var bits, p0, o0 := BytesToBits(r.all), r.Pos(), o.made;
    FillFast(r);
    var sym := FastSymbol(r, t, dst, o.made);
    stray := !Begins(t.lens, bits, p0, sym);
    if sym >= 256 {
      return if sym == 256 then Done else Going, After(sym), stray;
    }
    ghost var p1, first := r.Pos(), stray;
    var sym2 := FastSymbol(r, t, dst, o.made + [sym]);
    o.Put(sym);
    stray := first || !Begins(t.lens, bits, p1, sym2);
    st, c := if sym2 == 256 then Done else Going, After(sym2);
    ghost var h := CodesGoes(After(sym2), t.lens, dst, bits, r.Pos(), o.made);
    AgreesTwice(InflateCodes(t.lens, dst, bits, p0, o0), first, InflateCodes(t.lens, dst, bits, p1, o0 + [sym]),
      !Begins(t.lens, bits, p1, sym2), st, h, r.Pos(), o.made);
    if sym2 < 256 {
      o.Put(sym2);
      c := LitSym(false);
    }
  }

  // ----- matches

  lemma DistanceBound(d: nat, x: nat)
    requires d < 32 && x < Pow2(DistanceExtra(d))
    ensures DistanceBase(d) + x <= WINDOW
  {
    if d < 30 {
      DistanceExtraIs(d);
    }
    DistanceTop(d);
  }

  lemma DistanceTop(d: nat)
    requires d < 32
    ensures DistanceBase(d) + Pow2(DistanceExtra(d)) <= WINDOW + 1
  {
    SmallPowers();
  }

  /** Reads the extra bits of a length. */
  method LengthStep(r: Reader, i: nat, ghost lit: seq<nat>, ghost dst: seq<nat>, ghost out: seq<byte>)
    returns (st: Status, c: Codes, ghost stray: bool)
    requires r.Valid() && i < 31
    modifies r`cur, r`bitBuf, r`numBits
    ensures r.Valid() && st in {Going, NeedsInput} && (st == Going ==> c.DistSym?) && r.Pos() >= old(r.Pos())
    ensures Agrees(CodesGoes(LenBits(i), lit, dst, BytesToBits(r.all), old(r.Pos()), out), stray, st,
                   CodesGoes(c, lit, dst, BytesToBits(r.all), r.Pos(), out), r.Pos(), out)
    ensures st == NeedsInput ==>
      c == LenBits(i) && r.Pos() == old(r.Pos()) && r.cur == |r.piece| && r.Pos() + LengthExtra(i) > r.End()
    ensures st == Going ==> r.Pos() == old(r.Pos()) + LengthExtra(i) && (stray <==> i >= 29)
  {
    hide BytesToBits, Buffered, Number, LengthBase, LengthExtra, DistAt, InflateCodes, Follow;
    ExtraSmall(i);
    var ok, x := r.GetBits(LengthExtra(i));
    if !ok {
      return NeedsInput, LenBits(i), false;
    }
    st, c, stray := Going, DistSym(LengthBase(i) + x, false), i >= 29;
  }

  /** Decodes a distance symbol. */
  method DistanceStep(r: Reader, t: HuffTable, len: nat, resumed: bool, ghost lit: seq<nat>, ghost out: seq<byte>)
    returns (st: Status, c: Codes, ghost stray: bool)
    requires r.Valid() && t.Usable() && |t.lens| <= 32
    modifies r`cur, r`bitBuf, r`numBits
    ensures r.Valid() && st in {Going, NeedsInput} && r.Pos() >= old(r.Pos())
    ensures st == Going ==> c.DistBits? && c.d < 32
    ensures st == Going ==> (stray <==> !Begins(t.lens, BytesToBits(r.all), old(r.Pos()), c.d))
    ensures Agrees(CodesGoes(DistSym(len, resumed), lit, t.lens, BytesToBits(r.all), old(r.Pos()), out), stray, st,
                   CodesGoes(c, lit, t.lens, BytesToBits(r.all), r.Pos(), out), r.Pos(), out)
    ensures st == NeedsInput ==>
      && c == DistSym(len, true) && r.Pos() == old(r.Pos()) && r.cur == |r.piece|
      && NoneYet(t.lens, BytesToBits(r.all), r.Pos(), r.End())
    ensures st == Going && !stray && NoneYet(t.lens, BytesToBits(r.all), old(r.Pos()), 8 * r.before) ==>
      r.Pos() > 8 * r.before
  {
    hide BytesToBits, Buffered, At, CodeWord, Ready, InflateCodes, DistBitsAt, Follow, Coded;
    ReadyFacts(t.lk[..], t.tr[..], t.nodes, t.lens);
    ghost var bits, pos := BytesToBits(r.all), r.Pos();
    var ok, x := Decode(r, t, resumed);
    if !ok {
      return NeedsInput, DistSym(len, true), false;
    }
    SymbolCase(t.lens, bits, pos, x, r.Pos());
    st, c, stray := Going, DistBits(len, x), !Begins(t.lens, bits, pos, x);
    DistanceGoes(len, resumed, lit, t.lens, bits, pos, out);
  }

  lemma DistanceGoes(len: nat, resumed: bool, lit: seq<nat>, dst: seq<nat>, bits: seq<bool>, pos: nat, out: seq<byte>)
    ensures Symbol(dst, bits, pos) == None ==> CodesGoes(DistSym(len, resumed), lit, dst, bits, pos, out) == None
    ensures Symbol(dst, bits, pos).Some? ==>
      var d := Symbol(dst, bits, pos).value;
      CodesGoes(DistSym(len, resumed), lit, dst, bits, pos, out) ==
        CodesGoes(DistBits(len, d), lit, dst, bits, pos + dst[d], out)
  {
    hide InflateCodes, DistBitsAt, Begins;
  }

  /** Reads the extra bits of a distance; one that goes back beyond a buffer that holds everything is refused. */
  method OffsetStep(r: Reader, o: Sink, len: nat, d: nat, ghost lit: seq<nat>, ghost dst: seq<nat>)
    returns (st: Status, c: Codes, ghost stray: bool)
    requires r.Valid() && o.Valid() && d < 32
    modifies r`cur, r`bitBuf, r`numBits
    ensures r.Valid() && st in {Going, Failed, NeedsInput} && r.Pos() >= old(r.Pos()) && CodesShape(c, o)
    ensures st == Going ==> c.Copying?
    ensures Agrees(CodesGoes(DistBits(len, d), lit, dst, BytesToBits(r.all), old(r.Pos()), o.made), stray, st,
                   CodesGoes(c, lit, dst, BytesToBits(r.all), r.Pos(), o.made), r.Pos(), o.made)
    ensures st == NeedsInput ==>
      c == DistBits(len, d) && r.Pos() == old(r.Pos()) && r.cur == |r.piece| && r.Pos() + DistanceExtra(d) > r.End()
    ensures st == Going ==> r.Pos() == old(r.Pos()) + DistanceExtra(d) && (stray <==> d >= 30)
  {
    hide BytesToBits, Buffered, Number, DistanceBase, DistanceExtra, InflateCodes, Copy, Ring;
    ExtraSmall(d);
    var ok, x := r.GetBits(DistanceExtra(d));
    if !ok {
      return NeedsInput, DistBits(len, d), false;
    }
    DistanceBound(d, x);
    var dist := DistanceBase(d) + x;
    stray := d >= 30;
    if !o.wrap && dist > o.cur {
      return Failed, DistBits(len, d), stray;
    }
    st, c := Going, Copying(len, dist);
  }

  /** Reads what is left of the length and distance of a match. */
  method MatchStep(r: Reader, o: Sink, t: HuffTable, c: Codes, ghost lit: seq<nat>)
    returns (st: Status, c': Codes, ghost stray: bool)
    requires r.Valid() && o.Valid() && t.Usable() && |t.lens| <= 32 && CodesShape(c, o)
    requires c.LenBits? || c.DistSym? || c.DistBits?
    modifies r`cur, r`bitBuf, r`numBits
    ensures r.Valid() && st in {Going, Failed, NeedsInput} && CodesShape(c', o) && r.Pos() >= old(r.Pos())
    ensures st == Going ==> Rank(c') < Rank(c)
    ensures Agrees(CodesGoes(c, lit, t.lens, BytesToBits(r.all), old(r.Pos()), o.made), stray, st,
                   CodesGoes(c', lit, t.lens, BytesToBits(r.all), r.Pos(), o.made), r.Pos(), o.made)
    ensures st == NeedsInput ==>
      r.Pos() == old(r.Pos()) && r.cur == |r.piece| && Beyond(c', lit, t.lens, BytesToBits(r.all), r.Pos(), r.End())
    ensures st == Going && !stray && Beyond(c, lit, t.lens, BytesToBits(r.all), old(r.Pos()), 8 * r.before) ==>
      r.Pos() > 8 * r.before
  {
    hide BytesToBits, Buffered, Ready, CodesGoes, Agrees, LengthExtra, DistanceExtra, NoneYet, Ring;
    match c {
      case LenBits(i) => st, c', stray := LengthStep(r, i, lit, t.lens, o.made);
      case DistSym(len, resumed) => st, c', stray := DistanceStep(r, t, len, resumed, lit, o.made);
      case DistBits(len, d) => st, c', stray := OffsetStep(r, o, len, d, lit, t.lens);
    }
  }

  /**
   Adds what is known to the output as far as there is room. A copy that goes on after a wait chooses
   its loop again, where the source is still inside the byte by byte one; both loops make the same bytes.
   */
  method PutStep(o: Sink, c: Codes, ghost lit: seq<nat>, ghost dst: seq<nat>, ghost bits: seq<bool>, ghost pos: nat)
    returns (st: Status, c': Codes, ghost stray: bool)
    requires o.Valid() && CodesShape(c, o) && (c.LitPut? || c.Copying?)
    modifies o`cur, o`made, o.buf
    ensures o.Valid() && st in {Going, HasMoreOutput} && CodesShape(c', o) && old(o.made) <= o.made
    ensures o.base == old(o.base)
    ensures st == Going ==> c' == LitSym(false) && (c.LitPut? ==> o.cur > old(o.cur)) && o.cur >= old(o.cur)
    ensures stray <==> c.Copying? && !(1 <= c.dist <= |old(o.made)|)
    ensures st == HasMoreOutput ==> o.cur == o.buf.Length && Owes(c')
    ensures Agrees(CodesGoes(c, lit, dst, bits, pos, old(o.made)), stray, st,
      CodesGoes(c', lit, dst, bits, pos, o.made), pos, o.made)
  {
    hide InflateCodes, Copy, Ring;
    o.Bounds();
    stray, c' := false, c;
    if c.LitPut? {
      if o.cur >= o.buf.Length {
        return HasMoreOutput, c, false;
      }
      o.Put(c.b);
      st, c' := Going, LitSym(false);
    } else {
      ghost var out := o.made;
      stray := !(1 <= c.dist <= |out|);
      var n := o.Copy(c.len, c.dist);
      if !stray {
        CopyTwice(out, n, c.len - n, c.dist);
        CopyNone(o.made, c.dist);
      }
      st, c' := if n < c.len then HasMoreOutput else Going,
        if n < c.len then Copying(c.len - n, c.dist) else LitSym(false);
    }
  }

  // ----- a block

  ghost predicate Tables(t0: HuffTable, t1: HuffTable)
    reads t0, t0.lk, t0.tr, t1, t1.lk, t1.tr
  {
    t0.Usable() && t1.Usable() && |t0.lens| <= 288 && |t1.lens| <= 32
  }

  /** One step, from one place at which the inflater may wait to the next. */
  method CodesStep(r: Reader, o: Sink, t0: HuffTable, t1: HuffTable, c: Codes)
    returns (st: Status, c': Codes, ghost stray: bool)
    requires r.Valid() && o.Valid() && Tables(t0, t1) && CodesShape(c, o)
    modifies r`cur, r`bitBuf, r`numBits, o`cur, o`made, o.buf
    ensures r.Valid() && o.Valid() && CodesShape(c', o) && st in {Going, Done, Failed, NeedsInput, HasMoreOutput}
    ensures old(o.made) <= o.made && o.base == old(o.base) && r.Pos() >= old(r.Pos())
    ensures Agrees(CodesGoes(c, t0.lens, t1.lens, BytesToBits(r.all), old(r.Pos()), old(o.made)), stray, st,
                   CodesGoes(c', t0.lens, t1.lens, BytesToBits(r.all), r.Pos(), o.made), r.Pos(), o.made)
    ensures st == Going ==> r.Pos() > old(r.Pos()) || o.cur > old(o.cur) || (o.cur == old(o.cur) && Rank(c') < Rank(c))
    ensures o.cur >= old(o.cur)
    ensures st == NeedsInput ==>
      && r.Pos() == old(r.Pos()) && r.cur == |r.piece|
      && Beyond(c', t0.lens, t1.lens, BytesToBits(r.all), r.Pos(), r.End())
    ensures st == HasMoreOutput ==>
      o.cur == o.buf.Length && Owes(c') && r.Pos() == old(r.Pos()) && (c.LitPut? || c.Copying?)
    ensures Beyond(c, t0.lens, t1.lens, BytesToBits(r.all), old(r.Pos()), 8 * r.before) ==>
      (st == Going || st == Done) && !stray ==> r.Pos() > 8 * r.before
  {
    hide BytesToBits, Ready, InflateCodes, MatchAt, DistAt, DistBitsAt, Follow, Ring, Agrees, NoneYet, Buffered;
    o.Bounds();
    if c.LitSym? {
      if c.resumed || |r.piece| - r.cur < 4 || o.buf.Length - o.cur < 2 {
        st, c', stray := SlowStep(r, t0, c.resumed, t1.lens, o.made);
      } else {
        st, c', stray := FastStep(r, o, t0, t1.lens);
      }
    } else if c.LitPut? || c.Copying? {
      st, c', stray := PutStep(o, c, t0.lens, t1.lens, BytesToBits(r.all), r.Pos());
    } else {
      st, c', stray := MatchStep(r, o, t1, c, t0.lens);
    }
  }

  /** Hardly any bits from before limit are left over once what is being read at pos has been read. */
  ghost predicate Lean(c: Codes, lit: seq<nat>, dst: seq<nat>, bits: seq<bool>, pos: nat, limit: int) {
    pos + 8 > limit || Beyond(c, lit, dst, bits, pos, limit)
  }

  lemma NotReading(c: Codes, lit: seq<nat>, dst: seq<nat>, bits: seq<bool>, pos: nat, limit: int)
    ensures c.LitPut? || c.Copying? ==> !Beyond(c, lit, dst, bits, pos, limit)
  {
  }

  /** Steps until the block ends, the piece is used up, the output is full or the block turns out to be bad. */
  method RunCodes(r: Reader, o: Sink, t0: HuffTable, t1: HuffTable, c0: Codes)
    returns (st: Status, c: Codes, ghost stray: bool)
    requires r.Valid() && o.Valid() && Tables(t0, t1) && CodesShape(c0, o)
    modifies r`cur, r`bitBuf, r`numBits, o`cur, o`made, o.buf
    ensures r.Valid() && o.Valid() && CodesShape(c, o) && old(o.made) <= o.made && o.base == old(o.base)
    ensures r.Pos() >= old(r.Pos())
    ensures st in {Done, Failed, NeedsInput, HasMoreOutput}
    ensures Agrees(CodesGoes(c0, t0.lens, t1.lens, BytesToBits(r.all), old(r.Pos()), old(o.made)), stray, st,
                   CodesGoes(c, t0.lens, t1.lens, BytesToBits(r.all), r.Pos(), o.made), r.Pos(), o.made)
    ensures st == NeedsInput ==> r.cur == |r.piece| && Beyond(c, t0.lens, t1.lens, BytesToBits(r.all), r.Pos(), r.End())
    ensures st == HasMoreOutput ==> o.cur == o.buf.Length && Owes(c)
    ensures Lean(c0, t0.lens, t1.lens, BytesToBits(r.all), old(r.Pos()), 8 * r.before) ==>
      st in {Done, HasMoreOutput} && !stray ==> r.Pos() + 8 > 8 * r.before
  {
    hide BytesToBits, Ready, InflateCodes, CodesGoes, Ring, Beyond, Buffered;
    ghost var bits := BytesToBits(r.all);
    ghost var g, lean := CodesGoes(c0, t0.lens, t1.lens, bits, r.Pos(), o.made),
      Lean(c0, t0.lens, t1.lens, bits, r.Pos(), 8 * r.before);
    c, stray := c0, false;
    while true
      invariant r.Valid() && o.Valid() && Tables(t0, t1) && CodesShape(c, o) && old(o.made) <= o.made
      invariant o.base == old(o.base) && r.Pos() >= old(r.Pos())
      invariant if stray then g == None else g == CodesGoes(c, t0.lens, t1.lens, bits, r.Pos(), o.made)
      invariant !stray && lean ==> Lean(c, t0.lens, t1.lens, bits, r.Pos(), 8 * r.before)
      decreases r.End() - r.Pos(), o.buf.Length - o.cur, Rank(c)
    {
      ghost var more;
      ghost var was, p := c, r.Pos();
      o.Bounds();
      st, c, more := CodesStep(r, o, t0, t1, c);
      o.Bounds();
      if stray {
        more := true;
      }
      stray := more;
      if st != Going {
        NotReading(was, t0.lens, t1.lens, bits, p, 8 * r.before);
        return;
      }
    }
  }
}

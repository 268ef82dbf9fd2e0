/** Decoding a symbol from the input, fetching no byte that is not needed. */
module HuffDecode {
  import opened Arith
  import opened Bits
  import opened Canonical
  import opened DecodeTable
  import opened Format
  import opened BitReader

  /** Code words that fit the buffer stand in it exactly if they stand in the input. */
  lemma BufferMatch(bits: seq<bool>, pos: nat, bitBuf: nat, numBits: nat, lens: seq<nat>, s: nat)
    requires Buffered(bits, pos, bitBuf, numBits) && s < |lens| && 0 < lens[s] <= numBits
    ensures Matches(lens, s, bitBuf) <==> Begins(lens, bits, pos, s)
  {
    hide ToBits, CodeWord, Pow2;
    BufferPrefix(bits, pos, bitBuf, numBits, lens[s]);
  }

  lemma BufferPrefix(bits: seq<bool>, pos: nat, bitBuf: nat, numBits: nat, n: nat)
    requires Buffered(bits, pos, bitBuf, numBits) && n <= numBits
    ensures At(bits, pos, ToBits(bitBuf, n))
  {
    hide ToBits, At, Pow2;
    ToBitsTake(bitBuf, numBits, n);
    var whole := ToBits(bitBuf, numBits);
    assert whole == whole[..n] + whole[n..];
    AtConcat(bits, pos, whole[..n], whole[n..]);
  }

  lemma {:induction false} NodesPrefix(nodes: Nodes, count: nat, lens: seq<nat>, v: nat, d: nat, e: nat)
    requires NodesOK(nodes, count, lens) && FAST_BITS <= d <= e && ToBits(v, e) in nodes
    ensures ToBits(v, d) in nodes
    decreases e
  {
    hide ToBits;
    if d >= e {
    } else {
      ToBitsTake(v, e, e - 1);
      assert ParentIn(nodes, ToBits(v, e));
      NodesPrefix(nodes, count, lens, v, d, e - 1);
    }
  }

  /** The walk leaves the tree at one place only. */
  lemma EndsOnce(nodes: Nodes, count: nat, lens: seq<nat>, v: nat, d: nat, e: nat)
    requires NodesOK(nodes, count, lens) && Ends(nodes, v, d) && Ends(nodes, v, e)
    ensures d == e || (d <= FAST_BITS && e <= FAST_BITS)
  {
    hide ToBits, NodesOK;
    if d > FAST_BITS {
      NodesPrefix(nodes, count, lens, v, FAST_BITS, d - 1);
      if FAST_BITS < e < d {
        NodesPrefix(nodes, count, lens, v, e, d - 1);
      }
    }
    if e > FAST_BITS {
      NodesPrefix(nodes, count, lens, v, FAST_BITS, e - 1);
      if FAST_BITS < d < e {
        NodesPrefix(nodes, count, lens, v, d, e - 1);
      }
    }
  }

  class HuffTable {
    const codeSize: array<nat>
    const lk: array<int>
    const tr: array<int>
    ghost var nodes: Nodes
    ghost var lens: seq<nat>

    constructor ()
      ensures codeSize.Length == 288 && lk.Length == FAST_SIZE && tr.Length == TREE_SIZE && lk != tr && fresh(codeSize)
      ensures fresh(lk) && fresh(tr)
    {
      codeSize := new nat[288];
      lk, tr := new int[FAST_SIZE], new int[TREE_SIZE];
      nodes, lens := map[], [];
    }

    ghost predicate Usable()
      reads this, lk, tr
    {
      Ready(lk[..], tr[..], nodes, lens)
    }

    /** Builds the tables; false if the lengths are not those of a code. */
    method Build(n: nat) returns (ok: bool)
      requires n <= 288 == codeSize.Length && ValidLens(codeSize[..n], MAX_BITS)
      requires lk.Length == FAST_SIZE && tr.Length == TREE_SIZE && lk != tr
      modifies this, lk, tr
      ensures ok <==> Accepted(codeSize[..n])
      ensures ok ==> Usable() && lens == codeSize[..n]
    {
      hide Accepted, Table, ValidLens;
      ok, nodes := BuildTable(codeSize, n, lk, tr);
      lens := codeSize[..n];
    }
  }

  /** The bits in the buffer settle, after d of them, what is decoded. */
  ghost predicate Settled(nodes: Nodes, lens: seq<nat>, v: nat, d: nat) {
    (exists s: nat :: Matches(lens, s, v) && lens[s] == d) || (d > FAST_BITS && Ends(nodes, v, d))
  }

  /** Tries to decode with the bits at hand. */
  method Peek(t: HuffTable, bitBuf: nat, numBits: nat) returns (done: bool, ghost d: nat)
    requires t.Usable()
    ensures done ==> d <= numBits && Settled(t.nodes, t.lens, bitBuf, d)
    ensures forall s: nat :: Matches(t.lens, s, bitBuf) && t.lens[s] <= numBits ==> done
  {
    hide Ready, Low, ToBits, Shr, Matches;
    LookNode(t.lk[..], t.tr[..], t.nodes, t.lens, bitBuf);
    var temp := t.lk[Low(bitBuf, FAST_BITS)];
    forall s: nat | Matches(t.lens, s, bitBuf)
      ensures s < |t.lens| && 0 < t.lens[s]
      ensures (temp < 0 && t.lens[s] > FAST_BITS) || (temp == 512 * t.lens[s] + s && s < 512)
    {
      MatchBound(t.lk[..], t.tr[..], t.nodes, t.lens, bitBuf, s);
      LookDecodes(t.lk[..], t.tr[..], t.nodes, t.lens, bitBuf, s);
    }
    done, d := false, 0;
    if temp >= 0 {
      LookValue(t.lk[..], t.tr[..], t.nodes, t.lens, bitBuf);
      var codeLen := temp / 512;
      done, d := codeLen != 0 && numBits >= codeLen, codeLen;
    } else if numBits > FAST_BITS {
      done, d := PeekTree(t, bitBuf, numBits, temp);
    }
  }

  method PeekTree(t: HuffTable, bitBuf: nat, numBits: nat, first: int) returns (done: bool, ghost d: nat)
    requires t.Usable() && numBits > FAST_BITS && first < 0
    requires ToBits(bitBuf, FAST_BITS) in t.nodes && first == Ref(t.nodes[ToBits(bitBuf, FAST_BITS)])
    requires forall s: nat :: Matches(t.lens, s, bitBuf) ==> OnTrack(t.lens, s, first, FAST_BITS)
    ensures done ==> FAST_BITS < d <= numBits && Ends(t.nodes, bitBuf, d)
    ensures forall s: nat :: Matches(t.lens, s, bitBuf) ==> s < |t.lens| && (t.lens[s] <= numBits ==> done)
  {
    hide Ready, Low, ToBits, Shr, Matches;
    var temp, codeLen := first, FAST_BITS;
    while temp < 0 && numBits >= codeLen + 1
      invariant temp < 0 ==> ToBits(bitBuf, codeLen) in t.nodes && temp == Ref(t.nodes[ToBits(bitBuf, codeLen)])
      invariant temp >= 0 ==> codeLen > FAST_BITS && Ends(t.nodes, bitBuf, codeLen)
      invariant FAST_BITS <= codeLen <= numBits
      invariant forall s: nat :: Matches(t.lens, s, bitBuf) ==> OnTrack(t.lens, s, temp, codeLen)
      decreases numBits - codeLen
    {
      WalkNode(t.lk[..], t.tr[..], t.nodes, t.lens, bitBuf, codeLen);
      WalkValue(t.lk[..], t.tr[..], t.nodes, t.lens, bitBuf, codeLen);
      ghost var i := Child(t.nodes, bitBuf, codeLen);
      temp := t.tr[-temp - 1 + Shr(bitBuf, codeLen) % 2];
      forall s: nat | Matches(t.lens, s, bitBuf) ensures OnTrack(t.lens, s, temp, codeLen + 1) {
        WalkMatch(t.lk[..], t.tr[..], t.nodes, t.lens, bitBuf, codeLen, s);
      }
      codeLen := codeLen + 1;
    }
    done, d := temp >= 0, codeLen;
  }

  /** What is settled within the buffer covers the whole code word that stands in the input. */
  lemma SettledCovers(bits: seq<bool>, pos: nat, bitBuf: nat, numBits: nat, lk: seq<int>, tr: seq<int>, nodes: Nodes,
                      lens: seq<nat>, d: nat, s: nat)
    requires Ready(lk, tr, nodes, lens) && Buffered(bits, pos, bitBuf, numBits) && d <= numBits
    requires Settled(nodes, lens, bitBuf, d)
    requires Begins(lens, bits, pos, s)
    ensures lens[s] <= numBits
  {
    if lens[s] > numBits {
      ReadyFacts(lk, tr, nodes, lens);
      hide Ready, ToBits, CodeWord, Entered, Coded, Pow2, Buffered;
      if t: nat :| Matches(lens, t, bitBuf) && lens[t] == d {
        BufferMatch(bits, pos, bitBuf, numBits, lens, t);
        SymbolIs(lens, bits, pos, s);
        SymbolIs(lens, bits, pos, t);
      } else {
        BufferPrefix(bits, pos, bitBuf, numBits, d);
        assert CodeWord(lens, s)[..d] == ToBits(bitBuf, d) by {
          assert CodeWord(lens, s)[..d] == bits[pos..pos + d];
        }
        EnteredUse(nodes, lens, |lens|, ToBits(bitBuf, d), s);
      }
    }
  }

  lemma ReadyFacts(lk: seq<int>, tr: seq<int>, nodes: Nodes, lens: seq<nat>)
    requires Ready(lk, tr, nodes, lens)
    ensures Coded(lens) && Entered(nodes, lens, |lens|) && NodesOK(nodes, |nodes|, lens) && |lens| <= 288
  {
    hide Coded, Accepted, Entered, NodesOK;
    AcceptedIsCoded(lens);
  }

  /** No code word stands next in the input as far as it is at hand. */
  ghost predicate NoneYet(lens: seq<nat>, bits: seq<bool>, pos: nat, end: int) {
    forall s: nat :: Begins(lens, bits, pos, s) ==> pos + lens[s] > end
  }

  /** Near the end of the piece: fetches a byte only while the bits at hand do not settle the symbol. */
  method BitbufFill(r: Reader, t: HuffTable) returns (ok: bool, ghost d: nat)
    requires r.Valid() && t.Usable() && r.numBits < 15
    modifies r`cur, r`bitBuf, r`numBits
    ensures r.Valid() && r.Pos() == old(r.Pos()) && r.numBits <= 22
    ensures ok ==> r.numBits >= 15 || (d <= r.numBits && Settled(t.nodes, t.lens, r.bitBuf, d))
    ensures ok ==> forall s: nat :: Begins(t.lens, BytesToBits(r.all), old(r.Pos()), s) ==> t.lens[s] <= r.numBits
    ensures forall s: nat :: Begins(t.lens, BytesToBits(r.all), old(r.Pos()), s) ==>
      r.cur == old(r.cur) || r.numBits < t.lens[s] + 8
    ensures !ok ==> r.cur == |r.piece| && NoneYet(t.lens, BytesToBits(r.all), old(r.Pos()), r.End())
  {
    hide Ready, Buffered, BytesToBits, Matches, At, CodeWord, Settled;
    ok, d := false, 0;
    ghost var bits, pos := BytesToBits(r.all), r.Pos();
    while true
      invariant r.Valid() && r.Pos() == pos && r.numBits < 15
      invariant forall s: nat :: Begins(t.lens, bits, pos, s) ==> r.cur == old(r.cur) || r.numBits < t.lens[s] + 8
      decreases |r.piece| - r.cur
    {
      ghost var v, n := r.bitBuf, r.numBits;
      ok, d := Peek(t, r.bitBuf, r.numBits);
      forall s: nat | Begins(t.lens, bits, pos, s)
        ensures if ok then t.lens[s] <= n else n < t.lens[s]
      {
        BeginsFacts(t.lens, bits, pos, s);
        if ok {
          SettledCovers(bits, pos, v, n, t.lk[..], t.tr[..], t.nodes, t.lens, d, s);
        } else if t.lens[s] <= n {
          BufferMatch(bits, pos, v, n, t.lens, s);
        }
      }
      if ok {
        return;
      }
      if r.cur >= |r.piece| {
        return;
      }
      r.Push();
      if r.numBits >= 15 {
        forall s: nat | Begins(t.lens, bits, pos, s) ensures t.lens[s] <= 15 {
          BeginsFacts(t.lens, bits, pos, s);
          CodeLengthBound(t.lk[..], t.tr[..], t.nodes, t.lens, s);
        }
        ok := true;
        return;
      }
    }
  }

  lemma BeginsFacts(lens: seq<nat>, bits: seq<bool>, pos: nat, s: nat)
    requires Begins(lens, bits, pos, s)
    ensures s < |lens| && 0 < lens[s] && pos + lens[s] <= |bits|
  {
  }

  lemma CodeLengthBound(lk: seq<int>, tr: seq<int>, nodes: Nodes, lens: seq<nat>, s: nat)
    requires Ready(lk, tr, nodes, lens) && s < |lens|
    ensures lens[s] <= 15
  {
  }

  /**
   Makes sure the buffer holds the next code word. One that was begun before the piece arrived is gone
   on with byte by byte.
   */
  method Refill(r: Reader, t: HuffTable, resumed: bool) returns (ok: bool, ghost d: nat)
    requires r.Valid() && t.Usable()
    modifies r`cur, r`bitBuf, r`numBits
    ensures r.Valid() && r.Pos() == old(r.Pos())
    ensures ok ==> r.numBits >= 15 || (d <= r.numBits && Settled(t.nodes, t.lens, r.bitBuf, d))
    ensures ok ==> forall s: nat :: Begins(t.lens, BytesToBits(r.all), old(r.Pos()), s) ==> t.lens[s] <= r.numBits
    ensures !ok ==> r.cur == |r.piece| && NoneYet(t.lens, BytesToBits(r.all), old(r.Pos()), r.End())
  {
    hide Ready, Buffered, BytesToBits, At, CodeWord, Settled, NoneYet;
    ok, d := true, 0;
    if r.numBits < 15 && (resumed || |r.piece| - r.cur < 2) {
      ok, d := BitbufFill(r, t);
    } else {
      if r.numBits < 15 {
        r.Push();
        r.Push();
      }
      forall s: nat | s < |t.lens| ensures t.lens[s] <= 15 {
        CodeLengthBound(t.lk[..], t.tr[..], t.nodes, t.lens, s);
      }
    }
  }

  /**
   Symbol sym was decoded at pos and reading goes on at next: its code word stood there, or none did
   and it is zero.
   */
  ghost predicate Decoded(lens: seq<nat>, bits: seq<bool>, pos: nat, sym: nat, next: int) {
    && (if Begins(lens, bits, pos, sym) then next == pos + lens[sym]
        else sym == 0 && next >= pos && forall s: nat :: !Begins(lens, bits, pos, s))
    && (sym > 0 ==> sym < |lens| && next > pos)
  }

  /** Decodes the next symbol: the one whose code word stands next in the input. Where none does, it is symbol zero. */
  method Decode(r: Reader, t: HuffTable, resumed: bool) returns (ok: bool, sym: nat)
    requires r.Valid() && t.Usable()
    modifies r`cur, r`bitBuf, r`numBits
    ensures r.Valid()
    ensures ok ==> Decoded(t.lens, BytesToBits(r.all), old(r.Pos()), sym, r.Pos())
    ensures !ok ==>
      r.Pos() == old(r.Pos()) && r.cur == |r.piece| && NoneYet(t.lens, BytesToBits(r.all), r.Pos(), r.End())
  {
    hide Ready, Buffered, BytesToBits, At, CodeWord, Matches, Settled, Ends, NoneYet;
    ghost var d;
    sym := 0;
    ok, d := Refill(r, t, resumed);
    if ok {
      sym := TakeSymbol(r, t, d);
    }
  }

  /** Takes a symbol out of the buffer, which holds all of its code word. */
  method TakeSymbol(r: Reader, t: HuffTable, ghost d: nat) returns (sym: nat)
    requires r.Valid() && t.Usable()
    requires r.numBits >= 15 || (d <= r.numBits && Settled(t.nodes, t.lens, r.bitBuf, d))
    requires forall s: nat :: Begins(t.lens, BytesToBits(r.all), r.Pos(), s) ==> t.lens[s] <= r.numBits
    modifies r`bitBuf, r`numBits
    ensures r.Valid() && Decoded(t.lens, BytesToBits(r.all), old(r.Pos()), sym, r.Pos())
    ensures r.numBits >= old(r.numBits) - 15
  {
    hide Ready, Buffered, BytesToBits, At, CodeWord, Matches, Settled, Ends;
    ghost var bits, pos := BytesToBits(r.all), r.Pos();
    var codeLen;
    sym, codeLen := DecodeSym(t.lk, t.tr, r.bitBuf, t.nodes, t.lens);
    if r.numBits < 15 {
      SettledLength(t.lk[..], t.tr[..], t.nodes, t.lens, r.bitBuf, d, codeLen);
    }
    forall s: nat | Begins(t.lens, bits, pos, s) ensures sym == s && codeLen == t.lens[s] {
      BufferMatch(bits, pos, r.bitBuf, r.numBits, t.lens, s);
    }
    SymbolFacts(t.lens, sym, r.bitBuf);
    if Matches(t.lens, sym, r.bitBuf) && codeLen == t.lens[sym] {
      BufferMatch(bits, pos, r.bitBuf, r.numBits, t.lens, sym);
    }
    var _ := r.Drop(codeLen);
  }

  lemma SymbolFacts(lens: seq<nat>, s: nat, v: nat)
    ensures Matches(lens, s, v) ==> s < |lens| && lens[s] > 0
  {
  }

  /** The number of bits used is the number that settled the symbol. */
  lemma SettledLength(lk: seq<int>, tr: seq<int>, nodes: Nodes, lens: seq<nat>, v: nat, d: nat, codeLen: nat)
    requires Ready(lk, tr, nodes, lens) && Settled(nodes, lens, v, d) && Ends(nodes, v, codeLen)
    requires forall s: nat :: Matches(lens, s, v) ==> codeLen == lens[s]
    ensures codeLen <= d
  {
    hide ToBits, CodeWord;
    if d > FAST_BITS && Ends(nodes, v, d) {
      ReadyFacts(lk, tr, nodes, lens);
      EndsOnce(nodes, |nodes|, lens, v, d, codeLen);
    }
  }
}

/** The inflater's input, which arrives in pieces: a bit buffer in front of the bytes not yet read. */
module BitReader {
  import opened Arith
  import opened Bits
  import opened BitIO
  import opened Format

  /** The buffer holds the bits from position pos up to the bytes not yet read. */
  ghost predicate Buffered(bits: seq<bool>, pos: nat, bitBuf: nat, numBits: nat) {
    bitBuf < Pow2(numBits) && At(bits, pos, ToBits(bitBuf, numBits))
  }

  lemma PushByte(input: seq<byte>, cur: nat, bitBuf: nat, numBits: nat)
    requires cur < |input| && numBits <= 8 * cur && Buffered(BytesToBits(input), 8 * cur - numBits, bitBuf, numBits)
    ensures Buffered(BytesToBits(input), 8 * cur - numBits, bitBuf + Shl(input[cur], numBits), numBits + 8)
  {
    hide BytesToBits, ToBits, Shl, At;
    var b := input[cur];
    Pow2Eight();
    PackBound(bitBuf, numBits, b, 8);
    ToBitsConcat(bitBuf, numBits, b, 8);
    ByteInStream(input, cur);
    AtConcat(BytesToBits(input), 8 * cur - numBits, ToBits(bitBuf, numBits), ToBits(b, 8));
  }

  lemma ByteInStream(input: seq<byte>, cur: nat)
    requires cur < |input|
    ensures At(BytesToBits(input), 8 * cur, ToBits(input[cur], 8))
  {
    BytesToBitsSlice(input, cur);
  }

  /** Dropping the low bits of the buffer moves the position past them. */
  lemma DropBits(bits: seq<bool>, pos: nat, bitBuf: nat, numBits: nat, n: nat)
    requires Buffered(bits, pos, bitBuf, numBits) && n <= numBits
    ensures Number(bits, pos, n) == Some(Low(bitBuf, n)) && Buffered(bits, pos + n, Shr(bitBuf, n), numBits - n)
  {
    hide ToBits, Shr, Low, At, Number, Pow2;
    ToBitsTake(bitBuf, numBits, n);
    ToBitsDrop(bitBuf, numBits, n);
    ShrLess(bitBuf, n, numBits);
    var whole := ToBits(bitBuf, numBits);
    assert whole == whole[..n] + whole[n..];
    AtConcat(bits, pos, whole[..n], whole[n..]);
    NumberIs(bits, pos, bitBuf, n);
  }

  lemma BoundaryAfter(cur: nat, numBits: nat)
    requires numBits <= 8 * cur
    ensures Aligned(8 * cur - numBits) == 8 * cur - numBits + numBits % 8
  {
    var n, q := 8 * cur - numBits, cur - numBits / 8;
    assert 8 * q - 8 < n <= 8 * q;
    assert (n + 7) / 8 == q;
  }

  /** Fewer bits of the buffer are still the bits that follow. */
  lemma FewerBits(bits: seq<bool>, pos: nat, bitBuf: nat, numBits: nat, n: nat)
    requires Buffered(bits, pos, bitBuf, numBits) && n <= numBits
    ensures Buffered(bits, pos, Low(bitBuf, n), n)
  {
    hide ToBits, At, Pow2, Low;
    ToBitsTake(bitBuf, numBits, n);
    ToBitsLow(bitBuf, n);
    LowBound(bitBuf, n);
    var whole := ToBits(bitBuf, numBits);
    assert whole == whole[..n] + whole[n..];
    AtConcat(bits, pos, whole[..n], whole[n..]);
  }

  class Reader {
    /** The whole input, as far as it has arrived and beyond. */
    ghost const all: seq<byte>
    /** How much of it was taken in before the present piece. */
    ghost var before: nat
    var piece: seq<byte>
    var cur: nat
    var bitBuf: nat
    var numBits: nat

    constructor (ghost all: seq<byte>)
      ensures Valid() && Pos() == 0 && this.all == all && before == cur == 0 && piece == []
    {
      this.all := all;
      before, piece, cur, bitBuf, numBits := 0, [], 0, 0, 0;
    }

    ghost predicate Valid()
      reads this
    {
      && before + |piece| <= |all| && all[before..before + |piece|] == piece && cur <= |piece|
      && numBits <= 8 * (before + cur) && numBits <= 61
      && Buffered(BytesToBits(all), 8 * (before + cur) - numBits, bitBuf, numBits)
    }

    /** The position of the next bit. */
    ghost function Pos(): int
      reads this
    {
      8 * (before + cur) - numBits
    }

    /** Where the input at hand ends. */
    ghost function End(): int
      reads this
    {
      8 * (before + |piece|)
    }

    /** At a byte boundary the buffer holds whole bytes. */
    lemma WholeBytes()
      requires Valid()
      ensures Pos() % 8 == 0 ==> numBits % 8 == 0
      ensures 0 <= Pos() <= 8 * |all|
    {
      hide Buffered, BytesToBits;
      assert numBits == 8 * (before + cur) - Pos();
    }

    lemma InBounds()
      requires Valid()
      ensures 0 <= Pos() <= |BytesToBits(all)|
    {
    }

    /** Goes on with the next piece of the input. */
    method Feed(input: seq<byte>)
      requires Valid() && before + cur + |input| <= |all| && all[before + cur..before + cur + |input|] == input
      modifies this`before, this`piece, this`cur
      ensures Valid() && Pos() == old(Pos()) && piece == input && cur == 0 && before == old(before + cur)
      ensures numBits == old(numBits) && bitBuf == old(bitBuf)
    {
      hide Buffered, BytesToBits;
      before, piece, cur := before + cur, input, 0;
    }

    /** Appends the next byte to the buffer. */
    method Push()
      requires Valid() && cur < |piece| && numBits <= 53
      modifies this`cur, this`bitBuf, this`numBits
      ensures Valid() && Pos() == old(Pos()) && cur == old(cur) + 1 && numBits == old(numBits) + 8
    {
      hide Buffered, BytesToBits, Shl;
      assert piece[cur] == all[before + cur];
      PushByte(all, before + cur, bitBuf, numBits);
      bitBuf := bitBuf + Shl(piece[cur], numBits);
      cur, numBits := cur + 1, numBits + 8;
    }

    method Drop(n: nat) returns (v: nat)
      requires Valid() && n <= numBits
      modifies this`bitBuf, this`numBits
      ensures Valid() && Pos() == old(Pos()) + n && numBits == old(numBits) - n
      ensures Number(BytesToBits(all), old(Pos()), n) == Some(v)
    {
      hide Buffered, BytesToBits, Number, Low, Shr;
      DropBits(BytesToBits(all), 8 * (before + cur) - numBits, bitBuf, numBits, n);
      v := Low(bitBuf, n);
      bitBuf := Shr(bitBuf, n);
      numBits := numBits - n;
    }

    /**
     Reads n bits, fetching bytes as needed; false if the piece ends first. Asked again with the next
     piece, it goes on.
     */
    method GetBits(n: nat) returns (ok: bool, v: nat)
      requires Valid() && n <= 16
      modifies this`cur, this`bitBuf, this`numBits
      ensures Valid()
      ensures ok ==> Number(BytesToBits(all), old(Pos()), n) == Some(v) && Pos() == old(Pos()) + n
      ensures ok ==> numBits < 8 || numBits == old(numBits) - n
      ensures !ok ==> Pos() == old(Pos()) && cur == |piece| && Pos() + n > End()
    {
      hide Buffered, BytesToBits;
      v := 0;
      while numBits < n
        invariant Valid() && Pos() == old(Pos()) && (numBits < n + 8 || numBits == old(numBits))
        decreases |piece| - cur
      {
        if cur >= |piece| {
          return false, 0;
        }
        Push();
      }
      ok := true;
      v := Drop(n);
    }

    /** Discards the bits up to the next byte boundary. */
    method Align()
      requires Valid()
      modifies this`bitBuf, this`numBits
      ensures Valid() && Pos() == Aligned(old(Pos())) && numBits % 8 == 0
    {
      hide Buffered, BytesToBits, Aligned;
      BoundaryAfter(before + cur, numBits);
      var _ := Drop(numBits % 8);
    }

    /** Gives whole bytes of the piece that were read ahead back to the caller. */
    method PutBack()
      requires Valid()
      modifies this`cur, this`bitBuf, this`numBits
      ensures Valid() && Pos() == old(Pos()) && cur <= old(cur) && numBits <= old(numBits) && (numBits < 8 || cur == 0)
    {
      hide Buffered, BytesToBits, Low;
      ghost var b, n, p := bitBuf, numBits, Pos();
      while cur > 0 && numBits >= 8
        invariant 0 <= cur <= old(cur) && numBits <= n && bitBuf == b && 8 * (before + cur) - numBits == p
      {
        cur, numBits := cur - 1, numBits - 8;
      }
      FewerBits(BytesToBits(all), p, b, n, numBits);
      bitBuf := Low(bitBuf, numBits);
    }
  }
}

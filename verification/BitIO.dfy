/** The encoder's bit writer: bits wait in a buffer until they make up bytes. */
module BitIO {
  import opened Arith
  import opened Bits

  lemma ByteSplit(v: nat, n: nat)
    requires n >= 8
    ensures Low(v, 8) < 256 && ToBits(v, n) == ToBits(Low(v, 8), 8) + ToBits(Shr(v, 8), n - 8)
  {
    LowBound(v, 8);
    hide ToBits, Low, Shr;
    ToBitsTake(v, n, 8);
    ToBitsDrop(v, n, 8);
    ToBitsLow(v, 8);
    assert ToBits(v, n) == ToBits(v, n)[..8] + ToBits(v, n)[8..];
  }

  /**
   From having written b0, x is written to reach b1. The flags say that no byte had been dropped, and
   none is if there is room.
   */
  ghost predicate Sent(capacity: nat, b0: seq<bool>, c0: bool, x: seq<bool>, b1: seq<bool>, c1: bool) {
    && (c1 ==> c0 && b1 == b0 + x)
    && (c0 && |b0| + |x| < 8 * capacity + 8 ==> c1)
  }

  lemma SentNothing(capacity: nat, b: seq<bool>, c: bool)
    ensures Sent(capacity, b, c, [], b, c)
  {
    assert b + [] == b;
  }

  lemma SentMore(capacity: nat, b0: seq<bool>, c0: bool, x: seq<bool>, b1: seq<bool>, c1: bool, y: seq<bool>,
                 b2: seq<bool>, c2: bool)
    requires Sent(capacity, b0, c0, x, b1, c1) && Sent(capacity, b1, c1, y, b2, c2)
    ensures Sent(capacity, b0, c0, x + y, b2, c2)
  {
    ConcatAssoc(b0, x, y);
  }

  /**
   Bits waiting to become bytes, in front of an output buffer of fixed capacity. When the buffer is
   full further bytes are dropped; clean says that this has not happened.
   */
  class BitWriter {
    var out: seq<byte>
    var bitBuffer: nat
    var bitsIn: nat
    const capacity: nat
    ghost var clean: bool

    constructor (capacity: nat)
      ensures Valid() && clean && Bits() == [] && this.capacity == capacity
    {
      this.capacity := capacity;
      out, bitBuffer, bitsIn, clean := [], 0, 0, true;
    }

    ghost predicate Valid()
      reads this
    {
      bitsIn < 8 && bitBuffer < Pow2(bitsIn) && |out| <= capacity && (!clean ==> |out| == capacity)
    }

    /** Everything written: whole bytes, then the bits not yet making up a byte. */
    ghost function Bits(): seq<bool>
      reads this
    {
      BytesToBits(out) + ToBits(bitBuffer, bitsIn)
    }

    /** Appends the len low bits of a value, least significant first, if there is room. */
    method PutBits(bits: nat, len: nat)
      requires Valid() && len <= 16 && bits < Pow2(len)
      modifies this
      ensures Valid() && Sent(capacity, old(Bits()), old(clean), ToBits(bits, len), Bits(), clean)
    {
      ghost var before, added := Bits(), ToBits(bits, len);
      hide ToBits, BytesToBits, Shl;
      ToBitsConcat(bitBuffer, bitsIn, bits, len);
      PackBound(bitBuffer, bitsIn, bits, len);
      ConcatAssoc(BytesToBits(out), ToBits(bitBuffer, bitsIn), added);
      bitBuffer := bitBuffer + Shl(bits, bitsIn);
      bitsIn := bitsIn + len;
      while bitsIn >= 8
        invariant bitBuffer < Pow2(bitsIn) && |out| <= capacity && (!clean ==> |out| == capacity)
        invariant clean ==> old(clean) && BytesToBits(out) + ToBits(bitBuffer, bitsIn) == before + added
        invariant old(clean) && |before| + len < 8 * capacity + 8 ==> clean
      {
        ByteSplit(bitBuffer, bitsIn);
        ShrLess(bitBuffer, 8, bitsIn);
        var b: byte := Low(bitBuffer, 8);
        var rest := Shr(bitBuffer, 8);
        if |out| < capacity {
          ConcatAssoc(BytesToBits(out), ToBits(b, 8), ToBits(rest, bitsIn - 8));
          BytesToBitsSnoc(out, b);
          out := out + [b];
        } else {
          clean := false;
        }
        bitBuffer := rest;
        bitsIn := bitsIn - 8;
      }
    }

    /** Goes back to a state saved earlier, forgetting what was written since. */
    method Restore(savedOut: seq<byte>, savedBuffer: nat, savedBits: nat)
      requires |savedOut| <= capacity && savedBits < 8 && savedBuffer < Pow2(savedBits)
      modifies this
      ensures Valid() && clean && out == savedOut && bitBuffer == savedBuffer && bitsIn == savedBits
    {
      out, bitBuffer, bitsIn, clean := savedOut, savedBuffer, savedBits, true;
    }
  }

  lemma PackBound(x: nat, m: nat, y: nat, n: nat)
    requires x < Pow2(m) && y < Pow2(n)
    ensures x + Shl(y, m) < Pow2(m + n)
  {
    ShlMono(y + 1, Pow2(n), m);
    ShlAdd(y, 1, m);
    ShlShl(1, n, m);
    assert m + n == n + m;
  }
}

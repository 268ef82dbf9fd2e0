/** Lazy and greedy parsing of the input into literals and matches. */
module Parser {
  import opened Arith
  import opened Bits
  import opened Tokens
  import opened CodeBuffer
  import opened Dictionary

  datatype Flags = Flags(probes: nat, zlib: bool, adler: bool, greedy: bool, rle: bool, filter: bool, static': bool,
    raw: bool)

  /** The tokens recorded since the block began stand for the data up to p. */
  ghost predicate Covers(data: seq<byte>, start: nat, ts: seq<Token>, p: nat) {
    start <= p <= |data| && Expand(data[..start], ts) == Some(data[..p])
  }

  lemma CoverLiteral(data: seq<byte>, start: nat, ts: seq<Token>, p: nat, b: byte)
    requires Covers(data, start, ts, p) && p < |data| && b == data[p]
    ensures Covers(data, start, ts + [Literal(b)], p + 1)
  {
    hide Expand;
    ExpandSnoc(data[..start], ts, Literal(b));
    assert data[..p] + [b] == data[..p + 1];
  }

  lemma CoverMatch(data: seq<byte>, start: nat, ts: seq<Token>, p: nat, len: nat, dist: nat)
    requires Covers(data, start, ts, p) && Repeats(data, p, len, dist)
    ensures Covers(data, start, ts + [Match(len, dist)], p + len)
  {
    hide Expand, Copy;
    ExpandSnoc(data[..start], ts, Match(len, dist));
    MatchExtends(data, p, len, dist);
  }

  lemma CoverMore(data: seq<byte>, more: seq<byte>, start: nat, ts: seq<Token>, p: nat)
    requires Covers(data, start, ts, p) && data <= more
    ensures Covers(more, start, ts, p)
  {
    assert data[..start] == more[..start] && data[..p] == more[..p];
  }

  lemma CoverNothing(data: seq<byte>, p: nat)
    requires p <= |data|
    ensures Covers(data, p, [], p)
  {
  }

  lemma CoverSize(data: seq<byte>, start: nat, ts: seq<Token>, p: nat)
    requires Covers(data, start, ts, p)
    ensures Covered(ts) == p - start
  {
    ExpandedSize(data[..start], ts);
  }

  /** A match held back to see whether the next position has a longer one. */
  ghost predicate Held(data: seq<byte>, pos: nat, size: nat, lit: byte, len: nat, dist: nat) {
    len > 0 ==>
      && MIN_MATCH <= len < 128 && len <= size + 1 && dist <= WINDOW
      && 1 <= pos && Repeats(data, pos - 1, len, dist) && lit == data[pos - 1]
  }

  lemma HeldMore(data: seq<byte>, more: seq<byte>, pos: nat, size: nat, size': nat, lit: byte, len: nat, dist: nat)
    requires Held(data, pos, size, lit, len, dist) && data <= more && size <= size'
    ensures Held(more, pos, size', lit, len, dist)
  {
    if len > 0 {
      RepeatsMore(data, more, pos - 1, len, dist);
    }
  }

  class Matcher {
    const flags: Flags
    const la: Lookahead
    const lz: LzCodes
    var lit: byte
    var dist: nat
    var len: nat
    var start: nat

    constructor (flags: Flags)
      ensures Valid() && this.flags == flags && la.data == [] && la.pos == la.size == 0 && start == 0 && lz.pos == 1
      ensures lz.Recorded() == []
      ensures fresh(la) && fresh(lz) && fresh(Arrays())
    {
      this.flags := flags;
      la := new Lookahead((1 + (flags.probes + 2) / 3, 1 + (flags.probes / 4 + 2) / 3));
      lz := new LzCodes();
      lit, dist, len, start := 0, 0, 0, 0;
      new;
      CoverNothing(la.data, 0);
    }

    ghost function Arrays(): set<object> {
      {la.dict as object, la.next as object, la.hash as object, lz.buf as object, lz.lit as object, lz.dst as object}
    }

    ghost predicate Apart() {
      la.dict != lz.buf
    }

    /** How much of the data the recorded tokens stand for. */
    ghost function Done(): int
      reads this, la
    {
      if len > 0 then la.pos - 1 else la.pos
    }

    ghost predicate Valid()
      reads this, la, la.dict, lz, lz.buf, lz.lit, lz.dst
    {
      && Apart() && la.Valid() && lz.Valid()
      && Held(la.data, la.pos, la.size, lit, len, dist)
      && Done() >= 0 && Covers(la.data, start, lz.Recorded(), Done())
      && (flags.rle || flags.raw ==> len == 0)
    }

    /** Length of the run of the previous byte at the current position. */
    method RunLength() returns (n: nat)
      requires la.Valid() && la.dictSize > 0
      ensures n <= la.size && Repeats(la.data, la.pos, n, 1)
    {
      ReadWindow(la.dict[..], la.data, la.pos - la.dictSize, la.pos - 1, 0);
      var c := la.dict[(la.pos - 1) % WINDOW];
      var cur := la.pos % WINDOW;
      n := 0;
      while n < la.size
        invariant n <= la.size && forall k :: la.pos - 1 <= k < la.pos + n ==> la.data[k] == c
      {
        ReadWindow(la.dict[..], la.data, la.pos - la.dictSize, la.pos, n);
        if la.dict[cur + n] != c {
          break;
        }
        n := n + 1;
      }
    }

    /** The match, if any, to consider at the current position. */
    method Candidate() returns (d: nat, l: nat)
      requires la.Valid() && (len > 0 ==> MIN_MATCH <= len < 128)
      ensures d > 0 ==> MIN_MATCH <= l <= la.size && d <= WINDOW && Repeats(la.data, la.pos, l, d)
      ensures d > 0 || l <= Max(len, MIN_MATCH - 1)
      ensures flags.raw ==> d == 0
    {
      hide Repeats, Window;
      d, l := 0, if len > 0 then len else MIN_MATCH - 1;
      if flags.rle || flags.raw {
        if la.dictSize > 0 && !flags.raw {
          l := RunLength();
          if l < MIN_MATCH {
            l := 0;
          } else {
            d := 1;
          }
        }
      } else {
        d, l := la.FindMatch(la.dictSize, la.size, d, l);
      }
      if (l == MIN_MATCH && d >= 8 * 1024) || la.pos % WINDOW == d || (flags.filter && l <= 5) {
        d, l := 0, 0;
      }
    }

    /** Moves past n bytes of the lookahead. */
    method Advance(n: nat)
      requires la.Valid() && n <= la.size
      modifies la`pos, la`size, la`dictSize
      ensures la.Valid() && la.pos == old(la.pos) + n && la.size == old(la.size) - n && la.data == old(la.data)
    {
      hide Window;
      la.pos, la.size := la.pos + n, la.size - n;
      la.dictSize := Min(la.dictSize + n, WINDOW);
    }

    /** Records the byte at the front of what is not yet covered. */
    method TakeLiteral(b: byte, ghost p: nat)
      requires lz.Valid() && lz.pos + 1 < CODE_BUF_SIZE && Covers(la.data, start, lz.Recorded(), p) && p < |la.data|
      requires b == la.data[p]
      modifies lz, lz.buf, lz.lit
      ensures lz.Valid() && lz.pos <= old(lz.pos) + 2 && Covers(la.data, start, lz.Recorded(), p + 1)
    {
      hide lz.Valid, Covers;
      CoverLiteral(la.data, start, lz.Recorded(), p, b);
      lz.RecordLiteral(b);
    }

    method TakeMatch(l: nat, d: nat, ghost p: nat)
      requires lz.Valid() && lz.pos + 3 < CODE_BUF_SIZE && Covers(la.data, start, lz.Recorded(), p)
      requires MIN_MATCH <= l <= MAX_MATCH && d <= WINDOW && Repeats(la.data, p, l, d)
      modifies lz, lz.buf, lz.lit, lz.dst
      ensures lz.Valid() && lz.pos <= old(lz.pos) + 4 && Covers(la.data, start, lz.Recorded(), p + l)
    {
      hide lz.Valid, Covers;
      CoverMatch(la.data, start, lz.Recorded(), p, l, d);
      lz.RecordMatch(l, d);
    }

    /** The byte at the current position. */
    method Here() returns (b: byte)
      requires la.Valid() && la.size > 0
      ensures b == la.data[la.pos]
    {
      ReadWindow(la.dict[..], la.data, la.pos - la.dictSize, la.pos, 0);
      b := la.dict[la.pos % WINDOW];
    }

    /** Settles a held match, now that the next position's candidate is known. */
    method SettleHeld(d: nat, l: nat) returns (move: nat)
      requires Valid() && len > 0 && la.size > 0 && lz.pos <= CODE_BUF_SIZE - 8
      requires d > 0 ==> MIN_MATCH <= l <= la.size && d <= WINDOW && Repeats(la.data, la.pos, l, d)
      requires d > 0 || l <= len
      modifies this`lit, this`dist, this`len, lz, lz.buf, lz.lit, lz.dst
      ensures lz.Valid() && lz.pos <= old(lz.pos) + 6 && 1 <= move <= la.size
      ensures Held(la.data, la.pos + move, la.size - move, lit, len, dist)
      ensures Covers(la.data, start, lz.Recorded(), if len > 0 then la.pos + move - 1 else la.pos + move)
    {
      hide Repeats, Window, Covers, lz.Valid;
      HeldFacts(la.data, la.pos, la.size, lit, len, dist);
      if l > len {
        TakeLiteral(lit, la.pos - 1);
        if l >= 128 {
          TakeMatch(l, d, la.pos);
          len, move := 0, l;
        } else {
          var b := Here();
          lit, dist, len, move := b, d, l, 1;
        }
      } else {
        TakeMatch(len, dist, la.pos - 1);
        move, len := len - 1, 0;
      }
    }

    /** Records what stands at the current position, or holds a match back. */
    method SettleHere(d: nat, l: nat) returns (move: nat)
      requires Valid() && len == 0 && la.size > 0 && lz.pos <= CODE_BUF_SIZE - 8
      requires d > 0 ==> MIN_MATCH <= l <= la.size && d <= WINDOW && Repeats(la.data, la.pos, l, d)
      modifies this`lit, this`dist, this`len, lz, lz.buf, lz.lit, lz.dst
      ensures lz.Valid() && lz.pos <= old(lz.pos) + 6 && 1 <= move <= la.size
      ensures Held(la.data, la.pos + move, la.size - move, lit, len, dist)
      ensures Covers(la.data, start, lz.Recorded(), if len > 0 then la.pos + move - 1 else la.pos + move)
      ensures flags.rle || (flags.raw && d == 0) ==> len == 0
    {
      hide Repeats, Window, Covers, lz.Valid;
      move := 1;
      var b := Here();
      if d == 0 {
        TakeLiteral(b, la.pos);
      } else if flags.greedy || flags.rle || l >= 128 {
        TakeMatch(l, d, la.pos);
        move := l;
      } else {
        lit, dist, len := b, d, l;
      }
    }

    /** One step of the parse: settles a held match or the byte at the current position, and moves on. */
    method Step()
      requires Valid() && la.size > 0 && lz.pos <= CODE_BUF_SIZE - 8
      modifies this`lit, this`dist, this`len, la`pos, la`size, la`dictSize, lz, lz.buf, lz.lit, lz.dst
      ensures Valid() && la.data == old(la.data) && la.pos > old(la.pos) && lz.pos <= old(lz.pos) + 6
    {
      hide Repeats, Window, Covers, lz.Valid, la.Valid, Held;
      LaFacts(la);
      HeldLength(la.data, la.pos, la.size, lit, len, dist);
      var d, l := Candidate();
      var move;
      if len > 0 {
        move := SettleHeld(d, l);
      } else {
        move := SettleHere(d, l);
      }
      Advance(move);
    }
  }

  lemma LaFacts(la: Lookahead)
    requires la.Valid()
    ensures la.size <= MAX_MATCH && |la.data| == la.pos + la.size
  {
  }

  lemma HeldLength(data: seq<byte>, pos: nat, size: nat, lit: byte, len: nat, dist: nat)
    requires Held(data, pos, size, lit, len, dist)
    ensures len > 0 ==> MIN_MATCH <= len < 128
  {
  }

  lemma HeldFacts(data: seq<byte>, pos: nat, size: nat, lit: byte, len: nat, dist: nat)
    requires Held(data, pos, size, lit, len, dist) && len > 0
    ensures MIN_MATCH <= len < 128 && len <= size + 1 && dist <= WINDOW && 1 <= pos <= |data| && lit == data[pos - 1]
    ensures Repeats(data, pos - 1, len, dist)
  {
  }
}

/**
 The buffer of recorded tokens: payload bytes in groups of up to eight tokens, each group behind a
 byte of flags that tell matches from literals.
 */
module CodeBuffer {
  import opened Arith
  import opened Bits
  import opened Tokens
  import opened SymFreqs

  ghost predicate AllValid(ts: seq<Token>) {
    forall i :: 0 <= i < |ts| ==> ValidToken(ts[i])
  }

  ghost function Kinds(ts: seq<Token>): (r: seq<bool>)
    ensures |r| == |ts|
  {
    seq(|ts|, i requires 0 <= i < |ts| => ts[i].Match?)
  }

  ghost function TokenBytes(t: Token): (r: seq<byte>)
    requires ValidToken(t)
    ensures 1 <= |r| <= 3
  {
    match t
    case Literal(b) => [b]
    case Match(len, dist) => [len - MIN_MATCH, (dist - 1) % 256, (dist - 1) / 256]
  }

  ghost function Payload(ts: seq<Token>): (r: seq<byte>)
    requires AllValid(ts)
    ensures |r| >= |ts|
  {
    if ts == [] then [] else Payload(ts[..|ts| - 1]) + TokenBytes(ts[|ts| - 1])
  }

  ghost function FlagByte(g: seq<Token>): (f: byte)
    requires |g| <= 8
  {
    FromBitsBound(Kinds(g));
    Pow2Mono(|g|, 8);
    FromBits(Kinds(g))
  }

  /** Where the last group of n tokens starts. */
  function LastGroup(n: nat): (k: nat)
    requires n > 0
    ensures k < n <= k + 8 && k % 8 == 0
  {
    (n - 1) / 8 * 8
  }

  /** Whole groups of eight, then one of what is left over. */
  ghost function Pack(ts: seq<Token>): (r: seq<byte>)
    requires AllValid(ts)
    ensures 8 * |r| >= 9 * |ts|
    decreases |ts|
  {
    if ts == [] then []
    else
      var k := LastGroup(|ts|);
      Pack(ts[..k]) + ([FlagByte(ts[k..])] + Payload(ts[k..]))
  }

  lemma LastGroupIs(h: nat, g: nat)
    requires h % 8 == 0 && 1 <= g <= 8
    ensures LastGroup(h + g) == h
  {
  }

  lemma AllValidConcat(ts: seq<Token>, us: seq<Token>)
    requires AllValid(ts) && AllValid(us)
    ensures AllValid(ts + us)
  {
  }

  lemma PackSplit(ts: seq<Token>, k: nat)
    requires AllValid(ts) && k < |ts| && k == LastGroup(|ts|)
    ensures Pack(ts) == Pack(ts[..k]) + ([FlagByte(ts[k..])] + Payload(ts[k..]))
  {
    hide Payload, FlagByte, LastGroup;
  }

  lemma PackGroup(head: seq<Token>, g: seq<Token>)
    requires |head| % 8 == 0 && 1 <= |g| <= 8 && AllValid(head) && AllValid(g)
    ensures AllValid(head + g) && Pack(head + g) == Pack(head) + ([FlagByte(g)] + Payload(g))
  {
    hide Payload, FlagByte, LastGroup, AllValid, Pack;
    var ts := head + g;
    AllValidConcat(head, g);
    LastGroupIs(|head|, |g|);
    PackSplit(ts, |head|);
    assert ts[..|head|] == head && ts[|head|..] == g;
  }

  lemma PayloadSnoc(ts: seq<Token>, t: Token)
    requires AllValid(ts) && ValidToken(t)
    ensures AllValid(ts + [t]) && Payload(ts + [t]) == Payload(ts) + TokenBytes(t)
  {
    assert (ts + [t])[..|ts|] == ts;
  }

  /** Shifting a flag in at the top of the flag byte. */
  lemma FlagShift(f: byte, m: bool)
    ensures var f' := f / 2 + (if m then 128 else 0);
      f' < 256 && ToBits(f', 8) == ToBits(f, 8)[1..] + [m]
  {
    hide ToBits, Shr, Shl;
    var y := if m then 1 else 0;
    FlagShiftFacts(f, m);
    ToBitsConcat(f / 2, 7, y, 1);
    ToBitsDrop(f, 8, 1);
  }

  lemma FlagShiftFacts(f: byte, m: bool)
    ensures var y := if m then 1 else 0;
      Shr(f, 1) == f / 2 && Shl(y, 7) == 128 * y && ToBits(y, 1) == [m] && Pow2(7) == 128
  {
    ShlSmall(1);
    ShlSmall(0);
    assert ToBits(0, 0) == [];
  }

  /**
   A buffer being filled: the complete groups, then a flag byte whose used bits are at the top, then
   the payload of the group under way.
   */
  ghost predicate Layout(buf: seq<byte>, pos: nat, flagsPos: nat, left: nat, head: seq<Token>, cur: seq<Token>) {
    && AllValid(head) && AllValid(cur) && |head| % 8 == 0 && 1 <= left && |cur| + left == 8
    && flagsPos < pos <= |buf|
    && buf[..flagsPos] == Pack(head)
    && buf[flagsPos + 1..pos] == Payload(cur)
    && ToBits(buf[flagsPos], 8)[left..] == Kinds(cur)
  }

  /** What recording a token changes in the buffer. */
  ghost predicate Written(buf: seq<byte>, buf': seq<byte>, pos: nat, flagsPos: nat, t: Token) {
    && ValidToken(t) && flagsPos < pos && |buf| == |buf'| && pos + |TokenBytes(t)| <= |buf|
    && buf'[..flagsPos] == buf[..flagsPos]
    && buf'[flagsPos + 1..pos] == buf[flagsPos + 1..pos]
    && buf'[pos..pos + |TokenBytes(t)|] == TokenBytes(t)
    && buf'[flagsPos] == buf[flagsPos] / 2 + (if t.Match? then 128 else 0)
  }

  lemma StepGroup(buf: seq<byte>, buf': seq<byte>, pos: nat, flagsPos: nat, left: nat, head: seq<Token>,
                  cur: seq<Token>, t: Token)
    requires Layout(buf, pos, flagsPos, left, head, cur) && Written(buf, buf', pos, flagsPos, t)
    ensures AllValid(cur + [t])
    ensures buf'[flagsPos + 1..pos + |TokenBytes(t)|] == Payload(cur + [t])
    ensures ToBits(buf'[flagsPos], 8)[left - 1..] == Kinds(cur + [t])
  {
    hide Pack, Payload, ToBits, TokenBytes, AllValid;
    PayloadSnoc(cur, t);
    assert buf'[flagsPos + 1..pos + |TokenBytes(t)|] == buf'[flagsPos + 1..pos] + buf'[pos..pos + |TokenBytes(t)|];
    FlagShift(buf[flagsPos], t.Match?);
    var b := ToBits(buf[flagsPos], 8);
    assert (b[1..] + [t.Match?])[left - 1..] == b[left..] + [t.Match?];
    assert Kinds(cur + [t]) == Kinds(cur) + [t.Match?];
  }

  lemma StepLayout(buf: seq<byte>, buf': seq<byte>, pos: nat, flagsPos: nat, left: nat, head: seq<Token>,
                   cur: seq<Token>, t: Token)
    requires Layout(buf, pos, flagsPos, left, head, cur) && Written(buf, buf', pos, flagsPos, t)
    ensures left > 1 ==> Layout(buf', pos + |TokenBytes(t)|, flagsPos, left - 1, head, cur + [t])
    ensures left == 1 && pos + |TokenBytes(t)| < |buf| ==>
      Layout(buf', pos + |TokenBytes(t)| + 1, pos + |TokenBytes(t)|, 8, head + (cur + [t]), [])
  {
    hide Pack, Payload, ToBits, TokenBytes, AllValid, Kinds;
    StepGroup(buf, buf', pos, flagsPos, left, head, cur, t);
    if left == 1 {
      var p := pos + |TokenBytes(t)|;
      SealGroup(buf', p, flagsPos, head, cur + [t]);
      EmptyGroup(buf', p);
    }
  }

  lemma EmptyGroup(buf: seq<byte>, p: nat)
    requires p <= |buf|
    ensures AllValid([]) && Payload([]) == [] && Kinds([]) == []
  {
  }

  /** A flag byte holding nothing but a group's flags completes the group. */
  lemma SealGroup(buf: seq<byte>, p: nat, flagsPos: nat, head: seq<Token>, g: seq<Token>)
    requires AllValid(head) && AllValid(g) && |head| % 8 == 0 && 1 <= |g| <= 8 && flagsPos < p <= |buf|
    requires buf[..flagsPos] == Pack(head) && buf[flagsPos + 1..p] == Payload(g)
    requires buf[flagsPos] < Pow2(|g|) && ToBits(buf[flagsPos], |g|) == Kinds(g)
    ensures AllValid(head + g) && buf[..p] == Pack(head + g)
  {
    hide Pack, Payload, ToBits, AllValid, Kinds;
    PackGroup(head, g);
    FromToBits(buf[flagsPos], |g|);
    LowSmall(buf[flagsPos], |g|);
    assert buf[..p] == buf[..flagsPos] + ([buf[flagsPos]] + buf[flagsPos + 1..p]);
  }

  // ----- symbol counts

  ghost function LitSym(t: Token): (s: nat)
    requires ValidToken(t)
    ensures s < 286 && s != 256
  {
    match t
    case Literal(b) => b
    case Match(len, _) =>
      LengthRoundTrip(len);
      LenSym(len - MIN_MATCH)
  }

  /** How many tokens use literal/length symbol s. */
  ghost function LitUses(ts: seq<Token>, s: nat): nat
    requires AllValid(ts)
  {
    if ts == [] then 0 else LitUses(ts[..|ts| - 1], s) + (if LitSym(ts[|ts| - 1]) == s then 1 else 0)
  }

  ghost predicate UsesDist(t: Token, s: nat)
    requires ValidToken(t)
  {
    t.Match? && DistSym(t.dist - 1) == s
  }

  /** How many tokens use distance symbol s. */
  ghost function DistUses(ts: seq<Token>, s: nat): nat
    requires AllValid(ts)
  {
    if ts == [] then 0 else DistUses(ts[..|ts| - 1], s) + (if UsesDist(ts[|ts| - 1], s) then 1 else 0)
  }

  /** How many bytes the tokens stand for. */
  ghost function Covered(ts: seq<Token>): nat {
    if ts == [] then 0
    else Covered(ts[..|ts| - 1]) + (if ts[|ts| - 1].Literal? then 1 else ts[|ts| - 1].len)
  }

  lemma {:induction false} ExpandedSize(out: seq<byte>, ts: seq<Token>)
    requires Expand(out, ts).Some?
    ensures |Expand(out, ts).value| == |out| + Covered(ts)
    decreases |ts|
  {
    hide Expand;
    if ts == [] {
      ExpandNone(out);
    } else {
      var us, t := ts[..|ts| - 1], ts[|ts| - 1];
      assert ts == us + [t];
      ExpandSnoc(out, us, t);
      ExpandedSize(out, us);
    }
  }

  ghost predicate Counted(lit: seq<nat>, dst: seq<nat>, ts: seq<Token>) {
    && AllValid(ts) && |lit| == 288 && |dst| == 32
    && (forall s :: 0 <= s < 288 ==> lit[s] == LitUses(ts, s))
    && (forall s :: 0 <= s < 32 ==> dst[s] == DistUses(ts, s))
    && Sum(lit) == |ts| && Sum(dst) <= |ts|
  }

  lemma {:induction false} SumUpdate(s: seq<nat>, i: nat, x: nat)
    requires i < |s|
    ensures Sum(s[i := x]) + s[i] == Sum(s) + x
  {
    if i == 0 {
      assert s[i := x][1..] == s[1..];
    } else {
      assert s[i := x][1..] == s[1..][i - 1 := x];
      SumUpdate(s[1..], i - 1, x);
    }
  }

  lemma CountToken(lit: seq<nat>, dst: seq<nat>, ts: seq<Token>, t: Token)
    requires Counted(lit, dst, ts) && ValidToken(t)
    ensures t.Match? ==> DistSym(t.dist - 1) < 30
    ensures Counted(lit[LitSym(t) := lit[LitSym(t)] + 1],
      if t.Match? then dst[DistSym(t.dist - 1) := dst[DistSym(t.dist - 1)] + 1] else dst, ts + [t])
  {
    hide LitSym, DistSym, Sum, ValidToken;
    var us := ts + [t];
    assert us[..|us| - 1] == ts;
    AllValidConcat(ts, [t]);
    SumUpdate(lit, LitSym(t), lit[LitSym(t)] + 1);
    if t.Match? {
      DistSymSmall(t);
      SumUpdate(dst, DistSym(t.dist - 1), dst[DistSym(t.dist - 1)] + 1);
    }
  }

  lemma DistSymSmall(t: Token)
    requires ValidToken(t) && t.Match?
    ensures 1 <= t.dist <= WINDOW && DistSym(t.dist - 1) < 30
  {
    DistanceRoundTrip(t.dist);
  }

  const CODE_BUF_SIZE: nat := 65536

  class LzCodes {
    const buf: array<byte>
    const lit: array<nat>
    const dst: array<nat>
    var pos: nat
    var flagsPos: nat
    var left: nat
    var total: nat
    ghost var head: seq<Token>
    ghost var cur: seq<Token>

    constructor ()
      ensures Valid() && Recorded() == [] && pos == 1
      ensures fresh(buf) && fresh(lit) && fresh(dst)
    {
      buf := new byte[CODE_BUF_SIZE];
      lit := new nat[288](_ => 0);
      dst := new nat[32](_ => 0);
      pos, flagsPos, left, total := 1, 0, 8, 0;
      head, cur := [], [];
      new;
      NothingRecorded(buf[..], lit[..], dst[..]);
    }

    ghost predicate Valid()
      reads this, buf, lit, dst
    {
      && buf.Length == CODE_BUF_SIZE && lit.Length == 288 && dst.Length == 32 && lit != dst
      && Layout(buf[..], pos, flagsPos, left, head, cur)
      && Counted(lit[..], dst[..], head + cur)
      && total == Covered(head + cur)
    }

    ghost function Recorded(): seq<Token>
      reads this
    {
      head + cur
    }

    /** The flag and bookkeeping shared by literals and matches, whose payload is in place. */
    method Flag(ghost t: Token, match': bool, n: nat, ghost before: seq<byte>)
      requires buf.Length == CODE_BUF_SIZE && Layout(before, pos, flagsPos, left, head, cur)
      requires ValidToken(t) && match' == t.Match? && n == |TokenBytes(t)| && pos + n < CODE_BUF_SIZE
      requires |before| == CODE_BUF_SIZE && buf[..] == before[..pos] + TokenBytes(t) + before[pos + n..]
      modifies this`pos, this`flagsPos, this`left, this`head, this`cur, buf
      ensures Layout(buf[..], pos, flagsPos, left, head, cur)
      ensures head + cur == old(head + cur) + [t]
      ensures old(pos) + n <= pos <= old(pos) + n + 1
    {
      hide Layout, TokenBytes, ValidToken, Written, AllValid;
      LayoutFacts(before, pos, flagsPos, left, head, cur);
      ghost var b1 := buf[..];
      assert b1[flagsPos] == before[flagsPos];
      FlagShift(buf[flagsPos], match');
      buf[flagsPos] := buf[flagsPos] / 2 + (if match' then 128 else 0);
      assert buf[..] == b1[flagsPos := buf[flagsPos]];
      WrittenIs(before, b1, buf[..], pos, flagsPos, t);
      StepLayout(before, buf[..], pos, flagsPos, left, head, cur, t);
      pos, left := pos + n, left - 1;
      if left == 0 {
        left := 8;
        flagsPos := pos;
        pos := pos + 1;
        head, cur := head + (cur + [t]), [];
      } else {
        cur := cur + [t];
      }
    }

    /** Records a byte that is sent as itself. */
    method RecordLiteral(b: byte)
      requires Valid() && pos + 1 < CODE_BUF_SIZE
      modifies this, buf, lit
      ensures Valid() && Recorded() == old(Recorded()) + [Literal(b)] && pos <= old(pos) + 2
    {
      hide Layout, Counted, Covered;
      LayoutFacts(buf[..], pos, flagsPos, left, head, cur);
      ghost var before, ts, t := buf[..], head + cur, Literal(b);
      CountToken(lit[..], dst[..], ts, t);
      total := total + 1;
      buf[pos] := b;
      assert buf[..] == before[..pos] + TokenBytes(t) + before[pos + 1..];
      Flag(t, false, 1, before);
      ghost var counts := lit[..];
      lit[b] := lit[b] + 1;
      assert lit[..] == counts[LitSym(t) := counts[LitSym(t)] + 1];
      RecordedMore(old(head), old(cur), head, cur, t);
    }

    /** Records len bytes that repeat those dist bytes back. */
    method RecordMatch(len: nat, dist: nat)
      requires Valid() && pos + 3 < CODE_BUF_SIZE && ValidToken(Match(len, dist))
      modifies this, buf, lit, dst
      ensures Valid() && Recorded() == old(Recorded()) + [Match(len, dist)] && pos <= old(pos) + 4
    {
      hide Layout, Counted, Covered, LitSym, DistSym, LenSym;
      LayoutFacts(buf[..], pos, flagsPos, left, head, cur);
      ghost var before, ts, t := buf[..], head + cur, Match(len, dist);
      CountToken(lit[..], dst[..], ts, t);
      LitSymIs(len, dist);
      total := total + len;
      buf[pos] := len - MIN_MATCH;
      var d := dist - 1;
      buf[pos + 1] := d % 256;
      buf[pos + 2] := d / 256;
      assert buf[..] == before[..pos] + TokenBytes(t) + before[pos + 3..];
      Flag(t, true, 3, before);
      ghost var dcounts, lcounts := dst[..], lit[..];
      dst[DistSym(d)] := dst[DistSym(d)] + 1;
      assert dst[..] == dcounts[DistSym(d) := dcounts[DistSym(d)] + 1];
      lit[LenSym(len - MIN_MATCH)] := lit[LenSym(len - MIN_MATCH)] + 1;
      assert lit[..] == lcounts[LitSym(t) := lcounts[LitSym(t)] + 1];
      RecordedMore(old(head), old(cur), head, cur, t);
    }

    /** Moves the last group's flags to the bottom of their byte and drops a flag byte that has none. */
    method Seal()
      requires Valid()
      modifies this`pos, buf
      ensures AllValid(Recorded()) && pos <= old(pos) <= CODE_BUF_SIZE && buf[..pos] == Pack(Recorded())
    {
      hide Pack, Payload, ToBits, Counted, Covered, AllValid;
      ghost var before := buf[..];
      var f := Shr(buf[flagsPos], left);
      ShiftedFlags(buf[flagsPos], left);
      buf[flagsPos] := f;
      assert buf[..] == before[flagsPos := f];
      assert buf[..flagsPos] == before[..flagsPos];
      if left == 8 {
        assert cur == [] && head + cur == head;
        pos := flagsPos;
      } else {
        assert buf[flagsPos + 1..pos] == before[flagsPos + 1..pos];
        SealGroup(buf[..], pos, flagsPos, head, cur);
      }
    }

    /** Starts the next block with an empty buffer. */
    method Reset()
      requires buf.Length == CODE_BUF_SIZE && lit.Length == 288 && dst.Length == 32 && lit != dst
      modifies this, lit, dst
      ensures Valid() && Recorded() == [] && pos == 1
    {
      for s := 0 to 288
        invariant forall i :: 0 <= i < s ==> lit[i] == 0
      {
        lit[s] := 0;
      }
      for s := 0 to 32
        invariant forall i :: 0 <= i < s ==> dst[i] == 0
        invariant forall i :: 0 <= i < 288 ==> lit[i] == 0
      {
        dst[s] := 0;
      }
      pos, flagsPos, left, total := 1, 0, 8, 0;
      head, cur := [], [];
      NothingRecorded(buf[..], lit[..], dst[..]);
    }
  }

  lemma LitSymIs(len: nat, dist: nat)
    requires ValidToken(Match(len, dist))
    ensures LitSym(Match(len, dist)) == LenSym(len - MIN_MATCH)
  {
  }

  lemma ShiftedFlags(f: byte, left: nat)
    requires 1 <= left <= 8
    ensures Shr(f, left) <= f && Shr(f, left) < Pow2(8 - left) && ToBits(Shr(f, left), 8 - left) == ToBits(f, 8)[left..]
  {
    Pow2Eight();
    LowShr(f, left);
    ShlGrows(Shr(f, left), left);
    ShrLess(f, left, 8);
    ToBitsDrop(f, 8, left);
  }

  lemma RecordedMore(head: seq<Token>, cur: seq<Token>, head': seq<Token>, cur': seq<Token>, t: Token)
    requires head' + cur' == head + cur + [t]
    ensures Covered(head' + cur') == Covered(head + cur) + (if t.Literal? then 1 else t.len)
  {
    assert (head + cur + [t])[..|head + cur|] == head + cur;
  }

  lemma NothingRecorded(buf: seq<byte>, lit: seq<nat>, dst: seq<nat>)
    requires |buf| == CODE_BUF_SIZE && |lit| == 288 && |dst| == 32
    requires (forall s :: 0 <= s < 288 ==> lit[s] == 0) && (forall s :: 0 <= s < 32 ==> dst[s] == 0)
    ensures Layout(buf, 1, 0, 8, [], []) && Counted(lit, dst, [] + []) && Covered([] + []) == 0
  {
    SumZero(lit);
    SumZero(dst);
    hide ToBits;
    assert ToBits(buf[0], 8)[8..] == [];
  }

  lemma {:induction false} SumZero(s: seq<nat>)
    requires forall i :: 0 <= i < |s| ==> s[i] == 0
    ensures Sum(s) == 0
  {
    if s == [] {
    } else {
      SumZero(s[1..]);
    }
  }

  lemma LayoutFacts(buf: seq<byte>, pos: nat, flagsPos: nat, left: nat, head: seq<Token>, cur: seq<Token>)
    requires Layout(buf, pos, flagsPos, left, head, cur)
    ensures flagsPos < pos <= |buf| && 1 <= left <= 8 && AllValid(head) && AllValid(cur)
    ensures 9 * |head + cur| <= 8 * pos
  {
    hide Pack, Payload;
    assert |buf[..flagsPos]| == |Pack(head)|;
    assert |buf[flagsPos + 1..pos]| == |Payload(cur)|;
  }

  lemma WrittenIs(before: seq<byte>, b1: seq<byte>, b2: seq<byte>, pos: nat, flagsPos: nat, t: Token)
    requires ValidToken(t) && flagsPos < pos && pos + |TokenBytes(t)| <= |before|
    requires b1 == before[..pos] + TokenBytes(t) + before[pos + |TokenBytes(t)|..]
    requires b2 == b1[flagsPos := before[flagsPos] / 2 + (if t.Match? then 128 else 0)]
    ensures Written(before, b2, pos, flagsPos, t)
  {
    hide TokenBytes;
    assert b2[..flagsPos] == before[..flagsPos];
    assert b2[flagsPos + 1..pos] == before[flagsPos + 1..pos];
    assert b2[pos..pos + |TokenBytes(t)|] == TokenBytes(t);
  }

  // ----- reading the buffer back

  lemma {:induction false} PayloadAt(g: seq<Token>, j: nat)
    requires AllValid(g) && j < |g|
    ensures Payload(g[..j]) + TokenBytes(g[j]) <= Payload(g)
    decreases |g|
  {
    hide TokenBytes;
    var u := g[..|g| - 1];
    if j >= |u| {
    } else {
      PayloadAt(u, j);
      assert u[..j] == g[..j];
    }
  }

  lemma {:induction false} PackPrefix(ts: seq<Token>, e: nat)
    requires AllValid(ts) && e <= |ts| && e % 8 == 0
    ensures Pack(ts[..e]) <= Pack(ts)
    decreases |ts|
  {
    if e < |ts| {
      hide Pack, Payload, FlagByte;
      var k := LastGroup(|ts|);
      PackSplit(ts, k);
      GroupBelow(|ts|, e);
      PackPrefix(ts[..k], e);
      assert ts[..k][..e] == ts[..e];
    } else {
      assert ts[..e] == ts;
    }
  }

  lemma GroupBelow(n: nat, e: nat)
    requires e < n && e % 8 == 0
    ensures e <= LastGroup(n)
  {
  }

  /** Where the group of token n starts. */
  function GroupStart(n: nat): (k: nat)
    ensures k <= n < k + 8 && k % 8 == 0
  {
    n / 8 * 8
  }

  lemma GroupNext(n: nat)
    ensures n % 8 == 0 ==> GroupStart(n) == n
    ensures n % 8 != 0 ==> GroupStart(n) < n
    ensures (n + 1) % 8 == 0 <==> n + 1 == GroupStart(n) + 8
    ensures (n + 1) % 8 != 0 ==> GroupStart(n + 1) == GroupStart(n)
  {
  }

  /** The end of the group that token n, which starts it, belongs to. */
  function GroupEnd(n: nat, total: nat): (e: nat)
    requires n < total
    ensures n < e <= n + 8 && e <= total && (e == total || e == n + 8)
  {
    Min(n + 8, total)
  }

  /** Where a group lies in the packed bytes. */
  lemma GroupAt(ts: seq<Token>, k: nat)
    requires AllValid(ts) && k < |ts| && k % 8 == 0
    ensures var g := ts[k..GroupEnd(k, |ts|)];
      Pack(ts[..k]) + ([FlagByte(g)] + Payload(g)) <= Pack(ts)
    ensures GroupEnd(k, |ts|) == |ts| ==>
      |Pack(ts)| == |Pack(ts[..k])| + 1 + |Payload(ts[k..])|
    ensures GroupEnd(k, |ts|) < |ts| ==>
      |Pack(ts[..k + 8])| == |Pack(ts[..k])| + 1 + |Payload(ts[k..k + 8])|
  {
    hide Pack, Payload, FlagByte, AllValid;
    var e := GroupEnd(k, |ts|);
    AllValidSlice(ts, 0, k);
    AllValidSlice(ts, k, e);
    PackGroup(ts[..k], ts[k..e]);
    assert ts[..k] + ts[k..e] == ts[..e];
    if e == |ts| {
      assert ts[..e] == ts;
    } else {
      PackPrefix(ts, e);
    }
  }

  lemma AllValidSlice(ts: seq<Token>, i: nat, j: nat)
    requires AllValid(ts) && i <= j <= |ts|
    ensures AllValid(ts[i..j]) && AllValid(ts[..j])
  {
  }

  /** The nine bits the reader shifts through for a group: its flags and a stop bit. */
  ghost function FlagBits(g: seq<Token>): (r: seq<bool>)
    requires |g| <= 8
    ensures |r| == 9
  {
    ToBits(FlagByte(g), 8) + [true]
  }

  lemma FlagBitsAt(g: seq<Token>, j: nat)
    requires j < |g| <= 8
    ensures FlagBits(g)[j] == g[j].Match?
  {
    var k := Kinds(g);
    ToFromBits(k);
    ToBitsTake(FromBits(k), 8, |g|);
    assert FlagBits(g)[j] == ToBits(FlagByte(g), 8)[..|g|][j] == k[j];
  }

  /** The reader inside a group, about to read token n. */
  ghost predicate InGroup(ts: seq<Token>, n: nat, p: nat, flags: nat) {
    && AllValid(ts) && n < |ts|
    && var k := GroupStart(n);
    && p == |Pack(ts[..k])| + 1 + |Payload(ts[k..n])|
    && flags == FromBits(FlagBits(ts[k..GroupEnd(k, |ts|)])[n - k..])
  }

  /** The reader between tokens, n of which have been read. */
  ghost predicate Cursor(ts: seq<Token>, n: nat, p: nat, flags: nat) {
    && AllValid(ts) && n <= |ts|
    && (n == |ts| ==> p == |Pack(ts)|)
    && (n < |ts| && n % 8 == 0 ==> p == |Pack(ts[..n])| && flags == 1)
    && (n < |ts| && n % 8 != 0 ==> InGroup(ts, n, p, flags) && flags != 1)
  }

  lemma CursorInside(ts: seq<Token>, n: nat, p: nat, flags: nat)
    requires Cursor(ts, n, p, flags)
    ensures p <= |Pack(ts)| && (p < |Pack(ts)| <==> n < |ts|)
  {
    hide Pack, Payload, FlagByte, AllValid, FlagBits, FromBits, GroupStart;
    GroupNext(n);
    if n < |ts| {
      var k := GroupStart(n);
      GroupAt(ts, k);
      var g := ts[k..GroupEnd(k, |ts|)];
      if n % 8 != 0 {
        AllValidSlice(ts, k, GroupEnd(k, |ts|));
        PayloadAt(g, n - k);
        assert g[..n - k] == ts[k..n];
      }
    }
  }

  /** Reading the flag byte in front of a group. */
  lemma EnterGroup(ts: seq<Token>, n: nat, p: nat)
    requires Cursor(ts, n, p, 1) && n < |ts|
    ensures p < |Pack(ts)| && InGroup(ts, n, p + 1, 256 + Pack(ts)[p] as nat)
  {
    hide Pack, FlagByte, AllValid, FlagBits, GroupStart;
    GroupNext(n);
    GroupAt(ts, n);
    AllValidSlice(ts, 0, n);
    AllValidSlice(ts, n, GroupEnd(n, |ts|));
    var g := ts[n..GroupEnd(n, |ts|)];
    var w := Pack(ts[..n]) + ([FlagByte(g)] + Payload(g));
    assert w[p] == FlagByte(g);
    assert Pack(ts)[p] == w[p];
    FlagValue(g);
    assert ts[n..n] == [];
    assert FlagBits(g)[0..] == FlagBits(g);
  }

  lemma FlagValue(g: seq<Token>)
    requires |g| <= 8
    ensures FromBits(FlagBits(g)) == 256 + FlagByte(g) as nat
  {
    Pow2Eight();
    assert FromBits([true]) == 1;
    hide ToBits, FromBits, Pow2, FlagByte;
    var f := FlagByte(g);
    FromBitsConcat(ToBits(f, 8), [true]);
    FromToBits(f, 8);
    LowSmall(f, 8);
    ShlSmall(1);
  }

  /** A token's flag and payload. */
  lemma TokenAt(ts: seq<Token>, n: nat, p: nat, flags: nat)
    requires InGroup(ts, n, p, flags)
    ensures flags % 2 == (if ts[n].Match? then 1 else 0)
    ensures p + |TokenBytes(ts[n])| <= |Pack(ts)| && Pack(ts)[p..p + |TokenBytes(ts[n])|] == TokenBytes(ts[n])
  {
    hide Pack, Payload, FlagByte, AllValid, FlagBits, TokenBytes, ToBits, FromBits, GroupStart, GroupEnd;
    var k := GroupStart(n);
    var e := GroupEnd(k, |ts|);
    var g, j := ts[k..e], n - k;
    GroupNext(n);
    GroupAt(ts, k);
    AllValidSlice(ts, k, e);
    AllValidSlice(ts, k, n);
    AllValidSlice(ts, 0, k);
    PayloadAt(g, j);
    assert g[..j] == ts[k..n] && g[j] == ts[n];
    SliceOf(Pack(ts[..k]), FlagByte(g), Payload(g), Pack(ts), Payload(ts[k..n]), TokenBytes(ts[n]));
    FlagBitsAt(g, j);
    NextFlags(g, j);
  }

  /** Reading a token: its flag, its payload, and the state after it. */
  lemma ReadToken(ts: seq<Token>, n: nat, p: nat, flags: nat)
    requires InGroup(ts, n, p, flags)
    ensures flags % 2 == (if ts[n].Match? then 1 else 0)
    ensures p + |TokenBytes(ts[n])| <= |Pack(ts)| && Pack(ts)[p..p + |TokenBytes(ts[n])|] == TokenBytes(ts[n])
    ensures Cursor(ts, n + 1, p + |TokenBytes(ts[n])|, flags / 2)
  {
    hide Pack, Payload, FlagByte, AllValid, FlagBits, TokenBytes, ToBits, FromBits, GroupStart, GroupEnd;
    var k := GroupStart(n);
    var e := GroupEnd(k, |ts|);
    TokenAt(ts, n, p, flags);
    GroupNext(n);
    GroupAt(ts, k);
    AllValidSlice(ts, k, e);
    AllValidSlice(ts, k, n);
    NextFlags(ts[k..e], n - k);
    PayloadSnoc(ts[k..n], ts[n]);
    assert ts[k..n] + [ts[n]] == ts[k..n + 1];
    assert n + 1 == |ts| ==> ts[k..n + 1] == ts[k..];
  }

  lemma NextFlags(g: seq<Token>, j: nat)
    requires j < |g| <= 8
    ensures var b := FlagBits(g);
      && FromBits(b[j..]) % 2 == (if b[j] then 1 else 0) && FromBits(b[j..]) / 2 == FromBits(b[j + 1..])
      && (FromBits(b[j + 1..]) == 1 <==> j == 7)
  {
    hide ToBits, FlagByte, FromBits;
    var b := FlagBits(g);
    assert b[8];
    ShiftFlags(b, j);
    StopBit(b, j + 1);
  }

  lemma ShiftFlags(b: seq<bool>, j: nat)
    requires j < |b|
    ensures FromBits(b[j..]) % 2 == (if b[j] then 1 else 0) && FromBits(b[j..]) / 2 == FromBits(b[j + 1..])
  {
    var c := b[j..];
    assert c[1..] == b[j + 1..] && c[0] == b[j];
    LowAndHigh(if c[0] then 1 else 0, FromBits(c[1..]));
  }

  lemma LowAndHigh(x: nat, y: nat)
    requires x <= 1
    ensures (x + 2 * y) % 2 == x && (x + 2 * y) / 2 == y
  {
  }

  lemma {:induction false} StopBit(b: seq<bool>, i: nat)
    requires |b| == 9 && b[8] && i <= 8
    ensures FromBits(b[i..]) >= 1 && (FromBits(b[i..]) == 1 <==> i == 8)
    decreases 8 - i
  {
    assert b[i..][0] == b[i];
    assert b[i..][1..] == b[i + 1..];
    if i >= 8 {
    } else {
      StopBit(b, i + 1);
    }
  }

  lemma SliceOf(a: seq<byte>, f: byte, y: seq<byte>, whole: seq<byte>, u: seq<byte>, v: seq<byte>)
    requires a + ([f] + y) <= whole && u + v <= y
    ensures |a| + 1 + |u| + |v| <= |whole| && whole[|a| + 1 + |u|..|a| + 1 + |u| + |v|] == v
  {
    var w := a + ([f] + y);
    assert whole[|a| + 1 + |u|..|a| + 1 + |u| + |v|] == w[|a| + 1 + |u|..|a| + 1 + |u| + |v|] == y[|u|..|u| + |v|] ==
      (u + v)[|u|..];
  }

  // ----- the buffer is hardly larger than what the tokens stand for

  lemma {:induction false} PayloadCovered(ts: seq<Token>)
    requires AllValid(ts)
    ensures |Payload(ts)| <= Covered(ts) && |ts| <= Covered(ts)
    decreases |ts|
  {
    if ts == [] {
    } else {
      PayloadCovered(ts[..|ts| - 1]);
    }
  }

  lemma {:induction false} CoveredConcat(a: seq<Token>, b: seq<Token>)
    ensures Covered(a + b) == Covered(a) + Covered(b)
    decreases |b|
  {
    if b == [] {
      assert a + b == a;
    } else {
      CoveredConcat(a, b[..|b| - 1]);
      assert (a + b)[..|a + b| - 1] == a + b[..|b| - 1];
    }
  }

  lemma {:induction false} PackCovered(ts: seq<Token>)
    requires AllValid(ts) && |ts| % 8 == 0
    ensures 8 * |Pack(ts)| <= 8 * Covered(ts) + |ts|
    decreases |ts|
  {
    hide Pack, Payload, FlagByte, AllValid, Covered;
    if ts == [] {
      PackNone();
    } else {
      var k := |ts| - 8;
      LastGroupIs(k, 8);
      PackSplit(ts, k);
      AllValidSlice(ts, 0, k);
      AllValidSlice(ts, k, |ts|);
      assert ts[k..|ts|] == ts[k..] && ts[0..k] == ts[..k];
      PackCovered(ts[..k]);
      PayloadCovered(ts[k..]);
      CoveredConcat(ts[..k], ts[k..]);
      assert ts[..k] + ts[k..] == ts;
    }
  }

  lemma PackNone()
    ensures Pack([]) == []
  {
  }

  /** How far the buffer is filled, given how many bytes the tokens stand for. */
  lemma LayoutCovered(buf: seq<byte>, pos: nat, flagsPos: nat, left: nat, head: seq<Token>, cur: seq<Token>)
    requires Layout(buf, pos, flagsPos, left, head, cur)
    ensures 8 * pos <= 9 * Covered(head + cur) + 8
  {
    hide Pack, Payload, AllValid, Covered, ToBits, Kinds;
    assert |buf[..flagsPos]| == |Pack(head)| && |buf[flagsPos + 1..pos]| == |Payload(cur)|;
    PackCovered(head);
    PayloadCovered(head);
    PayloadCovered(cur);
    CoveredConcat(head, cur);
  }
}

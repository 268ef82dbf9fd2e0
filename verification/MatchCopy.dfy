/**
 The inflater's ways of copying a match inside its output buffer: byte by byte with wrap-around, in
 words, in threes. The buffer may be a window that has been filled many times over.
 */
module MatchCopy {
  import opened Arith
  import opened Bits
  import opened Tokens

  /** Where byte x of the output stands in the buffer, whose first byte now is byte base. */
  function Place(x: nat, base: nat, size: nat): (i: int) {
    if x >= base then x - base else x - base + size
  }

  ghost predicate InPlace(out: seq<byte>, data: seq<byte>, base: nat, x: nat) {
    x < |data| && 0 <= Place(x, base, |out|) < |out| && out[Place(x, base, |out|)] == data[x]
  }

  /** The buffer holds the last bytes of the output so far. */
  ghost predicate Ring(out: seq<byte>, data: seq<byte>, base: nat) {
    && base <= |data| <= base + |out|
    && forall x: nat :: |data| - |out| <= x < |data| ==> InPlace(out, data, base, x)
  }

  /** Bytes stored from a position on, all read before any is written. */
  ghost predicate Stored(out: seq<byte>, out': seq<byte>, cur: nat, src: nat, n: nat) {
    && |out| == |out'| && cur + n <= |out| && src + n <= |out|
    && out'[cur..cur + n] == out[src..src + n]
    && (forall i :: 0 <= i < |out| && !(cur <= i < cur + n) ==> out'[i] == out[i])
  }

  lemma RingStep(out: seq<byte>, out': seq<byte>, data: seq<byte>, base: nat, dist: nat, src: nat, n: nat)
    requires Ring(out, data, base) && 1 <= dist <= |data| && dist <= |out| && n <= dist
    requires src == Place(|data| - dist, base, |out|) && Stored(out, out', |data| - base, src, n)
    ensures Ring(out', Copy(data, n, dist), base)
  {
    var more, size := Copy(data, n, dist), |out|;
    forall x: nat | |more| - size <= x < |more| ensures InPlace(out', more, base, x) {
      if x >= |data| {
        var i := x - |data|;
        assert more[x] == more[x - dist] == data[|data| - dist + i];
        assert InPlace(out, data, base, |data| - dist + i);
        assert out'[|data| - base..|data| - base + n][i] == out[src..src + n][i];
      } else {
        assert InPlace(out, data, base, x);
      }
    }
  }

  lemma {:induction false} CopyTwice(data: seq<byte>, m: nat, n: nat, dist: nat)
    requires 1 <= dist <= |data|
    ensures Copy(Copy(data, m, dist), n, dist) == Copy(data, m + n, dist)
  {
    hide Copy;
    if n == 0 {
      CopyNone(Copy(data, m, dist), dist);
    } else {
      CopyTwice(data, m, n - 1, dist);
      CopyStep(Copy(data, m, dist), n, dist);
      CopyStep(data, m + n, dist);
    }
  }

  lemma CopyStep(data: seq<byte>, n: nat, dist: nat)
    requires 1 <= dist <= |data| && n > 0
    ensures var r := Copy(data, n - 1, dist); Copy(data, n, dist) == r + [r[|r| - dist]]
  {
  }

  /** Stores n bytes of the match, read before any is written. */
  method CopyBytes(out: array<byte>, cur: nat, src: nat, n: nat, ghost data: seq<byte>, ghost base: nat,
                   ghost dist: nat)
    requires Ring(out[..], data, base) && cur == |data| - base && cur + n <= out.Length && src + n <= out.Length
    requires 1 <= dist <= |data| && dist <= out.Length && n <= dist && src == Place(|data| - dist, base, out.Length)
    modifies out
    ensures Ring(out[..], Copy(data, n, dist), base)
  {
    hide Ring, Copy;
    ghost var was := out[..];
    forall i | 0 <= i < n {
      out[cur + i] := out[src + i];
    }
    RingStep(was, out[..], data, base, dist, src, n);
  }

  /** One byte at a time, going round in the window for the source, and stopping where the buffer ends. */
  method CopySlowly(out: array<byte>, cur: nat, len: nat, dist: nat, ghost data: seq<byte>, ghost base: nat)
    returns (end: nat)
    requires Ring(out[..], data, base) && cur == |data| - base && 1 <= dist <= |data| && dist <= out.Length
    modifies out
    ensures end == Min(cur + len, out.Length) && Ring(out[..], Copy(data, end - cur, dist), base)
  {
    hide Ring, Copy;
    RingSize(out[..], data, base);
    CopyNone(data, dist);
    end := cur;
    var left := len;
    while left > 0
      invariant cur <= end <= out.Length && end + left == cur + len && Ring(out[..], Copy(data, end - cur, dist), base)
    {
      if end >= out.Length {
        return;
      }
      CopyTwice(data, end - cur, 1, dist);
      CopyBytes(out, end, if dist <= end then end - dist else end - dist + out.Length, 1, Copy(data, end - cur, dist),
        base, dist);
      end, left := end + 1, left - 1;
    }
  }

  lemma RingSize(out: seq<byte>, data: seq<byte>, base: nat)
    requires Ring(out, data, base)
    ensures base <= |data| <= base + |out|
  {
  }

  lemma CopyNone(data: seq<byte>, dist: nat)
    requires 1 <= dist <= |data|
    ensures Copy(data, 0, dist) == data
  {
  }

  /** How far a copy that runs straight through the buffer has got. */
  ghost predicate Copying(out: seq<byte>, data: seq<byte>, base: nat, dist: nat, cur: nat, at: nat, src: nat) {
    && base <= |data| && cur == |data| - base && 1 <= dist <= |data| && dist <= |out|
    && cur <= at <= |out| && src <= |out|
    && Ring(out, Copy(data, at - cur, dist), base)
    && (src == at - dist || (src == at - dist + |out| && dist >= at))
  }

  /** Copies n bytes straight on. */
  method CopyOn(out: array<byte>, at: nat, src: nat, n: nat, ghost data: seq<byte>, ghost base: nat, ghost dist: nat,
                ghost cur: nat)
    requires Copying(out[..], data, base, dist, cur, at, src) && 1 <= n <= dist && at + n <= out.Length
    requires src + n <= out.Length
    modifies out
    ensures Copying(out[..], data, base, dist, cur, at + n, src + n)
  {
    hide Ring, Copy;
    CopyTwice(data, at - cur, n, dist);
    CopyBytes(out, at, src, n, Copy(data, at - cur, dist), base, dist);
  }

  /** Eight bytes at a time, as two words, for a match that does not reach its own output. */
  method CopyWords(out: array<byte>, cur: nat, start: nat, len: nat, ghost data: seq<byte>, ghost base: nat,
                   ghost dist: nat)
    returns (at: nat, src: nat)
    requires Copying(out[..], data, base, dist, cur, cur, start) && 9 <= len <= dist && cur + len <= out.Length
    requires start + len <= out.Length
    modifies out
    ensures at == cur + len / 8 * 8 && src == start + len / 8 * 8 && Copying(out[..], data, base, dist, cur, at, src)
  {
    hide Copying;
    at, src := cur, start;
    var last := start + len / 8 * 8;
    while src < last
      invariant start <= src <= last && (src - start) % 8 == 0 && at - cur == src - start
      invariant Copying(out[..], data, base, dist, cur, at, src)
    {
      CopyOn(out, at, src, 4, data, base, dist, cur);
      CopyOn(out, at + 4, src + 4, 4, data, base, dist, cur);
      at, src := at + 8, src + 8;
    }
  }

  /** Three bytes at a time, each written before the next is read, then one or two more. */
  method CopyThrees(out: array<byte>, cur: nat, start: nat, from: nat, len: nat, ghost data: seq<byte>, ghost base: nat,
                    ghost dist: nat)
    requires Copying(out[..], data, base, dist, cur, start, from) && start + len <= out.Length
    requires from + len <= out.Length
    modifies out
    ensures Copying(out[..], data, base, dist, cur, start + len, from + len)
  {
    hide Copying;
    CopyingFacts(out[..], data, base, dist, cur, start, from);
    var at, src, left := start, from, len;
    while left > 2
      invariant start <= at && at + left == start + len && src + left == from + len && left >= 0 && src >= 0
      invariant Copying(out[..], data, base, dist, cur, at, src)
    {
      CopyOn(out, at, src, 1, data, base, dist, cur);
      CopyOn(out, at + 1, src + 1, 1, data, base, dist, cur);
      CopyOn(out, at + 2, src + 2, 1, data, base, dist, cur);
      at, src, left := at + 3, src + 3, left - 3;
    }
    if left > 0 {
      CopyOn(out, at, src, 1, data, base, dist, cur);
      if left > 1 {
        CopyOn(out, at + 1, src + 1, 1, data, base, dist, cur);
      }
    }
  }

  lemma CopyingFacts(out: seq<byte>, data: seq<byte>, base: nat, dist: nat, cur: nat, at: nat, src: nat)
    requires Copying(out, data, base, dist, cur, at, src)
    ensures dist >= 1
  {
  }

  /**
   Whichever way is taken, and whether or not the source has to be fetched from before the last time the
   window was filled, the output is extended by the match as far as the buffer goes.
   */
  method CopyMatch(out: array<byte>, cur: nat, len: nat, dist: nat, ghost data: seq<byte>, ghost base: nat)
    returns (end: nat)
    requires Ring(out[..], data, base) && cur == |data| - base && 1 <= dist <= |data| && dist <= out.Length
    modifies out
    ensures end == Min(cur + len, out.Length) && Ring(out[..], Copy(data, end - cur, dist), base)
  {
    hide Ring, Copy;
    RingSize(out[..], data, base);
    CopyNone(data, dist);
    var src := if dist <= cur then cur - dist else cur - dist + out.Length;
    if Max(cur, src) + len > out.Length {
      end := CopySlowly(out, cur, len, dist, data, base);
    } else {
      end := cur;
      if 9 <= len <= dist {
        end, src := CopyWords(out, cur, src, len, data, base, dist);
      }
      CopyThrees(out, cur, end, src, cur + len - end, data, base, dist);
      end := cur + len;
    }
  }

  /** A buffer that is not a window holds all of the output. */
  lemma RingFromStart(out: seq<byte>, data: seq<byte>)
    requires |data| <= |out|
    ensures Ring(out, data, 0) <==> out[..|data|] == data
  {
    if out[..|data|] == data {
      forall x: nat | x < |data| ensures InPlace(out, data, 0, x) {
        assert out[..|data|][x] == out[x];
      }
    }
    if Ring(out, data, 0) {
      forall x: nat | x < |data| ensures out[x] == data[x] {
        assert InPlace(out, data, 0, x);
      }
    }
  }
}

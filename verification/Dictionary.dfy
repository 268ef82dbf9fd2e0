/** The sliding dictionary, its hash chains, and the search for matches. */
module Dictionary {
  import opened Arith
  import opened Bits
  import opened Tokens

  type uint16 = x: int | 0 <= x < 65536

  const TAIL: nat := 257
  const DICT_SIZE: nat := 33025

  // ----- the window: a circular buffer whose first bytes are repeated after its end

  ghost predicate Slot(dict: seq<byte>, data: seq<byte>, x: nat) {
    && |dict| == DICT_SIZE && x < |data| && dict[x % WINDOW] == data[x]
    && (x % WINDOW < TAIL ==> dict[WINDOW + x % WINDOW] == data[x])
  }

  /** The dictionary holds the data from position lo on. */
  ghost predicate Window(dict: seq<byte>, data: seq<byte>, lo: int) {
    && |dict| == DICT_SIZE && lo <= |data| <= lo + WINDOW
    && forall x: nat :: lo <= x < |data| ==> Slot(dict, data, x)
  }

  /** What storing the next byte changes. */
  ghost predicate Pushed(dict: seq<byte>, dict': seq<byte>, n: nat, c: byte) {
    && |dict| == |dict'| == DICT_SIZE && dict'[n % WINDOW] == c
    && (n % WINDOW < TAIL ==> dict'[WINDOW + n % WINDOW] == c)
    && forall i :: 0 <= i < DICT_SIZE && i != n % WINDOW && i != WINDOW + n % WINDOW ==> dict'[i] == dict[i]
  }

  lemma SameResidue(x: nat, n: nat)
    requires x < n < x + WINDOW
    ensures x % WINDOW != n % WINDOW
  {
  }

  lemma PushWindow(dict: seq<byte>, dict': seq<byte>, data: seq<byte>, lo: int, c: byte)
    requires Window(dict, data, lo) && Pushed(dict, dict', |data|, c)
    ensures Window(dict', data + [c], Max(lo, |data| + 1 - WINDOW))
  {
    var more, lo' := data + [c], Max(lo, |data| + 1 - WINDOW);
    forall x: nat | lo' <= x < |more| ensures Slot(dict', more, x) {
      if x < |data| {
        SameResidue(x, |data|);
        assert Slot(dict, data, x);
      }
    }
  }

  lemma ShrinkWindow(dict: seq<byte>, data: seq<byte>, lo: int, lo': int)
    requires Window(dict, data, lo) && lo <= lo' <= |data|
    ensures Window(dict, data, lo')
  {
  }

  /** Reading forward from a position needs no wrap-around, thanks to the repeated bytes. */
  lemma ReadWindow(dict: seq<byte>, data: seq<byte>, lo: int, x: nat, k: nat)
    requires Window(dict, data, lo) && lo <= x + k < |data| && k <= TAIL
    ensures x % WINDOW + k < DICT_SIZE && dict[x % WINDOW + k] == data[x + k]
  {
    assert Slot(dict, data, x + k);
    WrapResidue(x, k);
  }

  lemma WrapResidue(x: nat, k: nat)
    requires k <= TAIL
    ensures (x + k) % WINDOW == (if x % WINDOW + k < WINDOW then x % WINDOW + k else x % WINDOW + k - WINDOW)
  {
  }

  /** The data from position p repeats what stands dist bytes before, for len bytes. */
  ghost predicate Repeats(data: seq<byte>, p: nat, len: nat, dist: nat) {
    1 <= dist <= p && p + len <= |data| && forall k :: p <= k < p + len ==> data[k] == data[k - dist]
  }

  lemma RepeatsMore(data: seq<byte>, more: seq<byte>, p: nat, len: nat, dist: nat)
    requires Repeats(data, p, len, dist) && data <= more
    ensures Repeats(more, p, len, dist)
  {
    forall k | p <= k < p + len ensures more[k] == more[k - dist] {
      assert data[k] == data[k - dist];
    }
  }

  /** A match that repeats the data extends the output by exactly the data. */
  lemma MatchExtends(data: seq<byte>, p: nat, len: nat, dist: nat)
    requires Repeats(data, p, len, dist)
    ensures Copy(data[..p], len, dist) == data[..p + len]
  {
    CopyIs(data[..p], len, dist, data[..p + len]);
  }

  /** Positions are kept in sixteen bits in the chains: a difference of less than that is exact. */
  lemma ProbePosition(pos: nat, entry: nat, dist: nat)
    requires entry < 65536 && dist == (pos - entry) % 65536 && dist <= pos
    ensures (pos - dist) % WINDOW == entry % WINDOW
  {
    var q := (pos - entry) / 65536;
    assert pos - dist == entry + 65536 * q;
  }

  function HashStep(h: bv15, c: byte): bv15 {
    (h << 5) ^ (c as bv15)
  }

  /** The rolling hash depends on the last three bytes only. */
  lemma HashOfThree(h: bv15, a: byte, b: byte, c: byte)
    ensures HashStep(HashStep(HashStep(h, a), b), c) == HashStep(HashStep(HashStep(0, a), b), c)
  {
    HashBits(h, a as bv15, b as bv15, c as bv15);
  }

  /** The hash of the three bytes at a position. */
  function HashAt(data: seq<byte>, at: nat): bv15
    requires at + 3 <= |data|
  {
    HashStep(HashStep(HashStep(0, data[at]), data[at + 1]), data[at + 2])
  }

  /** The chain of a hash. */
  function ChainOf(h: bv15): (k: nat)
    ensures k < WINDOW
  {
    h as nat
  }

  lemma HashBits(h: bv15, a: bv15, b: bv15, c: bv15)
    ensures ((((((h << 5) ^ a) << 5) ^ b) << 5) ^ c) == ((((((0 as bv15 << 5) ^ a) << 5) ^ b) << 5) ^ c)
  {
  }

  class Lookahead {
    const dict: array<byte>
    const next: array<uint16>
    const hash: array<uint16>
    const probes: (nat, nat)
    var pos: nat
    var size: nat
    var dictSize: nat
    ghost var data: seq<byte>

    constructor (probes: (nat, nat))
      ensures Valid() && pos == size == dictSize == 0 && data == [] && fresh(dict) && fresh(next) && fresh(hash)
    {
      dict := new byte[DICT_SIZE];
      next := new uint16[WINDOW];
      hash := new uint16[WINDOW](_ => 0);
      this.probes := probes;
      pos, size, dictSize, data := 0, 0, 0, [];
    }

    /** The chains may hold anything: a match is compared byte by byte before it is used. */
    ghost predicate Chains() {
      next.Length == hash.Length == WINDOW && next != hash
    }

    ghost predicate Valid()
      reads this, dict
    {
      && Chains() && size <= MAX_MATCH && dictSize <= pos && dictSize + size <= WINDOW
      && |data| == pos + size && Window(dict[..], data, pos - dictSize)
    }

    method Probe(probePos: nat, maxDist: nat, matchLen: nat, c0: byte, c1: byte)
      returns (stop: bool, hit: bool, at: nat, dist: nat)
      requires Chains() && dict.Length == DICT_SIZE && probePos < WINDOW && 1 <= matchLen <= TAIL && maxDist <= pos
      ensures at < WINDOW && (!stop ==> dist <= maxDist && at == (pos - dist) % WINDOW)
    {
      var entry := next[probePos];
      stop, hit, at, dist := true, false, 0, 0;
      if entry != 0 {
        dist := (pos - entry) % 65536;
        if dist <= maxDist {
          stop := false;
          at := entry % WINDOW;
          ProbePosition(pos, entry, dist);
          hit := dict[at + matchLen] == c0 && dict[at + matchLen - 1] == c1;
        }
      }
    }

    /** How many bytes from the current position on are the same dist bytes earlier. */
    method MatchLength(at: nat, maxLen: nat, dist: nat) returns (len: nat)
      requires Valid() && 1 <= dist <= dictSize && at == (pos - dist) % WINDOW && maxLen <= size
      ensures len <= maxLen && Repeats(data, pos, len, dist)
    {
      var here := pos % WINDOW;
      len := 0;
      while len < maxLen
        invariant len <= maxLen && Repeats(data, pos, len, dist)
      {
        ReadWindow(dict[..], data, pos - dictSize, pos, len);
        ReadWindow(dict[..], data, pos - dictSize, pos - dist, len);
        if dict[here + len] != dict[at + len] {
          break;
        }
        len := len + 1;
      }
    }

    /** The state while bytes are being taken in: the oldest ones may already be overwritten. */
    ghost predicate Filling()
      reads this, dict
    {
      && Chains() && dictSize <= pos && dictSize <= WINDOW && |data| == pos + size
      && Window(dict[..], data, Max(pos - dictSize, pos + size - WINDOW))
    }

    /** Stores the next byte of the lookahead. */
    method Store(c: byte)
      requires Filling()
      modifies this`size, this`data, dict
      ensures Filling() && size == old(size) + 1 && data == old(data) + [c]
    {
      hide Window, Slot, Pushed;
      WindowSize(dict[..], data, Max(pos - dictSize, pos + size - WINDOW));
      ghost var before := dict[..];
      var d := (pos + size) % WINDOW;
      dict[d] := c;
      ghost var stored: seq<byte> := before[d := c];
      assert dict[..] == stored;
      if d < TAIL {
        dict[WINDOW + d] := c;
        assert dict[..] == stored[WINDOW + d := c];
      }
      StoreIs(before, dict[..], d, |data|, c);
      PushWindow(before, dict[..], data, Max(pos - dictSize, pos + size - WINDOW), c);
      size, data := size + 1, data + [c];
    }

    /** Enters a position at the head of the chain of its three bytes. */
    method Insert(h: bv15, at: nat)
      requires Chains() && at + 3 <= |data| && h == HashAt(data, at)
      modifies next, hash
      ensures hash[..] == old(hash[..])[ChainOf(HashAt(data, at)) := at % 65536]
      ensures next[..] == old(next[..])[at % WINDOW := old(hash[..])[ChainOf(HashAt(data, at))]]
    {
      hide HashAt, ChainOf;
      next[at % WINDOW] := hash[ChainOf(h)];
      hash[ChainOf(h)] := at % 65536;
    }

    /** A byte of the data that is still in the dictionary. */
    lemma Recall(x: nat)
      requires Filling() && Max(pos - dictSize, pos + size - WINDOW) <= x < pos + size
      ensures dict.Length == DICT_SIZE && dict[x % WINDOW] == data[x]
    {
      assert Slot(dict[..], data, x);
    }

    /** Takes in bytes, keeping a rolling hash of the last three: each position is entered under its own. */
    method TakeRolling(src: seq<byte>, from: nat, end: nat)
      requires Filling() && from <= end <= |src| && size + dictSize >= 2
      modifies this`size, this`data, dict, next, hash
      ensures Filling() && size == old(size) + (end - from) && data == old(data) + src[from..end]
    {
      hide Window, HashStep;
      ghost var data0 := data;
      var at := pos + size - 2;
      Recall(at);
      Recall(at + 1);
      var h := HashStep(HashStep(0, dict[at % WINDOW]), dict[(at + 1) % WINDOW]);
      ghost var g: bv15 := 0;
      for i := from to end
        invariant Filling() && size == old(size) + (i - from) && data == data0 + src[from..i]
        invariant 0 <= at == pos + size - 2
        invariant h == HashStep(HashStep(g, data[at]), data[at + 1])
      {
        HashOfThree(g, data[at], data[at + 1], src[i]);
        g := HashStep(g, data[at]);
        Store(src[i]);
        h := HashStep(h, src[i]);
        Insert(h, at);
        at := at + 1;
      }
    }

    /** Takes in the first bytes, when there are not yet three to hash. */
    method TakeFirst(src: seq<byte>, from: nat, end: nat)
      requires Filling() && from <= end <= |src|
      modifies this`size, this`data, dict, next, hash
      ensures Filling() && size == old(size) + (end - from) && data == old(data) + src[from..end]
    {
      hide Window, HashStep;
      ghost var data0 := data;
      for i := from to end
        invariant Filling() && size == old(size) + (i - from) && data == data0 + src[from..i]
      {
        Store(src[i]);
        if size + dictSize >= MIN_MATCH {
          var at := pos + size - 3;
          Recall(at);
          Recall(at + 1);
          var h := HashStep(HashStep(HashStep(0, dict[at % WINDOW]), dict[(at + 1) % WINDOW]), src[i]);
          Insert(h, at);
        }
      }
    }

    /** Takes in bytes until the lookahead is as long as the longest match or there are no more. */
    method Fill(src: seq<byte>, from: nat) returns (to: nat)
      requires Valid() && from <= |src|
      modifies this, dict, next, hash
      ensures Valid() && pos == old(pos) && to == from + Min(|src| - from, MAX_MATCH - old(size))
      ensures size == old(size) + (to - from) && data == old(data) + src[from..to]
      ensures dictSize == Min(WINDOW - size, old(dictSize))
    {
      hide Window;
      to := from + Min(|src| - from, MAX_MATCH - size);
      if size + dictSize >= MIN_MATCH - 1 {
        TakeRolling(src, from, to);
      } else {
        TakeFirst(src, from, to);
      }
      ghost var lo := Max(pos - dictSize, pos + size - WINDOW);
      dictSize := Min(WINDOW - size, dictSize);
      assert pos - dictSize == lo;
    }

    /** Looks along the hash chain for a match longer than the one given. */
    method FindMatch(maxDist: nat, maxLen: nat, dist0: nat, len0: nat) returns (dist: nat, len: nat)
      requires Valid() && maxDist <= dictSize && maxLen <= size && 1 <= len0 <= TAIL
      ensures (dist == dist0 && len == len0) ||
        (len0 < len <= maxLen && 1 <= dist <= maxDist && Repeats(data, pos, len, dist))
    {
      hide Window, Repeats;
      WindowSize(dict[..], data, pos - dictSize);
      dist, len := dist0, len0;
      var here := pos % WINDOW;
      var probesLeft := if len >= 32 then probes.1 else probes.0;
      var c0, c1 := dict[here + len], dict[here + len - 1];
      if maxLen <= len {
        return;
      }
      var at: nat := here;
      while probesLeft > 1
        invariant at < WINDOW && 1 <= len < maxLen
        invariant (dist == dist0 && len == len0) ||
          (len0 < len <= maxLen && 1 <= dist <= maxDist && Repeats(data, pos, len, dist))
      {
        probesLeft := probesLeft - 1;
        var stop, hit, d;
        stop, hit, at, d := Probe(at, maxDist, len, c0, c1);
        if !stop && !hit {
          stop, hit, at, d := Probe(at, maxDist, len, c0, c1);
        }
        if !stop && !hit {
          stop, hit, at, d := Probe(at, maxDist, len, c0, c1);
        }
        if stop {
          return;
        }
        if hit {
          if d == 0 {
            return;
          }
          var l := MatchLength(at, maxLen, d);
          if l > len {
            dist, len := d, l;
            if len == maxLen {
              return;
            }
            c0, c1 := dict[here + len], dict[here + len - 1];
          }
        }
      }
    }
  }

  lemma StoreIs(dict: seq<byte>, dict': seq<byte>, d: nat, n: nat, c: byte)
    requires |dict| == DICT_SIZE && d == n % WINDOW
    requires var stored: seq<byte> := dict[d := c]; dict' == (if d < TAIL then stored[WINDOW + d := c] else stored)
    ensures Pushed(dict, dict', n, c)
  {
  }

  lemma WindowSize(dict: seq<byte>, data: seq<byte>, lo: int)
    requires Window(dict, data, lo)
    ensures |dict| == DICT_SIZE
  {
  }
}

/**
 The inflater's output: a buffer that holds all of it, or a window that is filled over and over and
 always holds the last 32768 bytes.
 */
module OutputBuffer {
  import opened Arith
  import opened Bits
  import opened Tokens
  import opened MatchCopy

  lemma RingPut(out: seq<byte>, data: seq<byte>, base: nat, b: byte)
    requires Ring(out, data, base) && |data| - base < |out|
    ensures Ring(out[|data| - base := b], data + [b], base)
  {
    var out', more := out[|data| - base := b], data + [b];
    forall x: nat | |more| - |out| <= x < |more| ensures InPlace(out', more, base, x) {
      if x < |data| {
        assert InPlace(out, data, base, x);
      }
    }
  }

  /** A window that is full begins again at its start. */
  lemma RingWrap(out: seq<byte>, data: seq<byte>, base: nat)
    requires Ring(out, data, base) && |data| == base + |out|
    ensures Ring(out, data, |data|)
  {
    forall x: nat | |data| - |out| <= x < |data| ensures InPlace(out, data, |data|, x) {
      assert InPlace(out, data, base, x);
    }
  }

  /** What has been put in since a position stands in the buffer from there on. */
  lemma RingTail(out: seq<byte>, data: seq<byte>, base: nat, from: nat)
    requires Ring(out, data, base) && base + from <= |data|
    ensures out[from..|data| - base] == data[base + from..]
  {
    forall x: nat | base + from <= x < |data| ensures out[x - base] == data[x] {
      assert InPlace(out, data, base, x);
    }
  }

  /** What a window that has not been filled yet holds behind the output can be taken for older output. */
  lemma JunkIn(out: seq<byte>, data: seq<byte>)
    requires Ring(out, data, 0)
    ensures Ring(out, out[|data|..] + data, |out| - |data|)
  {
    var junk := out[|data|..];
    var more := junk + data;
    forall x: nat | x < |more| ensures InPlace(out, more, |junk|, x) {
      if x >= |junk| {
        assert InPlace(out, data, 0, x - |junk|);
      }
    }
  }

  lemma JunkOut(out: seq<byte>, junk: seq<byte>, data: seq<byte>)
    requires Ring(out, junk + data, |junk|)
    ensures Ring(out, data, 0)
  {
    forall x: nat | |data| - |out| <= x < |data| ensures InPlace(out, data, 0, x) {
      assert InPlace(out, junk + data, |junk|, x + |junk|);
    }
  }

  lemma CopyBehind(junk: seq<byte>, data: seq<byte>, n: nat, dist: nat)
    requires 1 <= dist <= |junk + data|
    ensures var more := Copy(junk + data, n, dist);
      && |more| == |junk| + |data| + n && more == junk + more[|junk|..] && data <= more[|junk|..]
      && (junk == [] ==> more[|junk|..] == Copy(data, n, dist))
  {
    var more := Copy(junk + data, n, dist);
    hide Copy;
    assert more[..|junk + data|] == junk + data;
    if junk == [] {
      assert junk + data == data;
    }
  }

  class Sink {
    const buf: array<byte>
    const wrap: bool
    var cur: nat
    /** Everything put in so far. */
    ghost var made: seq<byte>
    /** How much of it was put in before the window was last begun. */
    ghost var base: nat

    /** An empty window. */
    constructor Window()
      ensures Valid() && wrap && cur == 0 && made == [] && fresh(buf)
    {
      hide Ring;
      buf := new byte[WINDOW];
      wrap, cur, made, base := true, 0, [], 0;
      new;
      RingFromStart(buf[..], []);
    }

    /** A buffer for all of the output. */
    constructor Whole(size: nat)
      ensures Valid() && !wrap && buf.Length == size && cur == 0 && made == [] && fresh(buf)
    {
      hide Ring;
      buf := new byte[size];
      wrap, cur, made, base := false, 0, [], 0;
      new;
      RingFromStart(buf[..], []);
    }

    ghost predicate Valid()
      reads this, buf
    {
      && base + cur == |made| && Ring(buf[..], made, base)
      && (if wrap then buf.Length == WINDOW && (base == 0 || |made| >= WINDOW) else base == 0)
    }

    lemma Bounds()
      requires Valid()
      ensures cur <= buf.Length
    {
    }

    /** Adds a byte. */
    method Put(b: byte)
      requires Valid() && cur < buf.Length
      modifies this`cur, this`made, buf
      ensures Valid() && made == old(made) + [b] && cur == old(cur) + 1
    {
      hide Ring;
      RingPut(buf[..], made, base, b);
      buf[cur] := b;
      cur, made := cur + 1, made + [b];
    }

    /** Adds bytes of the input. */
    method PutAll(bytes: seq<byte>)
      requires Valid() && cur + |bytes| <= buf.Length
      modifies this`cur, this`made, buf
      ensures Valid() && made == old(made) + bytes && cur == old(cur) + |bytes|
    {
      hide Ring;
      for i := 0 to |bytes|
        invariant Valid() && made == old(made) + bytes[..i] && cur == old(cur) + i
      {
        Put(bytes[i]);
        assert bytes[..i + 1] == bytes[..i] + [bytes[i]];
      }
    }

    /**
     Adds a match as far as the buffer goes. A distance of zero takes what stands in the buffer for its
     output, and one that goes back too far what the window happened to hold.
     */
    method Copy(len: nat, dist: nat) returns (n: nat)
      requires Valid() && (if wrap then dist <= WINDOW else dist <= cur)
      modifies this`cur, this`made, buf
      ensures Valid() && n == Min(len, buf.Length - old(cur)) && cur == old(cur) + n
      ensures old(made) <= made && |made| == |old(made)| + n
      ensures 1 <= dist <= |old(made)| ==> made == Tokens.Copy(old(made), n, dist)
    {
      hide Ring, Tokens.Copy;
      Bounds();
      if dist == 0 {
        n := Min(len, buf.Length - cur);
        PutAll(buf[cur..cur + n]);
      } else {
        ghost var junk: seq<byte> := if dist <= |made| then [] else buf[|made|..];
        ghost var at := if dist <= |made| then base else |junk|;
        Taken(dist, junk);
        var end := CopyMatch(buf, cur, len, dist, junk + made, at);
        n := end - cur;
        ghost var more := Tokens.Copy(junk + made, n, dist)[|junk|..];
        CopyBehind(junk, made, n, dist);
        if dist > |made| {
          JunkOut(buf[..], junk, more);
        } else {
          assert junk + more == more;
        }
        cur, made := end, more;
      }
    }

    lemma Taken(dist: nat, junk: seq<byte>)
      requires Valid() && 1 <= dist && (if wrap then dist <= WINDOW else dist <= cur)
      requires junk == if dist <= |made| then [] else buf[|made|..]
      ensures Ring(buf[..], junk + made, if dist <= |made| then base else |junk|) && dist <= |junk + made|
      ensures dist <= buf.Length
    {
      Bounds();
      hide Ring;
      if dist <= |made| {
        assert junk + made == made;
      } else {
        JunkIn(buf[..], made);
      }
    }

    /** Begins the window again. */
    method Restart()
      requires Valid() && wrap && cur == buf.Length
      modifies this`cur, this`base
      ensures Valid() && cur == 0
    {
      hide Ring;
      RingWrap(buf[..], made, base);
      cur, base := 0, |made|;
    }
  }
}

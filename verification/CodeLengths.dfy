/**
 Run-length packing of the code lengths sent in the header of a dynamic block, and the expansion of
 section 3.2.7 of RFC 1951 that undoes it.
 */
module CodeLengths {
  import opened Arith
  import opened Bits

  const SYMBOLS: nat := 19

  /** A symbol of the code length alphabet with its extra bits: 0-15 a length, 16-18 a run. */
  datatype Item = Item(sym: byte, extra: byte)

  function ExtraBits(sym: nat): (n: nat)
    ensures n <= 7
  {
    if sym < 16 then 0 else if sym == 16 then 2 else if sym == 17 then 3 else 7
  }

  ghost predicate WellFormed(it: Item) {
    it.sym < SYMBOLS && it.extra < Pow2(ExtraBits(it.sym))
  }

  ghost function Repeat(x: nat, n: nat): (r: seq<nat>)
    ensures |r| == n && forall i :: 0 <= i < n ==> r[i] == x
  {
    seq(n, _ => x)
  }

  /** What an item adds to the lengths read so far; a repeat needs a length to repeat. */
  ghost function Apply(out: seq<nat>, it: Item): Option<seq<nat>> {
    if it.sym < 16 then Some(out + [it.sym])
    else if it.sym == 16 then
      if out == [] then None else Some(out + Repeat(out[|out| - 1], it.extra + 3))
    else Some(out + Repeat(0, it.extra + (if it.sym == 17 then 3 else 11)))
  }

  ghost function Expand(items: seq<Item>): Option<seq<nat>> {
    if items == [] then Some([])
    else
      var before := Expand(items[..|items| - 1]);
      if before.None? then None else Apply(before.value, items[|items| - 1])
  }

  lemma ExpandSnoc(items: seq<Item>, it: Item)
    requires Expand(items).Some?
    ensures Expand(items + [it]) == Apply(Expand(items).value, it)
  {
    assert (items + [it])[..|items|] == items;
  }

  ghost function OneItem(it: Item): seq<byte> {
    if it.sym < 16 then [it.sym] else [it.sym, it.extra]
  }

  ghost function ItemBytes(items: seq<Item>): seq<byte> {
    if items == [] then [] else ItemBytes(items[..|items| - 1]) + OneItem(items[|items| - 1])
  }

  lemma {:induction false} ItemBytesAt(items: seq<Item>, k: nat)
    requires k < |items|
    ensures ItemBytes(items[..k]) + OneItem(items[k]) <= ItemBytes(items)
    ensures ItemBytes(items[..k + 1]) == ItemBytes(items[..k]) + OneItem(items[k])
    decreases |items|
  {
    hide OneItem;
    var us := items[..|items| - 1];
    assert items[..k + 1][..k] == items[..k];
    if k >= |us| {
    } else {
      ItemBytesAt(us, k);
      assert us[..k] == items[..k];
    }
  }

  ghost function Occurs(items: seq<Item>, s: nat): (n: nat)
    ensures n <= |items|
  {
    if items == [] then 0
    else Occurs(items[..|items| - 1], s) + (if items[|items| - 1].sym == s then 1 else 0)
  }

  /**
   The items sent stand for all the lengths seen except a run at the end: of zeros, or of repeats of
   the nonzero length before the run.
   */
  ghost predicate Pending(items: seq<Item>, seen: seq<nat>, prev: nat, repeats: nat, zeros: nat) {
    && (repeats == 0 || zeros == 0) && repeats <= 6 && zeros <= 138 && repeats + zeros <= |seen|
    && Expand(items) == Some(seen[..|seen| - repeats - zeros])
    && (forall k :: 0 <= k < |seen| ==> seen[k] < 16)
    && (forall k :: |seen| - repeats - zeros <= k < |seen| ==> seen[k] == prev)
    && prev == (if seen == [] then 0xFF else seen[|seen| - 1])
    && (zeros > 0 ==> prev == 0)
    && (repeats > 0 ==> prev != 0 && repeats < |seen| && seen[|seen| - repeats - 1] == prev)
  }

  lemma SendRepeats(items: seq<Item>, seen: seq<nat>, prev: nat, repeats: nat, it: Item, c: nat)
    requires Pending(items, seen, prev, repeats, 0) && 0 < c <= repeats
    requires if c == 1 then it == Item(prev, 0) else c >= 3 && it == Item(16, c - 3)
    ensures WellFormed(it) && Pending(items + [it], seen, prev, repeats - c, 0)
  {
    hide Expand, Pow2;
    SmallPowers();
    var done := seen[..|seen| - repeats];
    assert done + Repeat(prev, c) == seen[..|seen| - (repeats - c)];
    assert c == 1 ==> Repeat(prev, c) == [prev];
    assert done[|done| - 1] == prev;
    ExpandSnoc(items, it);
  }

  lemma SendZeros(items: seq<Item>, seen: seq<nat>, prev: nat, zeros: nat, it: Item, c: nat)
    requires Pending(items, seen, prev, 0, zeros) && 0 < c <= zeros
    requires c == 1 || c >= 3
    requires it == if c == 1 then Item(0, 0) else if c <= 10 then Item(17, c - 3) else Item(18, c - 11)
    ensures WellFormed(it) && Pending(items + [it], seen, prev, 0, zeros - c)
  {
    hide Expand, Pow2;
    SmallPowers();
    var done := seen[..|seen| - zeros];
    assert done + Repeat(0, c) == seen[..|seen| - (zeros - c)];
    assert c == 1 ==> Repeat(0, c) == [0];
    ExpandSnoc(items, it);
  }

  lemma SnocPrefix(seen: seq<nat>, size: nat, k: nat)
    requires k <= |seen|
    ensures (seen + [size])[..k] == seen[..k]
  {
  }

  /** A zero joins the run of zeros. */
  lemma SeeZero(items: seq<Item>, seen: seq<nat>, prev: nat, zeros: nat)
    requires Pending(items, seen, prev, 0, zeros) && zeros < 138
    ensures Pending(items, seen + [0], 0, 0, zeros + 1)
  {
    hide Expand;
    SnocPrefix(seen, 0, |seen| - zeros);
  }

  /** A length equal to the one before it joins the run of repeats. */
  lemma SeeSame(items: seq<Item>, seen: seq<nat>, prev: nat, repeats: nat)
    requires Pending(items, seen, prev, repeats, 0) && repeats < 6 && 0 < prev < 16
    ensures Pending(items, seen + [prev], prev, repeats + 1, 0)
  {
    hide Expand;
    SnocPrefix(seen, prev, |seen| - repeats);
  }

  /** Any other length is sent by itself. */
  lemma SeeNew(items: seq<Item>, seen: seq<nat>, prev: nat, size: nat)
    requires Pending(items, seen, prev, 0, 0) && size < 16
    ensures Pending(items + [Item(size, 0)], seen + [size], size, 0, 0)
  {
    hide Expand;
    ExpandSnoc(items, Item(size, 0));
    assert seen[..|seen|] == seen && (seen + [size])[..|seen| + 1] == seen + [size];
  }

  class SizePacker {
    const packed: array<byte>
    const counts: array<nat>
    var n: nat
    var repeats: nat
    var zeros: nat
    var prev: nat
    ghost var items: seq<Item>
    ghost var seen: seq<nat>

    constructor (packed: array<byte>, counts: array<nat>)
      requires counts.Length == SYMBOLS && forall s :: 0 <= s < SYMBOLS ==> counts[s] == 0
      ensures this.packed == packed && this.counts == counts && seen == [] && Valid()
    {
      this.packed, this.counts := packed, counts;
      n, repeats, zeros, prev := 0, 0, 0, 0xFF;
      items, seen := [], [];
    }

    ghost predicate Emitted()
      reads this, packed, counts
    {
      && counts.Length == SYMBOLS && n <= packed.Length
      && (forall i :: 0 <= i < |items| ==> WellFormed(items[i]))
      && packed[..n] == ItemBytes(items)
      && |items| <= n
      && (forall s :: 0 <= s < SYMBOLS ==> counts[s] == Occurs(items, s))
    }

    ghost predicate Valid()
      reads this, packed, counts
    {
      Emitted() && n + repeats + zeros <= |seen| && Pending(items, seen, prev, repeats, zeros)
    }

    /** Appends a length, or a run symbol and its count, to the packed bytes. */
    method EmitItem(it: Item)
      requires Emitted() && WellFormed(it) && n + (if it.sym < 16 then 1 else 2) <= packed.Length
      modifies this`n, this`items, packed, counts
      ensures Emitted() && items == old(items) + [it] && n == old(n) + (if it.sym < 16 then 1 else 2)
    {
      ghost var bytes := packed[..n];
      counts[it.sym] := counts[it.sym] + 1;
      packed[n] := it.sym;
      n := n + 1;
      if it.sym >= 16 {
        packed[n] := it.extra;
        n := n + 1;
      }
      items := items + [it];
      assert items[..|items| - 1] == old(items);
      assert packed[..n] == bytes + (if it.sym < 16 then [it.sym] else [it.sym, it.extra]);
    }

    /** Sends the lengths equal to the previous one that are still pending. */
    method FlushRepeats()
      requires Valid() && |seen| <= packed.Length
      modifies this`n, this`items, this`repeats, packed, counts
      ensures Valid() && repeats == 0
    {
      hide Expand, ItemBytes, Occurs, WellFormed;
      if repeats >= 3 {
        SendRepeats(items, seen, prev, repeats, Item(16, repeats - 3), repeats);
        EmitItem(Item(16, repeats - 3));
        repeats := 0;
      }
      while repeats > 0
        invariant Valid()
      {
        SendRepeats(items, seen, prev, repeats, Item(prev, 0), 1);
        EmitItem(Item(prev, 0));
        repeats := repeats - 1;
      }
    }

    /** Sends the zero lengths that are still pending. */
    method FlushZeros()
      requires Valid() && |seen| <= packed.Length
      modifies this`n, this`items, this`zeros, packed, counts
      ensures Valid() && zeros == 0
    {
      hide Expand, ItemBytes, Occurs, WellFormed;
      if zeros >= 3 {
        var it := if zeros <= 10 then Item(17, zeros - 3) else Item(18, zeros - 11);
        SendZeros(items, seen, prev, zeros, it, zeros);
        EmitItem(it);
        zeros := 0;
      }
      while zeros > 0
        invariant Valid()
      {
        SendZeros(items, seen, prev, zeros, Item(0, 0), 1);
        EmitItem(Item(0, 0));
        zeros := zeros - 1;
      }
    }

    /** Takes in the next code length. */
    method Add(size: nat)
      requires Valid() && repeats < 6 && zeros < 138 && |seen| < packed.Length && size < 16
      modifies this, packed, counts
      ensures Valid() && repeats < 6 && zeros < 138 && seen == old(seen) + [size]
    {
      hide Pending, ItemBytes, Occurs, WellFormed;
      if size == 0 {
        FlushRepeats();
        SeeZero(items, seen, prev, zeros);
        zeros, prev, seen := zeros + 1, size, seen + [size];
        if zeros == 138 {
          FlushZeros();
        }
      } else {
        FlushZeros();
        if size != prev {
          FlushRepeats();
          SeeNew(items, seen, prev, size);
          LengthWellFormed(size);
          EmitItem(Item(size, 0));
          prev, seen := size, seen + [size];
        } else {
          SeeSame(items, seen, prev, repeats);
          repeats, seen := repeats + 1, seen + [size];
          if repeats == 6 {
            FlushRepeats();
          }
        }
      }
    }
  }

  lemma LengthWellFormed(size: nat)
    requires size < 16
    ensures WellFormed(Item(size, 0))
  {
  }

  /** Packs code lengths into no more bytes than there are lengths; expansion gives them back. */
  method PackCodeSizes(sizes: seq<nat>, packed: array<byte>, counts: array<nat>)
    returns (n: nat, ghost items: seq<Item>)
    requires |sizes| <= packed.Length && counts.Length == SYMBOLS
    requires forall k :: 0 <= k < |sizes| ==> sizes[k] < 16
    modifies packed, counts
    ensures Expand(items) == Some(sizes)
    ensures forall k :: 0 <= k < |items| ==> WellFormed(items[k])
    ensures |items| <= n <= |sizes| && packed[..n] == ItemBytes(items)
    ensures forall s :: 0 <= s < SYMBOLS ==> counts[s] == Occurs(items, s)
  {
    hide Expand, ItemBytes, Occurs, WellFormed;
    for s := 0 to SYMBOLS
      invariant forall t :: 0 <= t < s ==> counts[t] == 0
    {
      counts[s] := 0;
    }
    var p := new SizePacker(packed, counts);
    for i := 0 to |sizes|
      invariant p.packed == packed && p.counts == counts && p.Valid() && fresh(p)
      invariant p.repeats < 6 && p.zeros < 138 && p.seen == sizes[..i]
    {
      p.Add(sizes[i]);
    }
    if p.repeats != 0 {
      p.FlushRepeats();
    } else {
      p.FlushZeros();
    }
    n, items := p.n, p.items;
    assert p.seen == sizes && p.seen[..|p.seen|] == sizes;
  }
}

/** Inflating call by call through a window: what the inflater puts into it is handed out in order. */
module InflateWindow {
  import opened Arith
  import opened Bits
  import opened Tokens
  import opened MatchCopy
  import opened OutputBuffer
  import opened Inflater
  import opened BlockReader
  import opened Decompressor
  import Adler

  datatype Reply = Ok | StreamEnd | BufError | DataError | StreamError
  datatype Flush = No | Sync | Finish

  /** The inflater has given up. */
  predicate Bad(st: Status) {
    st in {Failed, Stuck, Mismatch}
  }

  /** The bytes stand in the input from a position on. */
  ghost predicate NextOf(all: seq<byte>, at: nat, input: seq<byte>) {
    at + |input| <= |all| && all[at..at + |input|] == input
  }

  lemma NextLater(all: seq<byte>, at: nat, input: seq<byte>, n: nat)
    requires NextOf(all, at, input) && n <= |input|
    ensures NextOf(all, at + n, input[n..])
  {
    assert input[n..] == all[at..at + |input|][n..];
  }

  /** A readable stream with the right checksum. */
  ghost predicate Good(all: seq<byte>, zlib: bool) {
    Readable(all, zlib, true) && Sealed(all, zlib, Adler.Checksum(Text(all, zlib).value.1))
  }

  /** What has been handed out and what is waiting is what has been made. */
  ghost predicate Handed(delivered: seq<byte>, waiting: seq<byte>, made: seq<byte>) {
    delivered + waiting == made
  }

  lemma HandMore(delivered: seq<byte>, out: seq<byte>, waiting: seq<byte>, made: seq<byte>)
    requires Handed(delivered, out + waiting, made)
    ensures Handed(delivered + out, waiting, made)
  {
    assert delivered + (out + waiting) == delivered + out + waiting;
  }

  /** Hands out waiting bytes as far as there is room. A window that has been emptied to its end is begun again. */
  method HandOut(o: Sink, ofs: nat, avail: nat, room: nat) returns (out: seq<byte>, ofs': nat, avail': nat)
    requires o.Valid() && o.wrap && ofs < WINDOW && ofs + avail == o.cur
    modifies o`cur, o`base
    ensures o.Valid() && ofs' < WINDOW && ofs' + avail' == o.cur <= o.buf.Length && |out| == Min(avail, room)
    ensures avail' == avail - |out|
    ensures o.buf[ofs..ofs + avail] == out + o.buf[ofs'..ofs' + avail']
  {
    hide Ring;
    o.Bounds();
    var n := Min(avail, room);
    out := o.buf[ofs..ofs + n];
    assert o.buf[ofs..ofs + avail] == out + o.buf[ofs + n..ofs + avail];
    avail' := avail - n;
    ofs' := (ofs + n) % WINDOW;
    if ofs + n == WINDOW {
      o.Restart();
    }
  }

  lemma WiderWindow(all: seq<byte>, zlib: bool, window: bool)
    requires Readable(all, zlib, true)
    ensures Readable(all, zlib, window)
  {
    hide Text, Aligned;
  }

  /** What a call to the inflater cannot say about a good stream, and what its end means of any. */
  lemma Verdict(d: Inflator, st: Status)
    requires d.Valid() && (st in {Done, Mismatch} <==> d.state.Over?) && (st == Failed ==> d.state.Dead?)
    requires st == Mismatch <==> d.state.Over? && d.zlib && d.state.v != d.sum
    requires st in {NeedsInput, Stuck} ==> Short(d.state, d.r, d.ts, 8 * d.Taken())
    requires st == HasMoreOutput ==> d.state.Blocks? && PhaseOwes(d.state.ph)
    requires st in {Done, Mismatch} ==> d.so.summed == d.so.made
    ensures Good(d.r.all, d.zlib) ==>
      && st != Failed && st != Mismatch && (st in {NeedsInput, Stuck} ==> d.Taken() < |d.r.all|)
      && (st == HasMoreOutput ==> |d.so.made| < |Text(d.r.all, d.zlib).value.1|)
    ensures d.so.stray ==> Text(d.r.all, d.zlib) == None
    ensures st in {Done, Mismatch} && !d.so.stray ==>
      && Readable(d.r.all, d.zlib, d.so.window) && d.so.made == Text(d.r.all, d.zlib).value.1
      && d.Taken() == StreamSize(d.r.all, d.zlib)
      && (st == Done <==> Sealed(d.r.all, d.zlib, Adler.Checksum(d.so.made)))
  {
    d.Outcome();
    hide Text, Aligned, Sealed, Short, PhaseOwes, d.ts.Sound, Story, StateLean, Adler.Checksum, Headed;
    NoSeal(d.r.all, d.zlib);
    if Good(d.r.all, d.zlib) {
      WiderWindow(d.r.all, d.zlib, d.so.window);
    }
  }

  /** Runs the inflater into the window: what it makes now stands there from the offset on. */
  method Refill(d: Inflator, o: Sink, input: seq<byte>, more: bool) returns (st: Status, used: nat)
    requires d.Valid() && o.Valid() && o.wrap && d.Fits(o) && NextOf(d.r.all, d.Taken(), input)
    requires d.so.summed == d.so.made
    modifies d, d.r, d.ts.repr, o`cur, o`made, o.buf
    ensures d.Valid() && o.Valid() && d.Fits(o) && old(o.cur) <= o.cur <= o.buf.Length
    ensures d.so.made == old(d.so.made) + o.buf[old(o.cur)..o.cur]
    ensures used <= |input| && d.Taken() == old(d.Taken()) + used
    ensures st in {Done, Failed, NeedsInput, Stuck, HasMoreOutput, Mismatch}
    ensures st == Done ==> d.state.Over? && (d.zlib ==> d.state.v == d.sum)
    ensures !Bad(st) ==> !d.state.Dead? && d.so.summed == d.so.made
    ensures st == HasMoreOutput ==> o.cur == o.buf.Length
    ensures st in {NeedsInput, Stuck} ==> more == (st == NeedsInput) && used == |input|
    ensures Good(d.r.all, d.zlib) ==>
      st != Failed && st != Mismatch && (st in {NeedsInput, Stuck} ==> d.Taken() < |d.r.all|)
  {
    hide Ring, d.Valid, d.Fits, Short, d.ts.Sound, Good, PhaseOwes, Text, Sealed, Readable, StreamSize, Adler.Checksum;
    ghost var gone, made := o.made, d.so.made;
    var ofs := o.cur;
    st, used := d.Run(o, input, more);
    Verdict(d, st);
    o.Bounds();
    RingTail(o.buf[..], o.made, o.base, ofs);
    assert o.buf[..][ofs..o.cur] == o.buf[ofs..o.cur];
    assert o.made[|gone|..] == d.so.made[|made|..] && made + d.so.made[|made|..] == d.so.made;
  }

  /** One run from the start into a buffer that must take it all. */
  method AllAtOnce(d: Inflator, input: seq<byte>, size: nat) returns (st: Status, used: nat, out: seq<byte>)
    requires d.Valid() && d.so.made == d.so.summed == [] && (d.state.First? || d.state == Blocks(AtBlock, false))
    requires NextOf(d.r.all, d.Taken(), input)
    modifies d, d.r, d.ts.repr
    ensures d.Valid() && out == d.so.made && |out| <= size && used <= |input| && d.Taken() == old(d.Taken()) + used
    ensures st in {Done, Failed, Stuck, HasMoreOutput, Mismatch} && (old(!d.so.window) ==> !d.so.window)
    ensures st in {Done, Mismatch} ==> d.state.Over? && d.so.summed == d.so.made
    ensures st == Mismatch <==> d.state.Over? && d.zlib && d.state.v != d.sum
    ensures st == Stuck ==> used == |input|
    ensures d.so.stray ==> Text(d.r.all, d.zlib) == None
    ensures st in {Done, Mismatch} && !d.so.stray ==>
      && Readable(d.r.all, d.zlib, d.so.window) && out == Text(d.r.all, d.zlib).value.1
      && d.Taken() == StreamSize(d.r.all, d.zlib) && (st == Done <==> Sealed(d.r.all, d.zlib, Adler.Checksum(out)))
    ensures Good(d.r.all, d.zlib) ==>
      && st != Failed && st != Mismatch && (st == Stuck ==> d.Taken() < |d.r.all|)
      && (st == HasMoreOutput ==> |Text(d.r.all, d.zlib).value.1| > size)
  {
    hide Ring, d.Valid, d.Fits, Short, d.ts.Sound, Good, PhaseOwes, Text, Sealed, Readable, StreamSize, Adler.Checksum;
    var next := new Sink.Whole(size);
    d.StartFits(next);
    st, used := d.Run(next, input, false);
    Verdict(d, st);
    next.Bounds();
    RingTail(next.buf[..], next.made, 0, 0);
    assert next.made == d.so.made == next.buf[..][0..next.cur] == next.buf[..next.cur];
    out := next.buf[..next.cur];
  }

  class Stream {
    const d: Inflator
    const o: Sink
    var ofs: nat
    var avail: nat
    var last: Status
    var firstCall: bool
    var hasFlushed: bool
    ghost var delivered: seq<byte>

    /** A stream that is to inflate the given input. */
    constructor (zlib: bool, ghost all: seq<byte>)
      ensures Valid() && d.zlib == zlib && d.r.all == all && d.Taken() == 0 && delivered == [] && firstCall
      ensures !hasFlushed && !Bad(last)
      ensures fresh(Repr())
    {
      var inflator := new Inflator(zlib, all);
      hide Ring, inflator.Valid, inflator.Fits, inflator.ts.Sound;
      var window := new Sink.Window();
      inflator.StartFits(window);
      d, o := inflator, window;
      ofs, avail, last, firstCall, hasFlushed, delivered := 0, 0, NeedsInput, true, false, [];
    }

    ghost function Repr(): set<object> {
      {d, d.r, o, o.buf} + d.ts.repr
    }

    /** What has been handed out, followed by what waits in the window, is what the inflater has made. */
    ghost predicate Valid()
      reads this, Repr()
    {
      && this !in Repr() && d !in {o, o.buf, d.r} && o !in d.ts.repr && o.buf !in d.ts.repr
      && d.Valid() && o.Valid() && o.wrap
      && ofs < WINDOW && ofs + avail == o.cur && Handed(delivered, o.buf[ofs..ofs + avail], d.so.made)
      && (!Bad(last) ==> d.Fits(o) && !d.state.Dead? && d.so.summed == d.so.made)
      && (last == Done ==> d.state.Over? && (d.zlib ==> d.state.v == d.sum))
      && (firstCall ==> !Bad(last) && avail == 0 && d.so.made == [])
      && (firstCall ==> d.state.First? || d.state == Blocks(AtBlock, false))
    }

    /** Hands out waiting bytes as far as there is room. */
    method Deliver(room: nat) returns (out: seq<byte>)
      requires Valid()
      modifies this`ofs, this`avail, this`delivered, o`cur, o`base
      ensures Valid() && delivered == old(delivered) + out && |out| == Min(old(avail), room)
      ensures avail == old(avail) - |out|
      ensures d.Taken() == old(d.Taken())
    {
      hide Ring, d.Valid, d.Fits, d.ts.Sound, Handed;
      out, ofs, avail := HandOut(o, ofs, avail, room);
      HandMore(delivered, out, o.buf[ofs..ofs + avail], d.so.made);
      delivered := delivered + out;
    }

    /** Runs the inflater. Nothing may be waiting, or it would be overwritten. */
    method Fill(input: seq<byte>, more: bool) returns (used: nat)
      requires Valid() && avail == 0 && !firstCall && !Bad(last) && NextOf(d.r.all, d.Taken(), input)
      modifies this`avail, this`last, d, d.r, d.ts.repr, o`cur, o`made, o.buf
      ensures Valid() && used <= |input| && d.Taken() == old(d.Taken()) + used && !firstCall
      ensures delivered == old(delivered)
      ensures last in {Done, Failed, NeedsInput, Stuck, HasMoreOutput, Mismatch}
      ensures last == HasMoreOutput ==> avail > 0
      ensures last in {NeedsInput, Stuck} ==> more == (last == NeedsInput) && used == |input|
      ensures Good(d.r.all, d.zlib) ==>
        last != Failed && last != Mismatch && (last in {NeedsInput, Stuck} ==> d.Taken() < |d.r.all|)
    {
      hide Ring, d.Valid, d.Fits, d.ts.Sound, Good;
      last, used := Refill(d, o, input, more);
      avail := o.cur - ofs;
    }

    /** Asked to finish on the first call: straight into the caller's buffer, which must take it all. */
    method Whole(input: seq<byte>, availOut: nat) returns (reply: Reply, out: seq<byte>, taken: nat)
      requires Valid() && !firstCall && !Bad(last) && avail == 0 && NextOf(d.r.all, d.Taken(), input)
      requires d.so.made == [] && (d.state.First? || d.state == Blocks(AtBlock, false))
      modifies this`last, this`delivered, d, d.r, d.ts.repr
      ensures Valid() && delivered == old(delivered) + out && |out| <= availOut && taken <= |input|
      ensures d.Taken() == old(d.Taken()) + taken
      ensures avail == 0 && (last == Done || Bad(last)) && (reply == StreamEnd <==> last == Done)
      ensures reply in {StreamEnd, BufError, DataError}
      ensures Good(d.r.all, d.zlib) ==>
        && (reply == DataError ==> taken == |input| && d.Taken() < |d.r.all|)
        && (reply == BufError ==> |Text(d.r.all, d.zlib).value.1| > availOut)
    {
      hide Ring, d.Valid, StateShape, Good;
      var st;
      st, taken, out := AllAtOnce(d, input, availOut);
      delivered := delivered + out;
      last := if st == Done || Bad(st) then st else Failed;
      reply := if Bad(st) then DataError else if st == Done then StreamEnd else BufError;
    }

    /** Runs the inflater into the window and empties the window into the caller's buffer. */
    method Cycle(input: seq<byte>, taken: nat, more: bool, room: nat, ghost start: nat)
      returns (out: seq<byte>, used: nat)
      requires Valid() && avail == 0 && !firstCall && !Bad(last)
      requires taken <= |input| && d.Taken() == start + taken && NextOf(d.r.all, start, input)
      modifies this`ofs, this`avail, this`last, this`delivered, d, d.r, d.ts.repr, o, o.buf
      ensures Valid() && delivered == old(delivered) + out && |out| <= room && taken + used <= |input|
      ensures d.Taken() == start + taken + used && !firstCall
      ensures last in {Done, Failed, NeedsInput, Stuck, HasMoreOutput, Mismatch}
      ensures last == HasMoreOutput && room > 0 ==> out != []
      ensures avail > 0 ==> |out| == room
      ensures last in {NeedsInput, Stuck} ==> more == (last == NeedsInput) && taken + used == |input|
      ensures Good(d.r.all, d.zlib) ==>
        last != Failed && last != Mismatch && (last in {NeedsInput, Stuck} ==> d.Taken() < |d.r.all|)
    {
      hide Valid, d.Taken, Good;
      NextLater(d.r.all, start, input, taken);
      used := Fill(input[taken..], more);
      out := Deliver(room);
    }

    /** The loop that runs the inflater into the window and empties the window into the caller's buffer. */
    method Pump(flush: Flush, input: seq<byte>, availOut: nat) returns (reply: Reply, out: seq<byte>, taken: nat)
      requires Valid() && avail == 0 && !firstCall && !Bad(last) && NextOf(d.r.all, d.Taken(), input)
      modifies this`ofs, this`avail, this`last, this`delivered, d, d.r, d.ts.repr, o, o.buf
      ensures Valid() && delivered == old(delivered) + out && |out| <= availOut && taken <= |input|
      ensures d.Taken() == old(d.Taken()) + taken
      ensures reply == StreamEnd <==> last == Done && avail == 0
      ensures (reply == DataError <==> Bad(last)) && reply != StreamError
      ensures reply == Ok && availOut > 0 ==> out != [] || taken > 0
      ensures reply == BufError && flush != Finish ==> input == [] && last == NeedsInput
      ensures reply == BufError && flush == Finish ==> |out| == availOut
      ensures Good(d.r.all, d.zlib) ==>
        && (reply == DataError ==> flush == Finish && taken == |input| && d.Taken() < |d.r.all|)
        && (last == NeedsInput ==> d.Taken() < |d.r.all|)
    {
      hide Valid, d.Taken, Good, NextOf;
      ghost var start, had := d.Taken(), delivered;
      out, taken := [], 0;
      while true
        invariant Valid() && avail == 0 && !firstCall && !Bad(last) && delivered == had + out && |out| <= availOut
        invariant taken <= |input| && d.Taken() == start + taken
        decreases availOut - |out|
      {
        var piece, used := Cycle(input, taken, flush != Finish, availOut - |out|, start);
        out, taken := out + piece, taken + used;
        if Bad(last) {
          return DataError, out, taken;
        }
        if last == NeedsInput && input == [] {
          return BufError, out, taken;
        }
        if flush == Finish {
          if last == Done {
            return if avail > 0 then BufError else StreamEnd, out, taken;
          }
          if |out| == availOut {
            return BufError, out, taken;
          }
        } else if last == Done || taken == |input| || |out| == availOut || avail > 0 {
          return if last == Done && avail == 0 then StreamEnd else Ok, out, taken;
        }
      }
    }

    /** What has been handed out is the beginning of what the input says, and all of it at the end. */
    lemma Prefix()
      requires Valid()
      ensures d.so.stray ==> Text(d.r.all, d.zlib) == None
      ensures Readable(d.r.all, d.zlib, true) ==> delivered <= Text(d.r.all, d.zlib).value.1
      ensures last == Done && avail == 0 && !d.so.stray ==>
        && Readable(d.r.all, d.zlib, d.so.window) && delivered == Text(d.r.all, d.zlib).value.1
        && d.Taken() == StreamSize(d.r.all, d.zlib)
        && Sealed(d.r.all, d.zlib, Adler.Checksum(delivered))
    {
      hide Text, Aligned, Sealed, Story, StateLean, Ring, Adler.Checksum, Headed, d.Fits;
      d.Outcome();
      if Readable(d.r.all, d.zlib, true) {
        WiderWindow(d.r.all, d.zlib, d.so.window);
      }
      assert delivered <= d.so.made;
      if last == Done && avail == 0 {
        assert delivered == d.so.made;
        NoSeal(d.r.all, d.zlib);
      }
    }

    /** Between calls, however often the window has been filled, the last 32768 bytes made can be read back from it. */
    lemma LookBack(k: nat)
      requires Valid() && !Bad(last) && !d.state.Over? && 1 <= k <= WINDOW && k <= |d.so.made|
      ensures o.buf[(o.cur - k) % WINDOW] == d.so.made[|d.so.made| - k]
    {
      hide d.Valid, Handed;
      assert InPlace(o.buf[..], o.made, o.base, |o.made| - k);
    }

    /** A call that is not refused. */
    method Serve(first: bool, flush: Flush, input: seq<byte>, availOut: nat)
      returns (reply: Reply, out: seq<byte>, taken: nat)
      requires Valid() && !firstCall && !Bad(last) && NextOf(d.r.all, d.Taken(), input)
      requires first ==> avail == 0 && d.so.made == [] && (d.state.First? || d.state == Blocks(AtBlock, false))
      modifies this`ofs, this`avail, this`last, this`delivered, d, d.r, d.ts.repr, o, o.buf
      ensures Valid() && delivered == old(delivered) + out && |out| <= availOut && taken <= |input|
      ensures d.Taken() == old(d.Taken()) + taken
      ensures reply == StreamEnd ==> last == Done && avail == 0
      ensures reply != StreamError && (reply == DataError ==> Bad(last))
      ensures reply in {Ok, BufError} ==> last != Done || avail > 0
      ensures reply == Ok ==> !Bad(last) && (availOut > 0 ==> out != [] || taken > 0)
      ensures reply == BufError && flush != Finish ==> input == []
      ensures flush == Finish && first ==> reply != Ok
      ensures Good(d.r.all, d.zlib) ==>
        && (reply == DataError ==> flush == Finish && taken == |input| && d.Taken() < |d.r.all|)
        && (reply == BufError && flush != Finish ==> d.Taken() < |d.r.all|)
        && (reply == BufError && flush == Finish && first ==> |Text(d.r.all, d.zlib).value.1| > availOut)
    {
      hide Valid, Good, Text, d.Taken;
      out, taken := [], 0;
      if flush == Finish && first {
        reply, out, taken := Whole(input, availOut);
      } else if avail > 0 {
        out := Deliver(availOut);
        reply := if last == Done && avail == 0 then StreamEnd else Ok;
      } else {
        reply, out, taken := Pump(flush, input, availOut);
      }
    }

    /**
     One call, with the next bytes of the input. Whatever the pieces in which the input comes and the
     output is asked for, the bytes handed out over all calls are the beginning of what the input says;
     when the end is announced they are all of it, their checksum is right, and exactly the bytes of
     the stream have been taken. A good stream is never refused but for want of its own bytes, and a
     call that says it went well with room to write into has moved on.
     */
    method Inflate(flush: Flush, input: seq<byte>, availOut: nat) returns (reply: Reply, out: seq<byte>, taken: nat)
      requires Valid() && NextOf(d.r.all, d.Taken(), input)
      modifies this, d, d.r, d.ts.repr, o, o.buf
      ensures Valid() && delivered == old(delivered) + out && |out| <= availOut && taken <= |input|
      ensures d.Taken() == old(d.Taken()) + taken
      ensures Readable(d.r.all, d.zlib, true) ==> delivered <= Text(d.r.all, d.zlib).value.1
      ensures reply == StreamEnd && !d.so.stray ==>
        && Readable(d.r.all, d.zlib, d.so.window) && delivered == Text(d.r.all, d.zlib).value.1
        && d.Taken() == StreamSize(d.r.all, d.zlib) && Sealed(d.r.all, d.zlib, Adler.Checksum(delivered))
      ensures d.so.stray ==> Text(d.r.all, d.zlib) == None
      ensures Good(d.r.all, d.zlib) && old(!Bad(last)) ==>
        && (reply == DataError ==> flush == Finish && taken == |input| && d.Taken() < |d.r.all|)
        && (reply == BufError && flush != Finish ==> d.Taken() < |d.r.all|)
        && (reply == BufError && flush == Finish && old(firstCall) ==> |Text(d.r.all, d.zlib).value.1| > availOut)
      ensures reply == StreamError <==> old(!Bad(last) && hasFlushed) && flush != Finish
      ensures reply == StreamEnd ==> last == Done && avail == 0
      ensures reply in {Ok, BufError} ==> last != Done || avail > 0
      ensures (reply == DataError ==> Bad(last)) && (old(Bad(last)) ==> reply == DataError && out == [] && taken == 0)
      ensures reply == Ok ==> !Bad(last) && (availOut > 0 ==> out != [] || taken > 0)
      ensures reply == BufError && flush != Finish ==> input == []
      ensures flush == Finish && old(firstCall) ==> reply != Ok
      ensures hasFlushed == (old(hasFlushed) || (old(!Bad(last)) && flush == Finish)) && !firstCall
    {
      hide d.Valid, Ring, d.Fits, Good, Text, Readable, Sealed, d.Taken, d.ts.Sound, Handed;
      var first := firstCall;
      out, taken := [], 0;
      Called(flush);
      if Bad(last) {
        reply := DataError;
      } else if hasFlushed && flush != Finish {
        reply := StreamError;
      } else {
        reply, out, taken := Serve(first, flush, input, availOut);
      }
      Prefix();
    }

    /** Notes the call, and that the end was asked for unless the inflater has given up. */
    method Called(flush: Flush)
      requires Valid()
      modifies this`firstCall, this`hasFlushed
      ensures Valid() && !firstCall && d.Taken() == old(d.Taken())
      ensures hasFlushed == (old(hasFlushed) || (!Bad(last) && flush == Finish))
      ensures old(firstCall) ==> avail == 0 && d.so.made == [] && (d.state.First? || d.state == Blocks(AtBlock, false))
    {
      hide d.Valid, Ring, d.Fits, d.ts.Sound;
      firstCall := false;
      if !Bad(last) {
        hasFlushed := hasFlushed || flush == Finish;
      }
    }
  }

  lemma NoSeal(all: seq<byte>, zlib: bool)
    ensures !zlib && Text(all, zlib).Some? && StreamSize(all, zlib) <= |all| ==> forall a :: Sealed(all, zlib, a)
  {
    hide Text, Aligned;
  }

  ghost predicate Positive(s: seq<nat>) {
    forall i :: 0 <= i < |s| ==> s[i] > 0
  }

  /**
   Inflates in as many calls as there are pieces, the k-th with at most cuts[k] further bytes of the
   input and room for rooms[k] bytes. However it is cut, a good stream comes out as what it says and
   nothing beyond it is taken; and if every call brings something and has some room, it is finished
   after at most one call per byte of input and output and one more.
   */
  method PieceByPiece(zlib: bool, input: seq<byte>, cuts: seq<nat>, rooms: seq<nat>)
    returns (text: seq<byte>, done: bool, used: nat)
    requires |cuts| == |rooms|
    ensures Readable(input, zlib, true) ==> text <= Text(input, zlib).value.1
    ensures Good(input, zlib) && done ==> text == Text(input, zlib).value.1 && used == StreamSize(input, zlib)
    ensures Good(input, zlib) && Positive(cuts) && Positive(rooms) && |cuts| > |input| + |Text(input, zlib).value.1| ==>
      done
  {
    hide Good, Text, Readable, Sealed, StreamSize, Adler.Checksum;
    var s := new Stream(zlib, input);
    hide s.Valid;
    var reply, k := Ok, 0;
    text, used := [], 0;
    GoodIsReadable(input, zlib);
    ghost var live := Good(input, zlib) && Positive(cuts) && Positive(rooms);
    while k < |cuts| && reply == Ok
      invariant s.Valid() && fresh(s) && fresh(s.Repr()) && 0 <= k <= |cuts| && s.d.r.all == input && s.d.zlib == zlib
      invariant s.delivered == text && s.d.Taken() == used <= |input| && !s.hasFlushed && (reply == Ok ==> !Bad(s.last))
      invariant live ==> reply in {Ok, StreamEnd} && (reply == Ok ==> used + |text| >= k)
      invariant Readable(input, zlib, true) ==> text <= Text(input, zlib).value.1
      invariant reply == StreamEnd && Good(input, zlib) ==>
        text == Text(input, zlib).value.1 && used == StreamSize(input, zlib)
    {
      var n := Min(cuts[k], |input| - used);
      var out, taken;
      reply, out, taken := s.Inflate(No, input[used..used + n], rooms[k]);
      text, used, k := text + out, used + taken, k + 1;
    }
    done := reply == StreamEnd;
  }

  lemma GoodIsReadable(all: seq<byte>, zlib: bool)
    ensures Readable(all, zlib, true) ==> Text(all, zlib).Some?
    ensures Good(all, zlib) ==> Readable(all, zlib, true)
  {
    hide Text, Aligned, Sealed;
  }
}

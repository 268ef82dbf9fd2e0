/** Domain names on the wire (sections 3.1 and 4.1.4 of RFC 1035): two encoders, one decoder with pointers. */
module DnsNames {
  import opened Arith
  import opened Bits

  const DOT: byte := 46
  const COMPRESSION_TAG: byte := 0xC0

  /** Where the first label ends. */
  function FirstDot(s: seq<byte>): (e: nat)
    ensures e <= |s| && (forall i :: 0 <= i < e ==> s[i] != DOT) && (e < |s| ==> s[e] == DOT)
  {
    if s == [] || s[0] == DOT then 0 else 1 + FirstDot(s[1..])
  }

  /** What the encoders write: each label behind its length, which is cut down to a byte, and a zero. */
  function Wire(s: seq<byte>): (r: seq<byte>)
    decreases |s|
  {
    var e := FirstDot(s);
    [e % 256] + s[..e] + (if e == |s| then [0] else Wire(s[e + 1..]))
  }

  /**
   Every encoded name is two bytes longer than its text, whatever the text: the length written in front
   of record data.
   */
  lemma {:induction false} WireLength(s: seq<byte>)
    ensures |Wire(s)| == |s| + 2
    decreases |s|
  {
    hide FirstDot;
    var e := FirstDot(s);
    if e >= |s| {
    } else {
      WireLength(s[e + 1..]);
    }
  }

  /** Looks for a dot from a position on; the length if there is none. */
  method FindDot(s: seq<byte>, start: nat) returns (e: nat)
    requires start <= |s|
    ensures start <= e <= |s| && FirstDot(s[start..]) == e - start
  {
    e := start;
    while e < |s| && s[e] != DOT
      invariant start <= e <= |s| && forall i :: start <= i < e ==> s[i] != DOT
    {
      e := e + 1;
    }
  }

  lemma WireUnfold(s: seq<byte>, e: nat)
    requires e == FirstDot(s)
    ensures Wire(s) == [e % 256] + s[..e] + (if e == |s| then [0] else Wire(s[e + 1..]))
  {
    hide FirstDot;
  }

  /** The encoding of the rest of a name whose next label ends at end. */
  lemma WireFrom(s: seq<byte>, start: nat, end: nat)
    requires start <= end <= |s| && FirstDot(s[start..]) == end - start
    ensures Wire(s[start..]) == [(end - start) % 256] + s[start..end] + (if end == |s| then [0] else Wire(s[end + 1..]))
  {
    hide Wire, FirstDot;
    WireUnfold(s[start..], end - start);
    assert s[start..][..end - start] == s[start..end];
    assert end < |s| ==> s[start..][end - start + 1..] == s[end + 1..];
  }

  /** Appends some of the bytes of a name, one by one. */
  method AppendBytes(bytes: seq<byte>, s: seq<byte>, from: nat, to: nat) returns (r: seq<byte>)
    requires from <= to <= |s|
    ensures r == bytes + s[from..to]
  {
    r := bytes;
    for i := from to to
      invariant r == bytes + s[from..i]
    {
      r := r + [s[i]];
    }
  }

  lemma Regroup(r: seq<byte>, b: byte, text: seq<byte>, rest: seq<byte>)
    ensures r + ([b] + text + rest) == r + [b] + text + rest
  {
  }

  /** Appends an encoded name to a vector of bytes. */
  method VCodeDomain(bytes: seq<byte>, domain: seq<byte>) returns (r: seq<byte>)
    ensures r == bytes + Wire(domain)
  {
    hide Wire, FirstDot;
    var start := 0;
    r := bytes;
    var end := FindDot(domain, start);
    assert domain[0..] == domain;
    while end < |domain|
      invariant start <= end <= |domain| && FirstDot(domain[start..]) == end - start
      invariant r + Wire(domain[start..]) == bytes + Wire(domain)
      decreases |domain| - start
    {
      WireFrom(domain, start, end);
      Regroup(r, (end - start) % 256, domain[start..end], Wire(domain[end + 1..]));
      r := r + [(end - start) % 256];
      r := AppendBytes(r, domain, start, end);
      start := end + 1;
      end := FindDot(domain, start);
    }
    WireFrom(domain, start, end);
    Regroup(r, (end - start) % 256, domain[start..end], [0]);
    r := r + [(|domain| - start) % 256];
    r := AppendBytes(r, domain, start, |domain|);
    r := r + [0];
  }

  /** Writes some of the bytes of a name at a position of a buffer. */
  method WriteBytes(buffer: array<byte>, at: nat, s: seq<byte>, from: nat, to: nat) returns (next: nat)
    requires from <= to <= |s| && at + (to - from) <= buffer.Length
    modifies buffer
    ensures next == at + (to - from) && buffer[..next] == old(buffer[..at]) + s[from..to]
    ensures buffer[next..] == old(buffer[next..])
  {
    next := at;
    for i := from to to
      invariant next == at + (i - from) && buffer[..next] == old(buffer[..at]) + s[from..i]
      invariant buffer[next..] == old(buffer[next..])
    {
      ghost var was := buffer[..];
      buffer[next] := s[i];
      next := next + 1;
      assert buffer[..next] == was[..next - 1] + [s[i]] && buffer[next..] == was[next..];
    }
  }

  method WriteByte(buffer: array<byte>, at: nat, b: byte) returns (next: nat)
    requires at < buffer.Length
    modifies buffer
    ensures next == at + 1 && buffer[..next] == old(buffer[..at]) + [b] && buffer[next..] == old(buffer[next..])
  {
    buffer[at] := b;
    next := at + 1;
  }

  /** Writes an encoded name into a buffer at the write position. */
  method CodeDomain(buffer: array<byte>, at: nat, domain: seq<byte>) returns (next: nat)
    requires at + |domain| + 2 <= buffer.Length
    modifies buffer
    ensures next == at + |domain| + 2 && buffer[..next] == old(buffer[..at]) + Wire(domain)
    ensures buffer[next..] == old(buffer[next..])
  {
    hide Wire, FirstDot;
    ghost var head := buffer[..at];
    var start := 0;
    next := at;
    var end := FindDot(domain, start);
    assert domain[0..] == domain;
    while end < |domain|
      invariant start <= end <= |domain| && FirstDot(domain[start..]) == end - start && next == at + start
      invariant buffer[..next] + Wire(domain[start..]) == head + Wire(domain)
      invariant buffer[at + |domain| + 2..] == old(buffer[at + |domain| + 2..])
      decreases |domain| - start
    {
      next := WriteLabel(buffer, next, domain, start, end, at + |domain| + 2);
      start := end + 1;
      end := FindDot(domain, start);
    }
    next := WriteLast(buffer, next, domain, start);
  }

  /** Writes the last label and the zero that ends the name. */
  method WriteLast(buffer: array<byte>, at: nat, s: seq<byte>, start: nat) returns (next: nat)
    requires start <= |s| && FirstDot(s[start..]) == |s| - start && at + (|s| - start) + 2 <= buffer.Length
    modifies buffer
    ensures next == at + (|s| - start) + 2 && buffer[next..] == old(buffer[next..])
    ensures buffer[..next] == old(buffer[..at]) + Wire(s[start..])
  {
    hide Wire, FirstDot;
    ghost var r, was, stop := buffer[..at], buffer[..], at + (|s| - start) + 2;
    WireFrom(s, start, |s|);
    Regroup(r, (|s| - start) % 256, s[start..], [0]);
    next := WriteByte(buffer, at, (|s| - start) % 256);
    assert buffer[stop..] == buffer[next..][stop - next..] == was[stop..];
    next := WriteBytes(buffer, next, s, start, |s|);
    assert buffer[stop..] == buffer[next..][stop - next..] == was[stop..];
    next := WriteByte(buffer, next, 0);
  }

  /** Writes a label behind its length. */
  method WriteLabel(buffer: array<byte>, at: nat, s: seq<byte>, start: nat, end: nat, ghost stop: nat)
    returns (next: nat)
    requires start <= end < |s| && FirstDot(s[start..]) == end - start
    requires at + 1 + (end - start) <= stop <= buffer.Length
    modifies buffer
    ensures next == at + 1 + (end - start) && buffer[stop..] == old(buffer[stop..])
    ensures buffer[..next] + Wire(s[end + 1..]) == old(buffer[..at]) + Wire(s[start..])
  {
    hide Wire, FirstDot;
    ghost var r := buffer[..at];
    WireFrom(s, start, end);
    Regroup(r, (end - start) % 256, s[start..end], Wire(s[end + 1..]));
    next := WriteByte(buffer, at, (end - start) % 256);
    next := WriteBytes(buffer, next, s, start, end);
    assert buffer[stop..] == buffer[next..][stop - next..];
  }

  // ----- decoding

  type Parsed = Option<(seq<byte>, nat)>

  /** Text in front of what has been read. */
  function Prepend(text: seq<byte>, t: Parsed): (r: Parsed) {
    if t.None? then None else Some((text + t.value.0, t.value.1))
  }

  lemma PrependTwice(a: seq<byte>, b: seq<byte>, t: Parsed)
    ensures Prepend(a, Prepend(b, t)) == Prepend(a + b, t)
  {
    if t.Some? {
      assert a + (b + t.value.0) == a + b + t.value.0;
    }
  }

  lemma PrependNothing(t: Parsed)
    ensures Prepend([], t) == t
  {
    if t.Some? {
      assert [] + t.value.0 == t.value.0;
    }
  }

  /**
   The name a pointer at a position stands for, and the position after the pointer. It has to lead back
   to before limit.
   */
  function PointerAt(buf: seq<byte>, pos: nat, limit: nat): (r: Parsed)
    decreases limit, |buf| - pos, 0
  {
    if pos + 1 >= |buf| || buf[pos + 1] >= limit then None
    else
      var c := buf[pos + 1];
      var t := NameAt(buf, c, c);
      if t.None? then None else Some((t.value.0, pos + 2))
  }

  /**
   The name at a position and the position after it. Limit starts out as the position of the name, so
   that every pointer leads back; nothing is read when the packet ends too early.
   */
  function NameAt(buf: seq<byte>, pos: nat, limit: nat): (r: Parsed)
    decreases limit, |buf| - pos, 1
  {
    if pos >= |buf| then None
    else if buf[pos] == COMPRESSION_TAG then PointerAt(buf, pos, limit)
    else if buf[pos] == 0 then Some(([], pos + 1))
    else LabelsAt(buf, pos + 1, buf[pos], limit)
  }

  /** The labels from a position on, the first of them of the given length. */
  function LabelsAt(buf: seq<byte>, pos: nat, len: byte, limit: nat): (r: Parsed)
    decreases limit, |buf| - pos, 1
  {
    var next := pos + len;
    if next >= |buf| then None
    else if buf[next] == 0 then Some((buf[pos..next], next + 1))
    else Prepend(buf[pos..next] + [DOT],
                 if buf[next] == COMPRESSION_TAG then PointerAt(buf, next, limit)
                   else LabelsAt(buf, next + 1, buf[next], limit))
  }

  /** Follows a pointer. */
  method FollowPointer(buf: seq<byte>, pos: nat, limit: nat) returns (ok: bool, str: seq<byte>, next: nat)
    ensures PointerAt(buf, pos, limit) == if ok then Some((str, next)) else None
    decreases limit, 0
  {
    ok, str, next := false, [], pos + 2;
    if pos + 1 < |buf| && buf[pos + 1] < limit {
      var c, after := buf[pos + 1], 0;
      ok, str, after := GetDnsString(buf, c, c);
    }
  }

  /** Reads a name, following pointers by recursion. */
  method GetDnsString(buf: seq<byte>, start: nat, limit: nat) returns (ok: bool, str: seq<byte>, pos: nat)
    ensures NameAt(buf, start, limit) == if ok then Some((str, pos)) else None
    decreases limit, 1
  {
    ok, str, pos := false, [], start;
    if pos >= |buf| {
      return;
    }
    var length := buf[pos];
    if length == COMPRESSION_TAG {
      ok, str, pos := FollowPointer(buf, pos, limit);
      return;
    }
    pos := pos + 1;
    ghost var whole := if length == 0 then Some(([], pos)) else LabelsAt(buf, pos, length, limit);
    PrependNothing(LabelsAt(buf, pos, length, limit));
    while length != 0
      invariant pos <= |buf| && length != COMPRESSION_TAG
      invariant whole == if length == 0 then Some((str, pos)) else Prepend(str, LabelsAt(buf, pos, length, limit))
      decreases |buf| - pos, length
    {
      hide NameAt, PointerAt;
      if pos + length >= |buf| {
        return;
      }
      var text := ReadBytes(buf, pos, length);
      ghost var before := str;
      str := str + text;
      pos := pos + length;
      length := buf[pos];
      if length == COMPRESSION_TAG {
        var addl;
        PrependTwice(before, text + [DOT], PointerAt(buf, pos, limit));
        assert before + (text + [DOT]) == str + [DOT];
        ok, addl, pos := FollowPointer(buf, pos, limit);
        str := str + [DOT] + addl;
        return;
      }
      pos := pos + 1;
      if length != 0 {
        PrependTwice(before, text + [DOT], LabelsAt(buf, pos, length, limit));
        assert before + (text + [DOT]) == str + [DOT];
        str := str + [DOT];
      }
    }
    ok := true;
  }

  method ReadBytes(buf: seq<byte>, pos: nat, n: nat) returns (r: seq<byte>)
    requires pos + n <= |buf|
    ensures r == buf[pos..pos + n]
  {
    r := [];
    for i := 0 to n
      invariant r == buf[pos..pos + i]
    {
      r := r + [buf[pos + i]];
    }
  }

  // ----- decoding what was encoded

  /** A label the decoder reads back: not empty, its length fits a byte and is not taken for a pointer. */
  predicate LabelOk(e: nat) {
    1 <= e <= 255 && e != 192
  }

  /** All labels of a name are ones the decoder reads back. */
  predicate Readable(s: seq<byte>)
    decreases |s|
  {
    var e := FirstDot(s);
    LabelOk(e) && (e < |s| ==> Readable(s[e + 1..]))
  }

  ghost predicate Holds(buf: seq<byte>, pos: nat, w: seq<byte>) {
    pos + |w| <= |buf| && buf[pos..pos + |w|] == w
  }

  lemma HoldsSplit(buf: seq<byte>, pos: nat, a: seq<byte>, b: seq<byte>)
    requires Holds(buf, pos, a + b)
    ensures Holds(buf, pos, a) && Holds(buf, pos + |a|, b)
  {
    var w := a + b;
    assert buf[pos..pos + |w|][..|a|] == a && buf[pos..pos + |w|][|a|..] == b;
    assert buf[pos..pos + |a|] == buf[pos..pos + |w|][..|a|];
    assert buf[pos + |a|..pos + |a| + |b|] == buf[pos..pos + |w|][|a|..];
  }

  /** The parts of an encoded name. */
  lemma WireParts(buf: seq<byte>, pos: nat, s: seq<byte>, e: nat)
    requires Holds(buf, pos, Wire(s)) && e == FirstDot(s)
    ensures pos + 1 + e < |buf| && buf[pos] == e % 256 && buf[pos + 1..pos + 1 + e] == s[..e]
    ensures e == |s| ==> buf[pos + 1 + e] == 0
    ensures e < |s| ==> Holds(buf, pos + 1 + e, Wire(s[e + 1..]))
  {
    hide Wire, FirstDot, Holds;
    WireUnfold(s, e);
    var rest := if e == |s| then [0] else Wire(s[e + 1..]);
    var front := [e % 256] + s[..e];
    assert |front| == 1 + e;
    HoldsSplit(buf, pos, front, rest);
    WireFront(buf, pos, e % 256, s[..e]);
    if e < |s| {
      WireNotEmpty(s[e + 1..]);
    }
    HoldsByte(buf, pos + 1 + e, rest);
  }

  /** A length and what follows it. */
  lemma WireFront(buf: seq<byte>, pos: nat, b: byte, s: seq<byte>)
    requires Holds(buf, pos, [b] + s)
    ensures pos + 1 + |s| <= |buf| && buf[pos] == b && buf[pos + 1..pos + 1 + |s|] == s
  {
    hide Holds;
    HoldsSplit(buf, pos, [b], s);
    HoldsByte(buf, pos, [b]);
    HoldsSlice(buf, pos + 1, s);
  }

  lemma WireNotEmpty(s: seq<byte>)
    ensures Wire(s) != [] && Wire(s)[0] == FirstDot(s) % 256
  {
    hide FirstDot;
  }

  lemma HoldsByte(buf: seq<byte>, pos: nat, w: seq<byte>)
    requires Holds(buf, pos, w) && w != []
    ensures pos < |buf| && buf[pos] == w[0]
  {
    assert buf[pos..pos + |w|][0] == buf[pos];
  }

  lemma HoldsSlice(buf: seq<byte>, pos: nat, w: seq<byte>)
    requires Holds(buf, pos, w)
    ensures pos + |w| <= |buf| && buf[pos..pos + |w|] == w
  {
  }

  /** A label longer than 255 bytes is cut short, and the text differs from there on. */
  lemma LongLabel(buf: seq<byte>, pos: nat, s: seq<byte>, e: nat, limit: nat)
    requires Holds(buf, pos, Wire(s)) && e == FirstDot(s) && e >= 256 && e % 256 != 0
    ensures pos < |buf| && var r := LabelsAt(buf, pos + 1, buf[pos], limit); r.Some? ==> r.value.0 != s
  {
    WireParts(buf, pos, s, e);
    hide Wire, NameAt, PointerAt, Holds;
    var k := e % 256;
    assert k < e;
    assert buf[pos + 1 + k] == buf[pos + 1..pos + 1 + e][k] == s[k] != DOT;
    var r := LabelsAt(buf, pos + 1, buf[pos], limit);
    var text := buf[pos + 1..pos + 1 + k];
    if r.Some? && buf[pos + 1 + k] != 0 {
      assert r.value.0[k] == (text + [DOT])[k] == DOT;
    }
  }

  lemma ReadableStep(s: seq<byte>, e: nat)
    requires e == FirstDot(s)
    ensures Readable(s) <==> LabelOk(e) && (e < |s| ==> Readable(s[e + 1..]))
  {
    hide FirstDot, LabelOk;
  }

  lemma PointerNext(buf: seq<byte>, pos: nat, limit: nat)
    ensures PointerAt(buf, pos, limit).Some? ==> PointerAt(buf, pos, limit).value.1 == pos + 2
  {
  }

  /** A text with its first label taken off again. */
  lemma PrependIs(s: seq<byte>, e: nat, x: Parsed, next: nat)
    requires e < |s| && s[e] == DOT
    ensures Prepend(s[..e] + [DOT], x) == Some((s, next)) <==> x == Some((s[e + 1..], next))
  {
    assert s == s[..e] + [DOT] + s[e + 1..];
    if x.Some? && s[..e] + [DOT] + x.value.0 == s {
      assert (s[..e] + [DOT] + x.value.0)[e + 1..] == x.value.0;
    }
  }

  /** The labels of an encoded name are read back exactly if all of them can be. */
  lemma {:induction false} LabelsRoundTrip(buf: seq<byte>, pos: nat, s: seq<byte>, limit: nat)
    requires Holds(buf, pos, Wire(s)) && FirstDot(s) % 256 != 0 && FirstDot(s) % 256 != 192
    ensures pos < |buf| && (LabelsAt(buf, pos + 1, buf[pos], limit) == Some((s, pos + |s| + 2)) <==> Readable(s))
    decreases |s|
  {
    hide Wire, NameAt, PointerAt, Holds, Readable, FirstDot, Prepend;
    var e := FirstDot(s);
    WireParts(buf, pos, s, e);
    ReadableStep(s, e);
    var q := pos + 1 + e;
    if e >= 256 {
      LongLabel(buf, pos, s, e, limit);
    } else if e == |s| {
      assert s[..e] == s;
    } else {
      var t := s[e + 1..];
      var f := FirstDot(t);
      WireParts(buf, q, t, f);
      ReadableStep(t, f);
      if f % 256 == 192 {
        PrependIs(s, e, PointerAt(buf, q, limit), pos + |s| + 2);
        PointerNext(buf, q, limit);
      } else if f % 256 != 0 {
        PrependIs(s, e, LabelsAt(buf, q + 1, buf[q], limit), pos + |s| + 2);
        LabelsRoundTrip(buf, q, t, limit);
      }
    }
  }

  /**
   Reading an encoded name gives the name and ends just behind it if and only if no label is empty,
   longer than 255 bytes or exactly 192 bytes long.
   */
  lemma NameRoundTrip(buf: seq<byte>, pos: nat, s: seq<byte>, limit: nat)
    requires Holds(buf, pos, Wire(s))
    ensures NameAt(buf, pos, limit) == Some((s, pos + |s| + 2)) <==> Readable(s)
  {
    hide Wire, LabelsAt, PointerAt, Holds, Readable, FirstDot;
    var e := FirstDot(s);
    WireParts(buf, pos, s, e);
    ReadableStep(s, e);
    if e % 256 == 192 {
      PointerNext(buf, pos, limit);
    } else if e % 256 != 0 {
      LabelsRoundTrip(buf, pos, s, limit);
    }
  }

  /** Labels of at most 63 bytes, as section 2.3.4 of RFC 1035 demands, can all be read back. */
  predicate Standard(s: seq<byte>)
    decreases |s|
  {
    var e := FirstDot(s);
    1 <= e <= 63 && (e < |s| ==> Standard(s[e + 1..]))
  }

  lemma {:induction false} StandardIsReadable(s: seq<byte>)
    requires Standard(s)
    ensures Readable(s)
    decreases |s|
  {
    hide FirstDot;
    var e := FirstDot(s);
    if e >= |s| {
    } else {
      StandardIsReadable(s[e + 1..]);
    }
  }

  // ----- compression

  /** Labels of a name followed by a pointer to the rest of it. */
  function Compressed(s: seq<byte>, c: byte): (r: seq<byte>)
    decreases |s|
  {
    var e := FirstDot(s);
    [e % 256] + s[..e] + (if e == |s| then [COMPRESSION_TAG, c] else Compressed(s[e + 1..], c))
  }

  lemma CompressedUnfold(s: seq<byte>, c: byte, e: nat)
    requires e == FirstDot(s)
    ensures Compressed(s, c) ==
      [e % 256] + s[..e] + (if e == |s| then [COMPRESSION_TAG, c] else Compressed(s[e + 1..], c))
  {
    hide FirstDot;
  }

  lemma CompressedParts(buf: seq<byte>, pos: nat, s: seq<byte>, c: byte, e: nat)
    requires Holds(buf, pos, Compressed(s, c)) && e == FirstDot(s)
    ensures pos + 1 + e < |buf| && buf[pos] == e % 256 && buf[pos + 1..pos + 1 + e] == s[..e]
    ensures e == |s| ==> Holds(buf, pos + 1 + e, [COMPRESSION_TAG, c])
    ensures e < |s| ==> Holds(buf, pos + 1 + e, Compressed(s[e + 1..], c))
  {
    hide Compressed, FirstDot, Holds;
    CompressedUnfold(s, c, e);
    var rest := if e == |s| then [COMPRESSION_TAG, c] else Compressed(s[e + 1..], c);
    HoldsSplit(buf, pos, [e % 256] + s[..e], rest);
    HoldsSplit(buf, pos, [e % 256], s[..e]);
    HoldsByte(buf, pos, [e % 256]);
    CompressedNotEmpty(s[Min(e + 1, |s|)..], c);
    HoldsByte(buf, pos + 1 + e, rest);
    HoldsSlice(buf, pos + 1, s[..e]);
  }

  lemma CompressedNotEmpty(s: seq<byte>, c: byte)
    ensures Compressed(s, c) != []
  {
    hide FirstDot;
  }

  lemma PointerIs(buf: seq<byte>, pos: nat, c: byte, limit: nat)
    requires Holds(buf, pos, [COMPRESSION_TAG, c]) && c < limit && NameAt(buf, c, c).Some?
    ensures buf[pos] == COMPRESSION_TAG && PointerAt(buf, pos, limit) == Some((NameAt(buf, c, c).value.0, pos + 2))
  {
    hide NameAt;
    assert buf[pos..pos + 2][0] == buf[pos] && buf[pos..pos + 2][1] == buf[pos + 1];
  }

  lemma {:induction false} LabelsCompressed(buf: seq<byte>, pos: nat, s: seq<byte>, c: byte, limit: nat)
    requires Holds(buf, pos, Compressed(s, c)) && Readable(s) && c < limit && NameAt(buf, c, c).Some?
    ensures pos < |buf| && buf[pos] != 0 && buf[pos] != COMPRESSION_TAG
    ensures LabelsAt(buf, pos + 1, buf[pos], limit) == Some((s + [DOT] + NameAt(buf, c, c).value.0, pos + |s| + 3))
    decreases |s|
  {
    hide Compressed, NameAt, PointerAt, Holds, Readable, FirstDot;
    var e := FirstDot(s);
    CompressedParts(buf, pos, s, c, e);
    ReadableStep(s, e);
    var q, u := pos + 1 + e, NameAt(buf, c, c).value.0;
    if e == |s| {
      PointerIs(buf, q, c, limit);
      assert s[..e] == s;
    } else {
      var t := s[e + 1..];
      LabelsCompressed(buf, q, t, c, limit);
      assert s[..e] + [DOT] + (t + [DOT] + u) == s + [DOT] + u;
    }
  }

  /**
   A name whose last labels are replaced by a pointer back to where they already stand is read back
   whole, and reading ends behind the pointer.
   */
  lemma CompressedRoundTrip(buf: seq<byte>, pos: nat, s: seq<byte>, c: byte, suffix: seq<byte>)
    requires Holds(buf, pos, Compressed(s, c)) && Readable(s) && c < pos && Holds(buf, c, Wire(suffix))
    requires Readable(suffix)
    ensures NameAt(buf, pos, pos) == Some((s + [DOT] + suffix, pos + |s| + 3))
  {
    hide Compressed, LabelsAt, PointerAt, Holds, Readable, Wire;
    NameRoundTrip(buf, c, suffix, c);
    LabelsCompressed(buf, pos, s, c, pos);
  }

  /** A label of 192 bytes is taken for a pointer: the name ends two bytes on, with whatever the pointer leads to. */
  lemma LabelOf192(before: seq<byte>)
    requires |before| == 98 && before[97] == 0
    ensures var s: seq<byte> := seq(192, _ => 97); NameAt(before + Wire(s), 98, 98) == Some(([], 100))
  {
    var s: seq<byte> := seq(192, _ => 97);
    assert FirstDot(s) == 192;
    var buf := before + Wire(s);
    assert buf[98] == COMPRESSION_TAG && buf[99] == 97 && buf[97] == 0;
    assert NameAt(buf, 97, 97) == Some(([], 98));
  }
}

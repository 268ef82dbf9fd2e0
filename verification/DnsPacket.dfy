/** DNS packets: the header, questions, and the client's query against the server's own parser. */
module DnsPacket {
  import opened Bits
  import opened DnsNames

  // ----- numbers, most significant byte first

  function Put16(v: nat): (r: seq<byte>)
    ensures |r| == 2
  {
    [v / 256 % 256, v % 256]
  }

  function Get16(buf: seq<byte>, pos: nat): (v: nat)
    requires pos + 2 <= |buf|
    ensures v < 65536
  {
    buf[pos] as nat * 256 + buf[pos + 1] as nat
  }

  /** Sixteen bits survive; anything wider is cut down. */
  lemma Number16(buf: seq<byte>, pos: nat, v: nat)
    requires Holds(buf, pos, Put16(v))
    ensures pos + 2 <= |buf| && Get16(buf, pos) == v % 65536
  {
    assert buf[pos..pos + 2][0] == buf[pos] && buf[pos..pos + 2][1] == buf[pos + 1];
    TwoBytes(v);
  }

  lemma TwoBytes(v: nat)
    ensures v / 256 % 256 * 256 + v % 256 == v % 65536
  {
    var q, w := v / 65536, v % 65536;
    var a, b := w / 256, w % 256;
    assert v == 256 * (256 * q + a) + b;
    assert v / 256 == 256 * q + a && v % 256 == b;
    assert (256 * q + a) % 256 == a;
  }

  // ----- header

  /** The header as it is kept: every flag is a field of one bit, the two codes of four. */
  datatype Header = Header(id: nat, qr: nat, opcode: nat, aa: nat, tc: nat, rd: nat, ra: nat, z: nat, ad: nat, cd: nat,
                           rcode: nat, counts: (nat, nat, nat, nat))

  ghost predicate ValidHeader(h: Header) {
    && h.id < 65536 && h.qr < 2 && h.opcode < 16 && h.rcode < 16
    && h.counts.0 < 65536 && h.counts.1 < 65536 && h.counts.2 < 65536 && h.counts.3 < 65536
  }

  /** A header as it is sent: the counts are the sizes of the sections at hand, not those kept in the header. */
  function EncodeHeader(h: Header, sizes: (nat, nat, nat, nat)): (r: seq<byte>)
    ensures |r| == 12
  {
    Put16(h.id) + Put16(h.qr * 32768 + h.opcode * 16384 + h.rcode)
    + Put16(sizes.0) + Put16(sizes.1) + Put16(sizes.2) + Put16(sizes.3)
  }

  /**
   Reads a header. Operation code and the flags next to it are masked out but not shifted down, and then
   cut down to the width of their fields.
   */
  function DecodeHeader(buf: seq<byte>): (r: Option<Header>) {
    if |buf| < 12 then None
    else
      var f := Get16(buf, 2);
      Some(Header(Get16(buf, 0), f / 32768, Kept(f, 2048, 16), Kept(f, 1024, 2), Kept(f, 512, 2), Kept(f, 256, 2),
        Bit(f, 128), Bit(f, 64), Bit(f, 32), Bit(f, 16), f % 16,
          (Get16(buf, 4), Get16(buf, 6), Get16(buf, 8), Get16(buf, 10))))
  }

  /** The bit of a given weight. */
  function Bit(f: nat, weight: nat): (r: nat)
    requires weight > 0
  {
    f / weight % 2
  }

  /** What a field of size values keeps of the bits of that many values from a weight on, where they stand. */
  function Kept(f: nat, weight: nat, size: nat): (r: nat)
    requires weight > 0 && size > 0
  {
    f / weight % size * weight % size
  }

  lemma KeepsNoFlag(f: nat, weight: nat)
    requires weight > 0 && weight % 2 == 0
    ensures Kept(f, weight, 2) == 0
  {
    var q := f / weight % 2;
    assert q == 0 || q == 1;
    assert q * weight == 0 || q * weight == weight;
  }

  lemma KeepsNoCode(f: nat)
    ensures Kept(f, 2048, 16) == 0
  {
    var q := f / 2048 % 16;
    assert q * 2048 == 16 * (128 * q);
  }

  /** Whatever was sent, operation code, authority, truncation and recursion-desired come out as zero. */
  lemma MaskedAway(buf: seq<byte>)
    ensures DecodeHeader(buf).Some? <==> |buf| >= 12
    ensures DecodeHeader(buf).Some? ==>
      var h := DecodeHeader(buf).value;
      ValidHeader(h) && h.opcode == h.aa == h.tc == h.rd == 0
  {
    hide Get16, Kept, Bit;
    if |buf| >= 12 {
      var f := Get16(buf, 2);
      KeepsNoCode(f);
      KeepsNoFlag(f, 1024);
      KeepsNoFlag(f, 512);
      KeepsNoFlag(f, 256);
    }
  }

  lemma HeaderParts(h: Header, sizes: (nat, nat, nat, nat), buf: seq<byte>)
    requires Holds(buf, 0, EncodeHeader(h, sizes))
    ensures Holds(buf, 0, Put16(h.id)) && Holds(buf, 2, Put16(h.qr * 32768 + h.opcode * 16384 + h.rcode))
    ensures Holds(buf, 4, Put16(sizes.0)) && Holds(buf, 6, Put16(sizes.1)) && Holds(buf, 8, Put16(sizes.2))
    ensures Holds(buf, 10, Put16(sizes.3))
  {
    hide Holds, Put16;
    var a, b, c, d, e, f := Put16(h.id), Put16(h.qr * 32768 + h.opcode * 16384 + h.rcode), Put16(sizes.0),
      Put16(sizes.1), Put16(sizes.2), Put16(sizes.3);
    HoldsSplit(buf, 0, a + b + c + d + e, f);
    HoldsSplit(buf, 0, a + b + c + d, e);
    HoldsSplit(buf, 0, a + b + c, d);
    HoldsSplit(buf, 0, a + b, c);
    HoldsSplit(buf, 0, a, b);
  }

  /** Sixteen bits of each size go out. */
  function Cut16(sizes: (nat, nat, nat, nat)): (r: (nat, nat, nat, nat)) {
    (sizes.0 % 65536, sizes.1 % 65536, sizes.2 % 65536, sizes.3 % 65536)
  }

  /**
   A header comes back with the same identifier and response code, and with the sizes of the sections
   for counts. The operation code is put so high that its second bit meets the direction bit, which
   survives exactly if that bit is clear.
   */
  lemma HeaderRoundTrip(h: Header, sizes: (nat, nat, nat, nat), buf: seq<byte>)
    requires ValidHeader(h) && Holds(buf, 0, EncodeHeader(h, sizes))
    ensures var r := DecodeHeader(buf);
      && r.Some? && r.value.id == h.id && r.value.rcode == h.rcode && r.value.counts == Cut16(sizes)
      && r.value.qr < 2 && (r.value.qr == h.qr <==> h.opcode / 2 % 2 == 0)
  {
    hide Put16, EncodeHeader, Get16, Holds, Kept, Bit;
    HeaderParts(h, sizes, buf);
    Number16(buf, 0, h.id);
    Number16(buf, 2, h.qr * 32768 + h.opcode * 16384 + h.rcode);
    Number16(buf, 4, sizes.0);
    Number16(buf, 6, sizes.1);
    Number16(buf, 8, sizes.2);
    Number16(buf, 10, sizes.3);
    FieldBits(h.qr, h.opcode, h.rcode);
    DirectionKept(h.qr, h.opcode);
  }

  lemma DirectionKept(qr: nat, opcode: nat)
    requires qr < 2
    ensures (qr + opcode / 2) % 2 == qr <==> opcode / 2 % 2 == 0
  {
  }

  /** A caller that asked for operation code 2, a status query, would send a response. */
  lemma StatusQuery(buf: seq<byte>)
    requires Holds(buf, 0, EncodeHeader(Header(1, 0, 2, 0, 0, 0, 0, 0, 0, 0, 0, (0, 0, 0, 0)), (1, 0, 0, 0)))
    ensures DecodeHeader(buf).Some? && DecodeHeader(buf).value.qr == 1
  {
    hide EncodeHeader, DecodeHeader, Holds, Cut16;
    HeaderRoundTrip(Header(1, 0, 2, 0, 0, 0, 0, 0, 0, 0, 0, (0, 0, 0, 0)), (1, 0, 0, 0), buf);
  }

  lemma FieldBits(qr: nat, opcode: nat, rcode: nat)
    requires qr < 2 && opcode < 16 && rcode < 16
    ensures var f := (qr * 32768 + opcode * 16384 + rcode) % 65536;
      f % 16 == rcode && f / 32768 == (qr + opcode / 2) % 2
  {
    var a, b := opcode / 2, opcode % 2;
    assert qr * 32768 + opcode * 16384 + rcode == (qr + a) * 32768 + b * 16384 + rcode;
    var c, d := (qr + a) / 2, (qr + a) % 2;
    assert (qr + a) * 32768 == c * 65536 + d * 32768;
    assert (qr * 32768 + opcode * 16384 + rcode) % 65536 == d * 32768 + b * 16384 + rcode;
  }

  // ----- questions

  datatype Question = Question(name: seq<byte>, kind: nat, class': nat)

  function EncodeQuestion(q: Question): (r: seq<byte>) {
    Wire(q.name) + (Put16(q.kind) + Put16(q.class'))
  }

  /** Type and class behind a name. */
  function TypeAndClass(buf: seq<byte>, name: Parsed): (r: Option<Question>) {
    if name.None? || name.value.1 + 4 > |buf| then None
    else Some(Question(name.value.0, Get16(buf, name.value.1), Get16(buf, name.value.1 + 2)))
  }

  /** The question at a position and the position after it. */
  function DecodeQuestion(buf: seq<byte>, pos: nat): (r: Option<(Question, nat)>) {
    var name := NameAt(buf, pos, pos);
    var q := TypeAndClass(buf, name);
    if q.None? then None else Some((q.value, name.value.1 + 4))
  }

  /** Writes a question behind what is there, as packets are put together. */
  method PutQuestion(bytes: seq<byte>, q: Question) returns (r: seq<byte>)
    ensures r == bytes + EncodeQuestion(q)
  {
    hide Wire;
    r := VCodeDomain(bytes, q.name);
    r := r + Put16(q.kind);
    r := r + Put16(q.class');
    assert bytes + Wire(q.name) + Put16(q.kind) + Put16(q.class') ==
      bytes + (Wire(q.name) + (Put16(q.kind) + Put16(q.class')));
  }

  /** A question is read back, up to its end, if and only if its name can be. */
  lemma QuestionRoundTrip(buf: seq<byte>, pos: nat, q: Question)
    requires Holds(buf, pos, EncodeQuestion(q)) && q.kind < 65536 && q.class' < 65536
    ensures DecodeQuestion(buf, pos) == Some((q, pos + |EncodeQuestion(q)|)) <==> Readable(q.name)
  {
    hide Wire, Readable, NameAt, Put16, Holds;
    HoldsSplit(buf, pos, Wire(q.name), Put16(q.kind) + Put16(q.class'));
    WireLength(q.name);
    var p := pos + |q.name| + 2;
    HoldsSplit(buf, p, Put16(q.kind), Put16(q.class'));
    NameRoundTrip(buf, pos, q.name, pos);
    Number16(buf, p, q.kind);
    Number16(buf, p + 2, q.class');
  }

  // ----- the client's query

  /** The labels that splitting at dots gives, empty ones skipped, each behind its length. */
  function TokenWire(s: seq<byte>): (r: seq<byte>)
    decreases |s|
  {
    if s == [] then []
    else if s[0] == DOT then TokenWire(s[1..])
    else
      var e := FirstDot(s);
      [e % 256] + s[..e] + TokenWire(s[e..])
  }

  function QueryHeader(id: nat): (r: seq<byte>)
    ensures |r| == 12
  {
    [id / 256 % 256, id % 256, 0x01, 0x00, 0x00, 0x01, 0x00, 0x00, 0x00, 0x00, 0x00, 0x00]
  }

  /** A query as sent: only the low byte of the type goes out. */
  function Query(url: seq<byte>, id: nat, kind: nat): (r: seq<byte>) {
    QueryHeader(id) + TokenWire(url) + [0x00] + [0x00, kind % 256, 0x00, 0x01]
  }

  const REQUEST_SIZE: nat := 512

  lemma {:induction false} TokenWireSize(s: seq<byte>)
    ensures |TokenWire(s)| <= |s| + 1 && (s != [] && s[0] == DOT ==> |TokenWire(s)| <= |s|)
    decreases |s|
  {
    hide FirstDot;
    if s == [] {
    } else {
      if s[0] == DOT {
        TokenWireSize(s[1..]);
      } else {
        var e := FirstDot(s);
        FirstDotPositive(s);
        if e < |s| {
          TokenWireSize(s[e..]);
        }
      }
    }
  }

  lemma FirstDotPositive(s: seq<byte>)
    requires s != [] && s[0] != DOT
    ensures FirstDot(s) > 0 && (FirstDot(s) < |s| ==> s[FirstDot(s)] == DOT)
  {
  }

  /** Writes a label behind its length. */
  method PutLabel(request: array<byte>, at: nat, s: seq<byte>, start: nat, end: nat) returns (next: nat)
    requires start <= end <= |s| && at + 1 + (end - start) <= request.Length
    modifies request
    ensures next == at + 1 + (end - start)
    ensures request[..next] == old(request[..at]) + ([(end - start) % 256] + s[start..end])
  {
    next := WriteByte(request, at, (end - start) % 256);
    next := WriteBytes(request, next, s, start, end);
  }

  /** Writes the labels of a name, leaving out empty ones. */
  method PutTokens(request: array<byte>, at: nat, url: seq<byte>) returns (next: nat)
    requires at + |TokenWire(url)| <= request.Length
    modifies request
    ensures next == at + |TokenWire(url)| && request[..next] == old(request[..at]) + TokenWire(url)
  {
    hide TokenWire, FirstDot;
    ghost var head := request[..at];
    next := at;
    var start := 0;
    assert url[0..] == url;
    while start < |url|
      invariant start <= |url| && at <= next && next + |TokenWire(url[start..])| == at + |TokenWire(url)|
      invariant request[..next] + TokenWire(url[start..]) == head + TokenWire(url)
    {
      TokenStep(url, start);
      if url[start] == DOT {
        start := start + 1;
      } else {
        var end := FindDot(url, start);
        Regroup(request[..next], (end - start) % 256, url[start..end], TokenWire(url[end..]));
        next := PutLabel(request, next, url, start, end);
        start := end;
      }
    }
    TokenEnd(url[start..]);
  }

  /** Writes the end of the name, the type and the class. */
  method PutQueryEnd(request: array<byte>, at: nat, kind: nat) returns (next: nat)
    requires at + 5 <= request.Length
    modifies request
    ensures next == at + 5 && request[..next] == old(request[..at]) + [0x00] + [0x00, kind % 256, 0x00, 0x01]
  {
    ghost var head := request[..at];
    next := WriteByte(request, at, 0x00);
    next := WriteByte(request, next, 0x00);
    next := WriteByte(request, next, kind % 256);
    next := WriteByte(request, next, 0x00);
    next := WriteByte(request, next, 0x01);
    assert request[..next] == head + [0x00] + [0x00] + [kind % 256] + [0x00] + [0x01];
  }

  /** Builds a query in the request buffer. Callers refuse names of more than 255 bytes, so it fits. */
  method BuildQuery(request: array<byte>, url: seq<byte>, id: nat, kind: nat) returns (length: nat)
    requires request.Length == REQUEST_SIZE && |url| <= 255 && id < 65536 && kind < 65536
    modifies request
    ensures length <= REQUEST_SIZE && request[..length] == Query(url, id, kind)
  {
    hide TokenWire;
    TokenWireSize(url);
    length := WriteBytes(request, 0, QueryHeader(id), 0, 12);
    length := PutTokens(request, length, url);
    length := PutQueryEnd(request, length, kind);
  }

  lemma TokenEnd(s: seq<byte>)
    ensures s == [] ==> TokenWire(s) == []
  {
  }

  lemma TokenStep(s: seq<byte>, start: nat)
    requires start < |s|
    ensures s[start] == DOT ==> TokenWire(s[start..]) == TokenWire(s[start + 1..])
    ensures s[start] != DOT ==>
      var e := FirstDot(s[start..]);
      e > 0 && TokenWire(s[start..]) == [e % 256] + s[start..start + e] + TokenWire(s[start + e..])
  {
    hide FirstDot;
    var t := s[start..];
    assert t[0] == s[start] && t[1..] == s[start + 1..];
    if s[start] != DOT {
      FirstDotPositive(t);
      var e := FirstDot(t);
      assert t[..e] == s[start..start + e] && t[e..] == s[start + e..];
    }
  }

  // ----- the server's parser

  /** A byte as the server's plain character type holds it. */
  function Signed(b: byte): (r: int)
    ensures r == 0 <==> b == 0
  {
    if b < 128 then b else b - 256
  }

  /** How many characters a length stands for: none if it comes out negative. */
  function Taken(b: byte): (n: nat) {
    if b < 128 then b else 0
  }

  /** The name from a position on, given its first length. */
  function ServerLabels(buf: seq<byte>, pos: nat, len: byte): (r: Parsed)
    decreases |buf| - pos
  {
    var next := pos + Taken(len);
    if next >= |buf| then None
    else if buf[next] == 0 then Some((buf[pos..next], next + 1))
    else Prepend(buf[pos..next] + [DOT], ServerLabels(buf, next + 1, buf[next]))
  }

  function ServerName(buf: seq<byte>, pos: nat): (r: Parsed) {
    if pos >= |buf| then None
    else if buf[pos] == 0 then Some(([], pos + 1))
    else ServerLabels(buf, pos + 1, buf[pos])
  }

  function ServerQuestion(buf: seq<byte>): (r: Option<Question>) {
    TypeAndClass(buf, ServerName(buf, 12))
  }

  /** The server's loop over a received packet. */
  method ParseQuestion(buf: seq<byte>) returns (r: Option<Question>)
    ensures r == ServerQuestion(buf)
  {
    if 12 >= |buf| {
      return None;
    }
    var pos, name := 13, [];
    var byte' := buf[12];
    var length := Signed(byte');
    ghost var whole := ServerName(buf, 12);
    PrependNothing(ServerLabels(buf, pos, byte'));
    while length != 0
      invariant 13 <= pos <= |buf| && length == Signed(byte')
      invariant whole == if length == 0 then Some((name, pos)) else Prepend(name, ServerLabels(buf, pos, byte'))
      decreases |buf| - pos, if length == 0 then 0 else 1
    {
      var n := if length > 0 then length else 0;
      if pos + n >= |buf| {
        return None;
      }
      var text := ReadBytes(buf, pos, n);
      ghost var before := name;
      name := name + text;
      pos := pos + n;
      byte' := buf[pos];
      length := Signed(byte');
      pos := pos + 1;
      if length != 0 {
        PrependTwice(before, text + [DOT], ServerLabels(buf, pos, byte'));
        assert before + (text + [DOT]) == name + [DOT];
        name := name + [DOT];
      }
    }
    r := if pos + 4 > |buf| then None else Some(Question(name, Get16(buf, pos), Get16(buf, pos + 2)));
  }

  /** The server reads a byte for every character and two more. */
  lemma {:induction false} ServerLength(buf: seq<byte>, pos: nat, len: byte)
    ensures var r := ServerLabels(buf, pos, len); r.Some? ==> |r.value.0| + 1 == r.value.1 - pos
    decreases |buf| - pos
  {
    var next := pos + Taken(len);
    if next < |buf| && buf[next] != 0 {
      ServerLength(buf, next + 1, buf[next]);
    }
  }

  /** No label is empty. */
  predicate NoEmptyLabel(s: seq<byte>)
    decreases |s|
  {
    var e := FirstDot(s);
    e >= 1 && (e < |s| ==> NoEmptyLabel(s[e + 1..]))
  }

  /** All labels are from 1 to 127 bytes long. */
  predicate Served(s: seq<byte>)
    decreases |s|
  {
    var e := FirstDot(s);
    1 <= e <= 127 && (e < |s| ==> Served(s[e + 1..]))
  }

  lemma ServedStep(s: seq<byte>, e: nat)
    requires e == FirstDot(s)
    ensures Served(s) <==> 1 <= e <= 127 && (e < |s| ==> Served(s[e + 1..]))
    ensures NoEmptyLabel(s) <==> 1 <= e && (e < |s| ==> NoEmptyLabel(s[e + 1..]))
  {
    hide FirstDot;
  }

  lemma {:induction false} ServedNotEmpty(s: seq<byte>)
    requires Served(s)
    ensures NoEmptyLabel(s)
    decreases |s|
  {
    hide FirstDot;
    var e := FirstDot(s);
    if e >= |s| {
    } else {
      ServedNotEmpty(s[e + 1..]);
    }
  }

  /** A length the server does not read as it was meant: the text differs from the start of that label on. */
  lemma WrongLength(buf: seq<byte>, pos: nat, s: seq<byte>, e: nat)
    requires Holds(buf, pos, Wire(s)) && e == FirstDot(s) && e >= 128 && e % 256 != 0
    ensures pos < |buf| && var r := ServerLabels(buf, pos + 1, buf[pos]); r.Some? ==> r.value.0 != s
  {
    hide Wire, Holds, FirstDot, ServerLabels;
    WireParts(buf, pos, s, e);
    NoDotBefore(s);
    var k := Taken(buf[pos]);
    assert k < e;
    assert buf[pos + 1 + k] == buf[pos + 1..pos + 1 + e][k] == s[k] != DOT;
    FirstLabel(buf, pos + 1, buf[pos], |s|);
  }

  lemma NoDotBefore(s: seq<byte>)
    ensures FirstDot(s) <= |s| && forall i :: 0 <= i < FirstDot(s) ==> s[i] != DOT
  {
  }

  /** What the server reads ends with the first label or has a dot behind it. */
  lemma FirstLabel(buf: seq<byte>, pos: nat, len: byte, n: nat)
    requires pos + Taken(len) < |buf| && Taken(len) < n
    ensures var r := ServerLabels(buf, pos, len); r.Some? ==> |r.value.0| != n || r.value.0[Taken(len)] == DOT
  {
    hide ServerLabels;
    ServerLabelsStep(buf, pos, len);
    var k := Taken(len);
    var text := buf[pos..pos + k] + [DOT];
    assert text[k] == DOT;
  }

  lemma ServerLabelsStep(buf: seq<byte>, pos: nat, len: byte)
    requires pos + Taken(len) < |buf|
    ensures var next := pos + Taken(len);
      ServerLabels(buf, pos, len) ==
        if buf[next] == 0 then Some((buf[pos..next], next + 1))
          else Prepend(buf[pos..next] + [DOT], ServerLabels(buf, next + 1, buf[next]))
  {
  }

  /**
   An encoded name without empty labels is read back by the server exactly if its labels are at most
   127 bytes long.
   */
  lemma {:induction false} ServerLabelsRoundTrip(buf: seq<byte>, pos: nat, s: seq<byte>)
    requires Holds(buf, pos, Wire(s)) && NoEmptyLabel(s) && FirstDot(s) % 256 != 0
    ensures pos < |buf| && (ServerLabels(buf, pos + 1, buf[pos]) == Some((s, pos + |s| + 2)) <==> Served(s))
    decreases |s|
  {
    hide Wire, Holds, Served, NoEmptyLabel, FirstDot, Prepend;
    var e := FirstDot(s);
    WireParts(buf, pos, s, e);
    ServedStep(s, e);
    var q := pos + 1 + e;
    if e >= 128 {
      WrongLength(buf, pos, s, e);
    } else if e == |s| {
      assert s[..e] == s;
    } else {
      var t := s[e + 1..];
      var f := FirstDot(t);
      WireParts(buf, q, t, f);
      ServedStep(t, f);
      if f % 256 != 0 {
        PrependIs(s, e, ServerLabels(buf, q + 1, buf[q]), pos + |s| + 2);
        ServerLabelsRoundTrip(buf, q, t);
      }
    }
  }

  lemma ServerNameRoundTrip(buf: seq<byte>, pos: nat, s: seq<byte>)
    requires Holds(buf, pos, Wire(s)) && NoEmptyLabel(s)
    ensures ServerName(buf, pos) == Some((s, pos + |s| + 2)) <==> Served(s)
  {
    hide Wire, Holds, Served, NoEmptyLabel, FirstDot, ServerLabels;
    var e := FirstDot(s);
    WireParts(buf, pos, s, e);
    ServedStep(s, e);
    if e % 256 != 0 {
      ServerLabelsRoundTrip(buf, pos, s);
    }
  }

  // ----- the query as the server reads it

  lemma TokenUnfold(s: seq<byte>, e: nat)
    requires s != [] && s[0] != DOT && e == FirstDot(s)
    ensures e >= 1 && TokenWire(s) == [e % 256] + s[..e] + (if e == |s| then [] else TokenWire(s[e + 1..]))
  {
    hide FirstDot;
    FirstDotPositive(s);
    if e < |s| {
      assert s[e..][1..] == s[e + 1..];
    }
  }

  /** Without empty labels the client's encoder does the same as the others. */
  lemma {:induction false} TokenWireIsWire(s: seq<byte>)
    requires NoEmptyLabel(s)
    ensures TokenWire(s) + [0] == Wire(s)
    decreases |s|
  {
    hide TokenWire, Wire, FirstDot, NoEmptyLabel;
    var e := FirstDot(s);
    ServedStep(s, e);
    FirstByte(s, e);
    TokenUnfold(s, e);
    WireUnfold(s, e);
    if e >= |s| {
    } else {
      TokenWireIsWire(s[e + 1..]);
      ConcatAssoc([e % 256] + s[..e], TokenWire(s[e + 1..]), [0]);
    }
  }

  lemma FirstByte(s: seq<byte>, e: nat)
    requires e == FirstDot(s) && e >= 1
    ensures s != [] && s[0] != DOT
  {
  }

  /** With an empty label it writes less. */
  lemma {:induction false} TokenWireShort(s: seq<byte>)
    requires !NoEmptyLabel(s) && s != []
    ensures |TokenWire(s)| <= |s|
    decreases |s|
  {
    hide FirstDot, NoEmptyLabel, TokenWire;
    var e := FirstDot(s);
    ServedStep(s, e);
    if s[0] == DOT {
      TokenWireSize(s);
    } else {
      TokenUnfold(s, e);
      if e < |s| {
        var t := s[e + 1..];
        if t == [] {
          TokenEnd(t);
        } else {
          TokenWireShort(t);
        }
      }
    }
  }

  lemma QueryParts(url: seq<byte>, id: nat, kind: nat)
    ensures |Query(url, id, kind)| == 17 + |TokenWire(url)|
    ensures Holds(Query(url, id, kind), 12, TokenWire(url) + [0x00])
    ensures var p := 13 + |TokenWire(url)|;
      Get16(Query(url, id, kind), p) == kind % 256 && Get16(Query(url, id, kind), p + 2) == 1
  {
    hide TokenWire;
    var q, body := Query(url, id, kind), TokenWire(url) + [0x00];
    assert q == QueryHeader(id) + body + [0x00, kind % 256, 0x00, 0x01];
    assert q[12..12 + |body|] == body;
  }

  /** Where the server's reading of a name ends follows from how much it has read. */
  lemma ServerNameEnd(buf: seq<byte>, pos: nat)
    ensures var r := ServerName(buf, pos); r.Some? && r.value.0 != [] ==> r.value.1 == pos + |r.value.0| + 2
  {
    hide ServerLabels;
    if pos < |buf| {
      ServerLength(buf, pos + 1, buf[pos]);
    }
  }

  /**
   The server reads back name, type and class of a query if and only if the type fits a byte and no
   label of the name is empty or longer than 127 bytes. The empty name counts as having no labels.
   */
  lemma QueryRoundTrip(url: seq<byte>, id: nat, kind: nat)
    ensures ServerQuestion(Query(url, id, kind)) == Some(Question(url, kind, 1)) <==>
      (url == [] || Served(url)) && kind < 256
  {
    hide TokenWire, ServerName, Served, NoEmptyLabel, Query, Get16, Wire;
    var q := Query(url, id, kind);
    QueryParts(url, id, kind);
    ServerNameEnd(q, 12);
    if url == [] {
      EmptyQuery(id, kind);
    } else if NoEmptyLabel(url) {
      TokenWireIsWire(url);
      WireLength(url);
      ServerNameRoundTrip(q, 12, url);
    } else {
      TokenWireShort(url);
      if Served(url) {
        ServedNotEmpty(url);
      }
    }
  }

  lemma EmptyQuery(id: nat, kind: nat)
    ensures TokenWire([]) == [] && ServerName(Query([], id, kind), 12) == Some(([], 13))
  {
    hide ServerLabels;
  }

  // ----- where it fails

  /** A label of 128 bytes is not read back by the server. */
  lemma LabelOf128(id: nat)
    ensures var url: seq<byte> := seq(128, _ => 97); ServerQuestion(Query(url, id, 1)) != Some(Question(url, 1, 1))
  {
    hide ServerQuestion, Query;
    var url: seq<byte> := seq(128, _ => 97);
    OneLabel(url);
    QueryRoundTrip(url, id, 1);
  }

  lemma OneLabel(s: seq<byte>)
    requires forall i :: 0 <= i < |s| ==> s[i] != DOT
    ensures FirstDot(s) == |s|
  {
  }

  /** A query of type 256 arrives as one of type 0. */
  lemma TypeOf256(id: nat)
    ensures ServerQuestion(Query([97], id, 256)) == Some(Question([97], 0, 1))
  {
    hide ServerQuestion;
    assert Query([97], id, 256) == Query([97], id, 0);
    OneLabel([97]);
    QueryRoundTrip([97], id, 0);
  }
}

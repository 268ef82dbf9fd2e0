/**
 Responses on their way through: the client takes a response apart, and the server puts it together again
 for the one who asked.
 */
module DnsForward {
  import opened Arith
  import opened Bits
  import opened DnsNames
  import opened DnsPacket

  // ----- records

  /** A record but for its data. */
  datatype Answer = Answer(name: seq<byte>, kind: nat, class': nat, ttl: nat, size: nat)

  lemma {:induction false} LabelsMove(buf: seq<byte>, pos: nat, len: byte, limit: nat)
    ensures LabelsAt(buf, pos, len, limit).Some? ==> LabelsAt(buf, pos, len, limit).value.1 > pos
    decreases |buf| - pos
  {
    var next := pos + len;
    if next >= |buf| || buf[next] == 0 || buf[next] == COMPRESSION_TAG {
    } else {
      LabelsMove(buf, next + 1, buf[next], limit);
    }
  }

  lemma NameMoves(buf: seq<byte>, pos: nat, limit: nat)
    ensures NameAt(buf, pos, limit).Some? ==> NameAt(buf, pos, limit).value.1 > pos
  {
    hide LabelsAt;
    if pos < |buf| {
      LabelsMove(buf, pos + 1, buf[pos], limit);
    }
  }

  /** The name in front of a record. Only a pointer is followed; a name written out is not passed over. */
  function OwnerAt(buf: seq<byte>, pos: nat): (r: Parsed) {
    if pos >= |buf| then None
    else if buf[pos] != COMPRESSION_TAG then Some(([], pos))
    else if pos + 1 >= |buf| then None
    else
      var t := NameAt(buf, buf[pos + 1], buf[pos + 1]);
      if t.None? then None else Some((t.value.0, pos + 2))
  }

  /** Where the data of a record end: names are read, anything else is passed over. */
  function DataEnd(buf: seq<byte>, kind: nat, size: nat, pos: nat): (r: Option<nat>) {
    if size != 4 && kind in {2, 5, 12, 15} then
      var at := if kind == 15 then pos + 2 else pos;
      var t := NameAt(buf, at, at);
      if t.None? then None else Some(t.value.1)
    else Some(pos + size)
  }

  /** The record at a position and the position after it. */
  function AnswerAt(buf: seq<byte>, pos: nat): (r: Option<(Answer, nat)>) {
    var t := OwnerAt(buf, pos);
    if t.None? || t.value.1 + 10 > |buf| then None
    else
      var p := t.value.1;
      var kind, size := Get16(buf, p), Get16(buf, p + 8);
      var end := DataEnd(buf, kind, size, p + 10);
      if end.None? then None
      else
        var ttl := Get16(buf, p + 4) * 65536 + Get16(buf, p + 6);
        Some((Answer(t.value.0, kind, Get16(buf, p + 2), ttl, size), end.value))
  }

  lemma AnswerMoves(buf: seq<byte>, pos: nat)
    ensures AnswerAt(buf, pos).Some? ==> AnswerAt(buf, pos).value.1 >= pos + 10
  {
    hide NameAt, Get16;
    var t := OwnerAt(buf, pos);
    if t.Some? {
      NameMoves(buf, t.value.1 + 10, t.value.1 + 10);
      NameMoves(buf, t.value.1 + 12, t.value.1 + 12);
    }
  }

  /** Takes a record apart, moving on in the packet. */
  method DecodeAnswer(buf: seq<byte>, start: nat) returns (r: Option<Answer>, pos: nat)
    ensures AnswerAt(buf, start) == if r.Some? then Some((r.value, pos)) else None
  {
    hide NameAt, Get16;
    r, pos := None, start;
    if pos >= |buf| {
      return;
    }
    var ok, name, end := true, [], 0;
    if buf[pos] == COMPRESSION_TAG {
      if pos + 1 >= |buf| {
        return;
      }
      ok, name, end := GetDnsString(buf, buf[pos + 1], buf[pos + 1]);
      pos := pos + 2;
    }
    if !ok || pos + 10 > |buf| {
      return;
    }
    var kind, class' := Get16(buf, pos), Get16(buf, pos + 2);
    var ttl, size := Get16(buf, pos + 4) * 65536 + Get16(buf, pos + 6), Get16(buf, pos + 8);
    pos := pos + 10;
    if size != 4 && kind in {2, 5, 12, 15} {
      var at := if kind == 15 then pos + 2 else pos;
      var text;
      ok, text, pos := GetDnsString(buf, at, at);
      if !ok {
        return;
      }
    } else {
      pos := pos + size;
    }
    r := Some(Answer(name, kind, class', ttl, size));
  }

  // ----- sections

  /** A section: it is broken off behind the first record that ends beyond the size given. */
  function SectionAt(buf: seq<byte>, pos: nat, count: nat, size: nat): (r: Option<(seq<Answer>, nat)>)
    decreases count
  {
    if count == 0 then Some(([], pos))
    else
      var a := AnswerAt(buf, pos);
      if a.None? then None
      else if a.value.1 > size then Some(([a.value.0], a.value.1))
      else
        var rest := SectionAt(buf, a.value.1, count - 1, size);
        if rest.None? then None else Some(([a.value.0] + rest.value.0, rest.value.1))
  }

  /** A section is complete unless it was broken off, and every record takes up ten bytes. */
  lemma {:induction false} SectionSize(buf: seq<byte>, pos: nat, count: nat, size: nat)
    requires SectionAt(buf, pos, count, size).Some?
    ensures var (rs, end) := SectionAt(buf, pos, count, size).value;
      && |rs| <= count && (|rs| < count ==> end > size) && (count > 0 ==> |rs| > 0) && pos + 10 * |rs| <= end
    decreases count
  {
    hide AnswerAt;
    if count == 0 {
    } else {
      AnswerMoves(buf, pos);
      var end := AnswerAt(buf, pos).value.1;
      if end <= size {
        SectionSize(buf, end, count - 1, size);
      }
    }
  }

  /** When the size leaves no room for a record the first one is all that is read. */
  lemma SectionOfOne(buf: seq<byte>, pos: nat, count: nat, size: nat)
    requires SectionAt(buf, pos, count, size).Some? && pos + 10 > size
    ensures |SectionAt(buf, pos, count, size).value.0| == if count == 0 then 0 else 1
  {
    hide AnswerAt;
    AnswerMoves(buf, pos);
  }

  lemma SectionStep(buf: seq<byte>, pos: nat, count: nat, size: nat, a: Answer, next: nat)
    requires count > 0 && AnswerAt(buf, pos) == Some((a, next))
    ensures next > size ==> SectionAt(buf, pos, count, size) == Some(([a], next))
    ensures next <= size ==> SectionAt(buf, pos, count, size) == Behind([a], SectionAt(buf, next, count - 1, size))
  {
    hide AnswerAt;
  }

  /** Records put in front of what is read after them. */
  function Behind(rs: seq<Answer>, x: Option<(seq<Answer>, nat)>): (r: Option<(seq<Answer>, nat)>) {
    if x.None? then None else Some((rs + x.value.0, x.value.1))
  }

  lemma BehindBoth(a: seq<Answer>, b: seq<Answer>, x: Option<(seq<Answer>, nat)>)
    ensures Behind(a, Behind(b, x)) == Behind(a + b, x)
    ensures Behind([], x) == x
  {
    if x.Some? {
      assert a + (b + x.value.0) == a + b + x.value.0 && [] + x.value.0 == x.value.0;
    }
  }

  /** Reads the records of a section. */
  method ReadSection(buf: seq<byte>, start: nat, count: nat, size: nat) returns (ok: bool, rs: seq<Answer>, pos: nat)
    ensures SectionAt(buf, start, count, size) == if ok then Some((rs, pos)) else None
  {
    hide AnswerAt, SectionAt, Behind;
    ok, rs, pos := true, [], start;
    var i := 0;
    ghost var goal := SectionAt(buf, start, count, size);
    BehindBoth([], [], goal);
    while i < count
      invariant 0 <= i <= count && goal == Behind(rs, SectionAt(buf, pos, count - i, size))
    {
      var a, next := DecodeAnswer(buf, pos);
      if a.None? {
        NoSection(buf, pos, count - i, size, rs);
        return false, rs, pos;
      }
      SectionStep(buf, pos, count - i, size, a.value, next);
      BehindBoth(rs, [a.value], SectionAt(buf, next, count - i - 1, size));
      ghost var had := rs;
      rs, pos, i := rs + [a.value], next, i + 1;
      if pos > size {
        BehindThese(had, [a.value], pos);
        return;
      }
    }
    NoMore(buf, pos, size, rs);
  }

  lemma NoSection(buf: seq<byte>, pos: nat, count: nat, size: nat, rs: seq<Answer>)
    requires count > 0 && AnswerAt(buf, pos) == None
    ensures Behind(rs, SectionAt(buf, pos, count, size)) == None
  {
    hide AnswerAt;
  }

  lemma BehindThese(a: seq<Answer>, b: seq<Answer>, end: nat)
    ensures Behind(a, Some((b, end))) == Some((a + b, end))
  {
  }

  lemma NoMore(buf: seq<byte>, pos: nat, size: nat, rs: seq<Answer>)
    ensures Behind(rs, SectionAt(buf, pos, 0, size)) == Some((rs, pos))
  {
    assert rs + [] == rs;
  }

  // ----- the whole response

  /** The questions of a packet, which are read whatever its size. */
  function QuestionsAt(buf: seq<byte>, pos: nat, count: nat): (r: Option<(seq<Question>, nat)>)
    decreases count
  {
    if count == 0 then Some(([], pos))
    else
      var before := QuestionsAt(buf, pos, count - 1);
      if before.None? then None
      else
        var q := DecodeQuestion(buf, before.value.1);
        if q.None? then None else Some((before.value.0 + [q.value.0], q.value.1))
  }

  lemma {:induction false} QuestionsSize(buf: seq<byte>, pos: nat, count: nat)
    requires QuestionsAt(buf, pos, count).Some?
    ensures |QuestionsAt(buf, pos, count).value.0| == count && QuestionsAt(buf, pos, count).value.1 >= pos
    decreases count
  {
    hide NameAt;
    if count == 0 {
    } else {
      QuestionsSize(buf, pos, count - 1);
      var p := QuestionsAt(buf, pos, count - 1).value.1;
      NameMoves(buf, p, p);
    }
  }

  /** Reads one question after the other. */
  method ReadQuestions(buf: seq<byte>, start: nat, count: nat) returns (ok: bool, qs: seq<Question>, pos: nat)
    ensures QuestionsAt(buf, start, count) == if ok then Some((qs, pos)) else None
  {
    hide NameAt, DecodeQuestion;
    ok, qs, pos := true, [], start;
    for i := 0 to count
      invariant ok && QuestionsAt(buf, start, i) == Some((qs, pos))
    {
      var q := DecodeQuestion(buf, pos);
      if q.None? {
        NoQuestions(buf, start, i + 1, count);
        return false, qs, pos;
      }
      qs, pos := qs + [q.value.0], q.value.1;
    }
  }

  lemma {:induction false} NoQuestions(buf: seq<byte>, pos: nat, i: nat, count: nat)
    requires i <= count && QuestionsAt(buf, pos, i) == None
    ensures QuestionsAt(buf, pos, count) == None
    decreases count
  {
    hide DecodeQuestion;
    if i == count {
    } else {
      NoQuestions(buf, pos, i, count - 1);
    }
  }

  /** What is taken out of a response: its questions, the records of its sections, and where the last one ended. */
  datatype Taken = Taken(questions: seq<Question>, answers: seq<Answer>, authority: seq<Answer>,
                         additional: seq<Answer>, end: nat)

  function TakenFrom(buf: seq<byte>, counts: (nat, nat, nat, nat), size: nat): (r: Option<Taken>) {
    var q := QuestionsAt(buf, 12, counts.0);
    if q.None? then None
    else
      var a := SectionAt(buf, q.value.1, counts.1, size);
      if a.None? then None
      else
        var n := SectionAt(buf, a.value.1, counts.2, size);
        if n.None? then None
        else
          var r := SectionAt(buf, n.value.1, counts.3, size);
          if r.None? then None
          else Some(Taken(q.value.0, a.value.0, n.value.0, r.value.0, r.value.1))
  }

  /** How many records a section gives: all of them if it is not broken off, and one if there is no room for any. */
  lemma TakenSizes(buf: seq<byte>, counts: (nat, nat, nat, nat), size: nat)
    requires TakenFrom(buf, counts, size).Some?
    ensures var t := TakenFrom(buf, counts, size).value;
      && |t.questions| == counts.0
      && |t.answers| <= counts.1 && |t.authority| <= counts.2 && |t.additional| <= counts.3
      && 12 + 10 * (|t.answers| + |t.authority| + |t.additional|) <= t.end
      && (t.end <= size ==> |t.answers| == counts.1 && |t.authority| == counts.2 && |t.additional| == counts.3)
      && (size < 22 ==> |t.answers| == Min(counts.1, 1) && |t.authority| == Min(counts.2, 1))
      && (size < 22 ==> |t.additional| == Min(counts.3, 1))
  {
    hide SectionAt, QuestionsAt;
    QuestionsSize(buf, 12, counts.0);
    var q := QuestionsAt(buf, 12, counts.0).value.1;
    SectionSize(buf, q, counts.1, size);
    var a := SectionAt(buf, q, counts.1, size).value.1;
    SectionSize(buf, a, counts.2, size);
    var n := SectionAt(buf, a, counts.2, size).value.1;
    SectionSize(buf, n, counts.3, size);
    if size < 22 {
      SectionOfOne(buf, q, counts.1, size);
      SectionOfOne(buf, a, counts.2, size);
      SectionOfOne(buf, n, counts.3, size);
    }
  }

  // ----- taking in and sending on

  /** The questions as they are sent. */
  function QuestionsWire(qs: seq<Question>): (r: seq<byte>) {
    if qs == [] then [] else QuestionsWire(qs[..|qs| - 1]) + EncodeQuestion(qs[|qs| - 1])
  }

  class Request {
    var header: Header
    var questions: seq<Question>
    var answers: seq<Answer>
    var authority: seq<Answer>
    var additional: seq<Answer>

    /** A new request. Its header is whatever the memory held. */
    constructor (header: Header)
      ensures this.header == header && questions == [] && answers == authority == additional == []
    {
      this.header, questions, answers, authority, additional := header, [], [], [], [];
    }

    function Sizes(): (nat, nat, nat, nat)
      reads this
    {
      (|questions|, |answers|, |authority|, |additional|)
    }

    /**
     Takes a response apart. The records of all three sections become answers. Two of the three places
     responses come from keep the header that was read, and one of them passes the length of the sender's
     address for the size of the packet.
     */
    method Receive(buf: seq<byte>, size: nat, keep: bool) returns (ok: bool)
      modifies this
      ensures ok <==> DecodeHeader(buf).Some? && TakenFrom(buf, DecodeHeader(buf).value.counts, size).Some?
      ensures ok ==>
        var h := DecodeHeader(buf).value;
        var t := TakenFrom(buf, h.counts, size).value;
        && header == (if keep then h else old(header))
        && questions == old(questions) + t.questions
        && answers == old(answers) + t.answers + t.authority + t.additional
        && authority == old(authority) && additional == old(additional)
    {
      hide DecodeHeader, QuestionsAt, SectionAt;
      var h := DecodeHeader(buf);
      if h.None? {
        return false;
      }
      if keep {
        header := h.value;
      }
      var counts := h.value.counts;
      var qs, rs, pos;
      ok, qs, pos := ReadQuestions(buf, 12, counts.0);
      if ok {
        questions := questions + qs;
        ok, rs, pos := ReadSection(buf, pos, counts.1, size);
      }
      if ok {
        answers := answers + rs;
        ok, rs, pos := ReadSection(buf, pos, counts.2, size);
      }
      if ok {
        answers := answers + rs;
        ok, rs, pos := ReadSection(buf, pos, counts.3, size);
      }
      if ok {
        answers := answers + rs;
      }
    }

    /** Puts the packet together for the one who asked, under the identifier they used, as far as the questions go. */
    method Send(id: nat) returns (bytes: seq<byte>)
      modifies this`header
      ensures header == old(header).(id := id) && bytes == EncodeHeader(header, Sizes()) + QuestionsWire(questions)
    {
      hide EncodeHeader, EncodeQuestion;
      header := header.(id := id);
      bytes := EncodeHeader(header, Sizes());
      for i := 0 to |questions|
        invariant header == old(header).(id := id)
        invariant bytes == EncodeHeader(header, Sizes()) + QuestionsWire(questions[..i])
      {
        ghost var w := QuestionsWire(questions[..i]);
        bytes := PutQuestion(bytes, questions[i]);
        assert questions[..i + 1][..i] == questions[..i];
        ConcatAssoc(EncodeHeader(header, Sizes()), w, EncodeQuestion(questions[i]));
      }
      assert questions[..|questions|] == questions;
    }
  }

  /** The counts a response that was taken apart goes out with. */
  function SentCounts(t: Taken): (r: (nat, nat, nat, nat)) {
    Cut16((|t.questions|, |t.answers| + |t.authority| + |t.additional|, 0, 0))
  }

  /**
   A response that arrives is sent on to the one who asked. It goes out under their identifier. Direction and
   response code are those received if the header was kept, and otherwise those the request happened to
   hold. Whatever the three sections gave is counted as answers.
   */
  method Relay(received: seq<byte>, size: nat, keep: bool, stale: Header, id: nat) returns (ok: bool, sent: seq<byte>)
    requires ValidHeader(stale) && id < 65536
    ensures ok <==> DecodeHeader(received).Some? && TakenFrom(received, DecodeHeader(received).value.counts, size).Some?
    ensures ok ==> DecodeHeader(sent).Some?
    ensures ok ==>
      var h, r := DecodeHeader(received).value, DecodeHeader(sent).value;
      && r.id == id && r.counts == SentCounts(TakenFrom(received, h.counts, size).value)
      && (keep ==> r.qr == h.qr && r.rcode == h.rcode)
      && (!keep ==> r.rcode == stale.rcode && (r.qr == stale.qr <==> stale.opcode / 2 % 2 == 0))
  {
    hide DecodeHeader, EncodeHeader, TakenFrom, Cut16;
    var q := new Request(stale);
    sent := [];
    ok := q.Receive(received, size, keep);
    if ok {
      MaskedAway(received);
      sent := q.Send(id);
      Front(EncodeHeader(q.header, q.Sizes()), QuestionsWire(q.questions));
      HeaderRoundTrip(q.header, q.Sizes(), sent);
    }
  }

  lemma Front(a: seq<byte>, b: seq<byte>)
    ensures Holds(a + b, 0, a)
  {
  }

  /** A response that is read whole goes out with all its records counted as answers. */
  lemma CountsSent(received: seq<byte>, counts: (nat, nat, nat, nat), size: nat)
    requires TakenFrom(received, counts, size).Some? && counts.0 < 65536
    ensures var t := TakenFrom(received, counts, size).value;
      t.end <= size < 65536 ==> SentCounts(t) == (counts.0, counts.1 + counts.2 + counts.3, 0, 0)
  {
    hide TakenFrom;
    TakenSizes(received, counts, size);
  }

  /**
   The counts arrive as they were if and only if there were no authority and no additional records and the
   answers were not broken off.
   */
  lemma CountsSurvive(received: seq<byte>, counts: (nat, nat, nat, nat), size: nat)
    requires TakenFrom(received, counts, size).Some?
    requires counts.0 < 65536 && counts.1 < 65536 && counts.2 < 65536 && counts.3 < 65536
    ensures var t := TakenFrom(received, counts, size).value;
      SentCounts(t) == counts <==> counts.2 == 0 && counts.3 == 0 && |t.answers| == counts.1
  {
    hide TakenFrom;
    TakenSizes(received, counts, size);
  }

  /**
   A response that is taken in with the length of an address for its size, 16 bytes, goes out with at most one
   record of each section.
   */
  lemma AddressForSize(received: seq<byte>, counts: (nat, nat, nat, nat))
    requires TakenFrom(received, counts, 16).Some? && counts.0 < 65536
    ensures SentCounts(TakenFrom(received, counts, 16).value)
         == (counts.0, Min(counts.1, 1) + Min(counts.2, 1) + Min(counts.3, 1), 0, 0)
  {
    hide TakenFrom;
    TakenSizes(received, counts, 16);
  }

  // ----- where counts change

  /** A response about the root: one question, an address for an answer, and a name server for an authority. */
  function RootResponse(): (r: seq<byte>)
    ensures |r| == 47
  {
    [0, 7, 0x80, 0, 0, 1, 0, 1, 0, 1, 0, 0]
    + [0, 0, 1, 0, 1]
    + [0xc0, 12, 0, 1, 0, 1, 0, 0, 0, 60, 0, 4, 127, 0, 0, 1]
    + [0xc0, 12, 0, 2, 0, 1, 0, 0, 0, 60, 0, 2, 0xc0, 12]
  }

  lemma RootName()
    ensures NameAt(RootResponse(), 12, 12) == Some(([], 13))
  {
  }

  lemma RootRecords()
    ensures AnswerAt(RootResponse(), 17) == Some((Answer([], 1, 1, 60, 4), 33))
    ensures AnswerAt(RootResponse(), 33) == Some((Answer([], 2, 1, 60, 2), 47))
  {
    RootName();
    var buf := RootResponse();
    assert NameAt(buf, 45, 45) == PointerAt(buf, 45, 45) == Some(([], 47));
  }

  lemma RootHeader()
    ensures DecodeHeader(RootResponse()).Some? && DecodeHeader(RootResponse()).value.counts == (1, 1, 1, 0)
    ensures DecodeQuestion(RootResponse(), 12) == Some((Question([], 1, 1), 17))
  {
    RootName();
  }

  lemma OneQuestion(buf: seq<byte>, pos: nat)
    requires DecodeQuestion(buf, pos).Some?
    ensures QuestionsAt(buf, pos, 1) == Some(([DecodeQuestion(buf, pos).value.0], DecodeQuestion(buf, pos).value.1))
  {
    hide DecodeQuestion;
    assert QuestionsAt(buf, pos, 0) == Some(([], pos));
    assert [] + [DecodeQuestion(buf, pos).value.0] == [DecodeQuestion(buf, pos).value.0];
  }

  lemma OneRecord(buf: seq<byte>, pos: nat, size: nat)
    requires AnswerAt(buf, pos).Some?
    ensures SectionAt(buf, pos, 1, size) == Some(([AnswerAt(buf, pos).value.0], AnswerAt(buf, pos).value.1))
  {
    hide AnswerAt;
    var (a, next) := AnswerAt(buf, pos).value;
    assert SectionAt(buf, next, 0, size) == Some(([], next)) && [a] + [] == [a];
  }

  /** Its counts are 1, 1, 1 and 0; it goes out with 1, 2, 0 and 0. */
  lemma AuthorityBecomesAnswer()
    ensures DecodeHeader(RootResponse()).Some? && DecodeHeader(RootResponse()).value.counts == (1, 1, 1, 0)
    ensures TakenFrom(RootResponse(), (1, 1, 1, 0), 47).Some?
    ensures SentCounts(TakenFrom(RootResponse(), (1, 1, 1, 0), 47).value) == (1, 2, 0, 0)
  {
    hide RootResponse, DecodeHeader, DecodeQuestion, AnswerAt, QuestionsAt;
    var buf := RootResponse();
    RootHeader();
    RootRecords();
    OneQuestion(buf, 12);
    OneRecord(buf, 17, 47);
    OneRecord(buf, 33, 47);
    CountsSent(buf, (1, 1, 1, 0), 47);
  }
}

/** Parsing a DNS query and building the packets this program sends (RFC 1035 section 4.1, RFC 6891 section 6.1). */
module Queries {
  import opened Bytes
  import opened Names
  import opened Presentation
  import opened Header
  import opened Records
  import opened Edns

  const TYPE_A: u16 := 1
  const TYPE_AAAA: u16 := 28
  const MIN_EDNS_UDP_PAYLOAD: u16 := 512
  const MAX_EDNS_UDP_PAYLOAD: u16 := 4096
  const MAX_UDP_PAYLOAD := 512
  /** Longest question: 255 octets of name, two of type, two of class. */
  const MAX_QUESTION := 259

  function ClampEdnsUdpSize(size: u16): (r: u16)
    ensures 512 <= r <= 4096
  {
    if size < MIN_EDNS_UDP_PAYLOAD then MIN_EDNS_UDP_PAYLOAD
    else if size > MAX_EDNS_UDP_PAYLOAD then MAX_EDNS_UDP_PAYLOAD
    else size
  }

  /** An advertised size from 512 to 4096 is taken as it is; others are moved to the nearer end. */
  lemma ClampMeaning(size: u16)
    ensures var r := ClampEdnsUdpSize(size);
      && (512 <= size <= 4096 ==> r == size) && (size < 512 ==> r == 512) && (size > 4096 ==> r == 4096)
  {
  }

  datatype ClientEdns = NoEdns | WithEdns(size: u16, dnssecOk: bool)

  datatype Query = Query(
    id: u16, opcode: byte, recursionDesired: bool, qname: string, qnameWire: seq<byte>,
    qtype: u16, qclass: u16, questionEnd: nat, checkingDisabled: bool, edns: ClientEdns)
  {
    /** DO lives in the OPT record, so it is false without one. */
    predicate DnssecOk() { edns.WithEdns? && edns.dnssecOk }
  }

  lemma DnssecOkMeaning(q: Query)
    ensures q.DnssecOk() <==> q.edns.WithEdns? && q.edns.dnssecOk
  {
  }

  // ---- find_opt ----

  /** The first OPT among `n` records from `o`; anything malformed before it means no EDNS. */
  function FindOpt(b: seq<byte>, o: nat, n: nat): (r: ClientEdns)
    decreases n
  {
    if n == 0 then NoEdns
    else
      match RecordSpan(b, o)
      case None => NoEdns
      case Some(s) =>
        if s.isOpt then OptAt(b, SkipName(b, o).value) else FindOpt(b, s.end, n - 1)
  }

  function OptAt(b: seq<byte>, name: nat): ClientEdns
    requires name + 10 <= |b|
  {
    WithEdns(U16At(b, name + 2), b[name + 6] >= 0x80)
  }

  method FindOptLoop(b: seq<byte>, start: nat, records: nat) returns (r: ClientEdns)
    ensures r == FindOpt(b, start, records)
  {
    hide SkipName, U16At;
    var offset: nat, i: nat := start, 0;
    while i < records
      invariant 0 <= i <= records
      invariant FindOpt(b, start, records) == FindOpt(b, offset, records - i)
    {
      var name := SkipNameLoop(b, offset);
      if name.None? || name.value + 10 > |b| { return NoEdns; }
      var dataEnd := name.value + 10 + U16At(b, name.value + 8);
      if dataEnd > |b| { return NoEdns; }
      if U16At(b, name.value) == 41 {
        return WithEdns(U16At(b, name.value + 2), b[name.value + 6] >= 0x80);
      }
      offset := dataEnd;
      i := i + 1;
    }
    return NoEdns;
  }

  // ---- parse_question_name and parse_query ----

  /** The loop that reads labels and escapes them as it goes. */
  method ParseQuestionName(b: seq<byte>, start: nat) returns (r: Result<(string, nat), WireError>)
    ensures r == match ParseName(b, start, 1)
      case Err(e) => Err(e)
      case Ok(p) => Ok((Present(p.labels), p.end))
  {
    hide Present, Escape;
    var name, offset: nat, wireLen: nat := "", start, 1;
    ghost var done: seq<Label> := [];
    PresentNothing();
    AfterNothing(ParseName(b, start, 1));
    while true
      invariant name == Present(done) && LegalLabels(done) && (name == "" <==> done == [])
      invariant ParseName(b, start, 1) == After(done, ParseName(b, offset, wireLen))
      decreases |b| - offset
    {
      if offset >= |b| { return Err(Truncated); }
      var len := b[offset];
      if len == 0 {
        assert done + [] == done;
        return Ok((name, offset + 1));
      }
      if len >= 0xC0 { return Err(CompressionInQuestion); }
      if len >= 0x40 { return Err(InvalidLabelType); }
      var end := offset + 1 + len as nat;
      if end > |b| { return Err(Truncated); }
      wireLen := wireLen + 1 + len as nat;
      if wireLen > MAX_NAME_WIRE_LEN { return Err(NameTooLong); }
      var l := b[offset + 1..end];
      PresentGrows(done, l);
      AfterStep(done, l, ParseName(b, end, wireLen));
      if name != "" { name := name + "."; }
      name := PushLabelEscaped(name, l);
      done := done + [l];
      offset := end;
    }
  }

  function After(done: seq<Label>, r: Result<ParsedName, WireError>): Result<ParsedName, WireError> {
    match r
    case Err(e) => Err(e)
    case Ok(p) => Ok(ParsedName(done + p.labels, p.end))
  }

  lemma AfterStep(done: seq<Label>, l: Label, r: Result<ParsedName, WireError>)
    ensures After(done + [l], r)
      == After(done, match r case Err(e) => Err(e) case Ok(p) => Ok(ParsedName([l] + p.labels, p.end)))
  {
    if r.Ok? { Assoc(done, [l], r.value.labels); }
  }

  lemma AfterNothing(r: Result<ParsedName, WireError>)
    ensures After([], r) == r
  {
    if r.Ok? { assert [] + r.value.labels == r.value.labels; }
  }

  lemma PresentNothing()
    ensures Present([]) == ""
  {
  }

  lemma PresentGrows(done: seq<Label>, l: Label)
    requires LegalLabels(done) && 1 <= |l| <= MAX_LABEL_LEN
    ensures Present(done + [l]) == (if done == [] then "" else Present(done) + ".") + Escape(l)
    ensures LegalLabels(done + [l]) && Present(done + [l]) != ""
    ensures done != [] ==> Present(done) != ""
  {
    PresentNonEmpty(done + [l]);
    if done == [] {
      assert done + [l] == [l] && "" + Escape(l) == Escape(l);
    } else {
      PresentNonEmpty(done);
      PresentSnoc(done, l);
    }
  }

  /** Total over arbitrary input; exactly one question is accepted. */
  function ParseQuery(b: seq<byte>): (r: Result<Query, WireError>)
    ensures r.Ok? ==> HasHeader(b) && HEADER_LEN + 5 <= r.value.questionEnd <= |b|
  {
    if !HasHeader(b) then Err(Truncated)
    else if Qr(b) then Err(NotAQuery)
    else if U16At(b, 4) != 1 then Err(BadQuestionCount(U16At(b, 4)))
    else
      match ParseName(b, HEADER_LEN, 1)
      case Err(e) => Err(e)
      case Ok(p) =>
        if p.end + 4 > |b| then Err(Truncated)
        else
          Ok(Query(Id(b), Opcode(b), Rd(b), Present(p.labels), b[HEADER_LEN..p.end],
                   U16At(b, p.end), U16At(b, p.end + 2), p.end + 4, Cd(b),
                   FindOpt(b, p.end + 4, U16At(b, 6) as nat + U16At(b, 8) as nat + U16At(b, 10) as nat)))
  }

  /** The question octets that are echoed and forwarded. */
  function QuestionOf(request: seq<byte>): (r: seq<byte>)
    requires ParseQuery(request).Ok?
  {
    request[HEADER_LEN..ParseQuery(request).value.questionEnd]
  }

  function QuestionLabels(request: seq<byte>): (ls: seq<Label>)
    requires ParseQuery(request).Ok?
  {
    ParseName(request, HEADER_LEN, 1).value.labels
  }

  function QuestionBytes(ls: seq<Label>, qtype: u16, qclass: u16): (b: seq<byte>)
    requires LegalLabels(ls)
  {
    Encode(ls) + (U16Bytes(qtype) + U16Bytes(qclass))
  }

  /** A parsed query carries a legal name: its text presents the labels, its wire form encodes them. */
  lemma QueryMeaning(request: seq<byte>)
    requires ParseQuery(request).Ok?
    ensures var q, ls := ParseQuery(request).value, QuestionLabels(request);
      && LegalName(ls) && q.qname == Present(ls) && q.qnameWire == Encode(ls)
      && q.questionEnd == HEADER_LEN + WireLen(ls) + 4
      && QuestionOf(request) == QuestionBytes(ls, q.qtype, q.qclass)
      && |QuestionOf(request)| <= MAX_QUESTION
  {
    hide FindOpt, Present, Encode, ParseName;
    var q, p := ParseQuery(request).value, ParseName(request, HEADER_LEN, 1).value;
    ParsedNameIsEncoding(request, HEADER_LEN, 1);
    U16Split(request, p.end);
    U16Split(request, p.end + 2);
    assert request[p.end..p.end + 4] == request[p.end..p.end + 2] + request[p.end + 2..p.end + 4];
    assert request[HEADER_LEN..p.end + 4] == request[HEADER_LEN..p.end] + request[p.end..p.end + 4];
  }

  lemma U16Split(b: seq<byte>, i: nat)
    requires i + 2 <= |b|
    ensures b[i..i + 2] == U16Bytes(U16At(b, i))
  {
  }

  /** A legal question standing after a query header is parsed as that question. */
  lemma QuestionParses(b: seq<byte>, ls: seq<Label>, qtype: u16, qclass: u16)
    requires HasHeader(b) && !Qr(b) && U16At(b, 4) == 1
    requires LegalName(ls) && At(b, HEADER_LEN, QuestionBytes(ls, qtype, qclass))
    ensures var end := HEADER_LEN + WireLen(ls);
      ParseQuery(b) == Ok(Query(Id(b), Opcode(b), Rd(b), Present(ls), Encode(ls), qtype, qclass, end + 4, Cd(b),
        FindOpt(b, end + 4, U16At(b, 6) as nat + U16At(b, 8) as nat + U16At(b, 10) as nat)))
    ensures QuestionLabels(b) == ls
  {
    hide FindOpt, Present, Encode, ParseName, At, U16At, U16Bytes;
    var end := HEADER_LEN + WireLen(ls);
    AtConcat(b, HEADER_LEN, Encode(ls), U16Bytes(qtype) + U16Bytes(qclass));
    AtConcat(b, end, U16Bytes(qtype), U16Bytes(qclass));
    AtU16(b, end, qtype);
    AtU16(b, end + 2, qclass);
    EncodingParses(b, HEADER_LEN, 1, ls);
    AtFits(b, end + 2, U16Bytes(qclass));
    AtIs(b, HEADER_LEN, Encode(ls));
  }

  lemma AtU16(b: seq<byte>, i: nat, x: u16)
    requires At(b, i, U16Bytes(x))
    ensures i + 2 <= |b| && U16At(b, i) == x
  {
    AtPoint(b, i, U16Bytes(x), 0);
    AtPoint(b, i, U16Bytes(x), 1);
  }

  // ---- the query sent upstream ----

  function UpstreamHeader(id: u16, cd: bool, arcount: byte): (h: seq<byte>)
    ensures |h| == HEADER_LEN
  {
    U16Bytes(id) + [1, Bit(cd, 0x10)] + [0, 1, 0, 0, 0, 0, 0, arcount]
  }

  /** A fresh id, RD, the client's CD, the question, and one self-built OPT iff the client sent one. */
  function BuildUpstreamQuery(id: u16, question: seq<byte>, cd: bool, edns: ClientEdns): (b: seq<byte>) {
    UpstreamHeader(id, cd, if edns.WithEdns? then 1 else 0) + question + UpstreamOpt(edns)
  }

  function UpstreamOpt(edns: ClientEdns): (b: seq<byte>) {
    match edns
    case NoEdns => []
    case WithEdns(size, dnssecOk) => OptBytes(ClampEdnsUdpSize(size), dnssecOk)
  }

  function Relayed(edns: ClientEdns): ClientEdns {
    match edns
    case NoEdns => NoEdns
    case WithEdns(size, dnssecOk) => WithEdns(ClampEdnsUdpSize(size), dnssecOk)
  }

  /**
   What goes upstream parses back to the client's own question, with RD set, the client's CD, the
   clamped payload size and its DO bit.
   */
  lemma UpstreamQueryParses(request: seq<byte>, id: u16)
    requires ParseQuery(request).Ok?
    ensures var q := ParseQuery(request).value;
      ParseQuery(BuildUpstreamQuery(id, QuestionOf(request), q.checkingDisabled, q.edns))
        == Ok(Query(id, 0, true, q.qname, q.qnameWire, q.qtype, q.qclass, q.questionEnd,
                    q.checkingDisabled, Relayed(q.edns)))
  {
    hide ParseQuery, FindOpt, Present, Encode, ParseName, QuestionBytes, At, OptBytes;
    var q, ls := ParseQuery(request).value, QuestionLabels(request);
    QueryMeaning(request);
    BuiltQueryParses(id, ls, q.qtype, q.qclass, q.checkingDisabled, q.edns);
  }

  lemma BuiltQueryParses(id: u16, ls: seq<Label>, qtype: u16, qclass: u16, cd: bool, edns: ClientEdns)
    requires LegalName(ls)
    ensures ParseQuery(BuildUpstreamQuery(id, QuestionBytes(ls, qtype, qclass), cd, edns))
         == Ok(Query(id, 0, true, Present(ls), Encode(ls), qtype, qclass, HEADER_LEN + WireLen(ls) + 4,
                     cd, Relayed(edns)))
  {
    hide BuildUpstreamQuery, ParseQuery, FindOpt, Encode, QuestionBytes, WireLen, Present, At, U16At, Qr, Id, Opcode,
      Rd, Cd;
    var question, arcount := QuestionBytes(ls, qtype, qclass), if edns.WithEdns? then 1 else 0;
    var b := BuildUpstreamQuery(id, question, cd, edns);
    UpstreamParts(id, question, cd, edns);
    HeaderOfUpstream(id, cd, arcount, b);
    QuestionLength(ls, qtype, qclass);
    QuestionParses(b, ls, qtype, qclass);
    UpstreamOptFound(b, HEADER_LEN + |question|, edns);
  }

  lemma QuestionLength(ls: seq<Label>, qtype: u16, qclass: u16)
    requires LegalLabels(ls)
    ensures |QuestionBytes(ls, qtype, qclass)| == WireLen(ls) + 4
  {
  }

  lemma UpstreamParts(id: u16, question: seq<byte>, cd: bool, edns: ClientEdns)
    ensures var b := BuildUpstreamQuery(id, question, cd, edns);
      && At(b, 0, UpstreamHeader(id, cd, if edns.WithEdns? then 1 else 0))
      && At(b, HEADER_LEN, question) && At(b, HEADER_LEN + |question|, UpstreamOpt(edns))
  {
    hide UpstreamOpt, UpstreamHeader;
    Between(UpstreamHeader(id, cd, if edns.WithEdns? then 1 else 0), question, UpstreamOpt(edns));
  }

  lemma UpstreamOptFound(b: seq<byte>, o: nat, edns: ClientEdns)
    requires At(b, o, UpstreamOpt(edns))
    ensures FindOpt(b, o, if edns.WithEdns? then 1 else 0) == Relayed(edns)
  {
    if edns.WithEdns? {
      hide FindOpt, OptBytes, At;
      OptIsFound(b, o, ClampEdnsUdpSize(edns.size), edns.dnssecOk);
    }
  }

  lemma Between(a: seq<byte>, x: seq<byte>, z: seq<byte>)
    ensures At(a + x + z, 0, a) && At(a + x + z, |a|, x) && At(a + x + z, |a| + |x|, z)
  {
    assert (a + x + z)[0..|a|] == a;
    assert (a + x + z)[|a|..|a| + |x|] == x;
    assert (a + x + z)[|a| + |x|..|a| + |x| + |z|] == z;
  }

  lemma HeaderOfUpstream(id: u16, cd: bool, arcount: byte, b: seq<byte>)
    requires At(b, 0, UpstreamHeader(id, cd, arcount))
    ensures HasHeader(b) && !Qr(b) && Id(b) == id && Opcode(b) == 0 && Rd(b) && Cd(b) == cd
    ensures U16At(b, 4) == 1 && U16At(b, 6) == 0 && U16At(b, 8) == 0 && U16At(b, 10) == arcount as nat
  {
    var h := UpstreamHeader(id, cd, arcount);
    assert forall i :: 0 <= i < HEADER_LEN ==> b[i] == b[0..HEADER_LEN][i] == h[i];
    assert h[2] == 1 && h[3] == Bit(cd, 0x10) && h[4] == 0 && h[5] == 1 && h[10] == 0 && h[11] == arcount;
    assert U16At(h, 0) == id;
  }

  lemma OptIsFound(b: seq<byte>, o: nat, size: u16, dnssecOk: bool)
    requires At(b, o, OptBytes(size, dnssecOk))
    ensures FindOpt(b, o, 1) == WithEdns(size, dnssecOk)
  {
    var x := OptBytes(size, dnssecOk);
    OptBytesIsOpt(size, dnssecOk);
    assert x[0..|x|] == x;
    RecordMoves(x, 0, Span(11, true), b, o);
    AtPoint(b, o, x, 0); AtPoint(b, o, x, 3); AtPoint(b, o, x, 4); AtPoint(b, o, x, 7);
    assert x[0] == 0 && U16At(x, 3) == size && x[7] == if dnssecOk then 0x80 else 0;
  }

  // ---- which queries parse, and which OPT counts ----

  /** The requester's own OPT is found behind any records that are none; the first one counts. */
  lemma {:induction false} FirstOptIsFound(b: seq<byte>, o: nat, rs: seq<Rec>, size: u16, dnssecOk: bool, more: nat)
    requires AllRecords(rs) && (forall r :: r in rs ==> !r.isOpt)
    requires At(b, o, RecBytes(rs) + OptBytes(size, dnssecOk))
    ensures FindOpt(b, o, |rs| + 1 + more) == WithEdns(size, dnssecOk)
    decreases |rs|
  {
    hide OptBytes, RecBytes, At;
    if rs == [] {
      NoOctets();
      assert [] + OptBytes(size, dnssecOk) == OptBytes(size, dnssecOk);
      OptIsFound(b, o, size, dnssecOk);
    } else {
      var r, rest := RecUncons(rs);
      RecCons(r, rest);
      Assoc(r.bytes, RecBytes(rest), OptBytes(size, dnssecOk));
      AtConcat(b, o, r.bytes, RecBytes(rest) + OptBytes(size, dnssecOk));
      WholeRecord(r);
      RecordStands(r, b, o);
      FirstOptIsFound(b, o + |r.bytes|, rest, size, dnssecOk, more);
    }
  }

  /** Records that hold no OPT give none. */
  lemma {:induction false} NoOptIsNone(b: seq<byte>, o: nat, rs: seq<Rec>)
    requires AllRecords(rs) && (forall r :: r in rs ==> !r.isOpt) && At(b, o, RecBytes(rs))
    ensures FindOpt(b, o, |rs|) == NoEdns
    decreases |rs|
  {
    hide RecBytes, At;
    if rs != [] {
      var r, rest := RecUncons(rs);
      RecCons(r, rest);
      AtConcat(b, o, r.bytes, RecBytes(rest));
      WholeRecord(r);
      RecordStands(r, b, o);
      NoOptIsNone(b, o + |r.bytes|, rest);
    }
  }

  lemma NoOctets()
    ensures RecBytes([]) == []
  {
  }

  lemma WholeRecord(r: Rec)
    ensures r.bytes[0..|r.bytes|] == r.bytes
  {
  }

  lemma RecordStands(r: Rec, b: seq<byte>, o: nat)
    requires IsRecord(r) && At(b, o, r.bytes)
    ensures RecordSpan(b, o) == Some(Span(o + |r.bytes|, r.isOpt))
  {
    hide RecordSpan, At;
    WholeRecord(r);
    RecordMoves(r.bytes, 0, Span(|r.bytes|, r.isOpt), b, o);
  }

  /** Exactly which messages parse as queries, and why others do not, in the order of the checks. */
  lemma ParseQueryExactly(b: seq<byte>)
    ensures |b| < 12 ==> ParseQuery(b) == Err(Truncated)
    ensures |b| >= 12 && Qr(b) ==> ParseQuery(b) == Err(NotAQuery)
    ensures |b| >= 12 && !Qr(b) && U16At(b, 4) != 1 ==> ParseQuery(b) == Err(BadQuestionCount(U16At(b, 4)))
    ensures |b| >= 12 && !Qr(b) && U16At(b, 4) == 1 ==>
      match ParseName(b, 12, 1)
      case Err(e) => ParseQuery(b) == Err(e)
      case Ok(p) => if p.end + 4 > |b| then ParseQuery(b) == Err(Truncated) else ParseQuery(b).Ok?
  {
    hide Present, FindOpt, ParseName;
  }
}

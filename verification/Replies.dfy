/**
 Replies built locally, and the one egress point every reply passes: inherited OPT records stripped,
 one OPT added iff this requester sent one, and a TC rebuild for answers that do not fit.
 */
module Replies {
  import opened Bytes
  import opened Names
  import opened Header
  import opened Records
  import opened Edns
  import opened Queries
  import opened Responses

  /** What a client may rely on in any reply to its request. */
  ghost predicate Conforms(request: seq<byte>, reply: seq<byte>) {
    && HasHeader(request) && HasHeader(reply)
    && Id(reply) == Id(request) && Qr(reply) && !Ad(reply)
    && Rd(reply) == Rd(request) && Cd(reply) == Cd(request)
  }

  /** A reply built here: its opcode, flags and rcode, the echoed question as its only one, and the answer count. */
  ghost predicate LocalReply(request: seq<byte>, reply: seq<byte>, rcode: byte, aa: bool, tc: bool, answers: nat) {
    && Conforms(request, reply) && Opcode(reply) == Opcode(request)
    && Rcode(reply) == rcode && Aa(reply) == aa && Tc(reply) == tc
    && U16At(reply, 4) == (if ParseQuery(request).Ok? then 1 else 0)
    && U16At(reply, 6) == answers && U16At(reply, 8) == 0 && U16At(reply, 10) == 0
    && EchoedQuestion(request) <= reply[HEADER_LEN..]
  }

  // ---- builders ----

  function EchoedQuestion(request: seq<byte>): (q: seq<byte>) {
    if ParseQuery(request).Ok? then QuestionOf(request) else []
  }

  function LocalHeader(request: seq<byte>, rcode: byte, aa: bool, tc: bool, ancount: byte): (h: seq<byte>)
    requires HasHeader(request)
    ensures |h| == HEADER_LEN
  {
    [request[0], request[1], ResponseFlags2(request, aa, tc), ResponseFlags3(request, rcode),
     0, Bit(ParseQuery(request).Ok?, 1), 0, ancount, 0, 0, 0, 0]
  }

  function BuildErrorResponse(request: seq<byte>, rcode: byte, aa: bool): (r: Option<seq<byte>>) {
    if !HasHeader(request) then None
    else Some(LocalHeader(request, rcode, aa, false, 0) + EchoedQuestion(request))
  }

  function BuildTruncatedResponse(request: seq<byte>, rcode: byte): (r: Option<seq<byte>>) {
    if !HasHeader(request) then None
    else Some(LocalHeader(request, rcode, false, true, 0) + EchoedQuestion(request))
  }

  function ZeroRdata(qtype: u16): (r: seq<byte>)
    requires qtype == TYPE_A || qtype == TYPE_AAAA
    ensures |r| <= 16
  {
    seq(if qtype == TYPE_A then 4 else 16, _ => 0)
  }

  function ZeroAnswer(qtype: u16, qclass: u16, ttl: u32): (r: seq<byte>)
    requires qtype == TYPE_A || qtype == TYPE_AAAA
    ensures 12 <= |r| <= 28
  {
    [0xC0, 0x0C] + U16Bytes(qtype) + U16Bytes(qclass) + U32Bytes(ttl) + U16Bytes(|ZeroRdata(qtype)|) + ZeroRdata(qtype)
  }

  /** The block and canary answer: 0.0.0.0 or `::` for address queries, NXDOMAIN otherwise, always AA. */
  function BuildZeroIpResponse(request: seq<byte>, ttl: u32): (r: Option<seq<byte>>) {
    match ParseQuery(request)
    case Err(_) => None
    case Ok(q) =>
      if q.qtype != TYPE_A && q.qtype != TYPE_AAAA then BuildErrorResponse(request, RCODE_NXDOMAIN, true)
      else
        Some(LocalHeader(request, RCODE_NOERROR, true, false, 1) + QuestionOf(request)
             + ZeroAnswer(q.qtype, q.qclass, ttl))
  }

  // ---- what the builders guarantee ----

  lemma LocalHeaderConforms(request: seq<byte>, rcode: byte, aa: bool, tc: bool, ancount: byte, reply: seq<byte>)
    requires HasHeader(request) && rcode < 16
    requires At(reply, 0, LocalHeader(request, rcode, aa, tc, ancount))
    ensures HasHeader(reply) && Conforms(request, reply)
    ensures Rcode(reply) == rcode && Aa(reply) == aa && Tc(reply) == tc && Opcode(reply) == Opcode(request)
    ensures U16At(reply, 4) == (if ParseQuery(request).Ok? then 1 else 0)
    ensures U16At(reply, 6) == ancount as nat && U16At(reply, 8) == 0 && U16At(reply, 10) == 0
  {
    var h := LocalHeader(request, rcode, aa, tc, ancount);
    assert forall i :: 0 <= i < HEADER_LEN ==> reply[i] == reply[0..HEADER_LEN][i] == h[i];
    assert h[0] == request[0] && h[1] == request[1];
    assert h[2] == ResponseFlags2(request, aa, tc) && h[3] == ResponseFlags3(request, rcode);
    assert h[4] == 0 && h[5] == Bit(ParseQuery(request).Ok?, 1) && h[6] == 0 && h[7] == ancount;
    hide LocalHeader, At, ResponseFlags2, ResponseFlags3, ParseQuery;
    ResponseFlagsMeaning(request, reply, aa, tc, rcode);
  }

  /** A local reply ends with its question or single answer and has an empty additional section. */
  ghost predicate PlainLayout(reply: seq<byte>) {
    LayoutOf(reply) == Some(Layout(|reply|, [], |reply|))
  }

  lemma EchoEnds(request: seq<byte>, reply: seq<byte>)
    requires At(reply, HEADER_LEN, EchoedQuestion(request))
    ensures QuestionsEnd(reply, HEADER_LEN, if ParseQuery(request).Ok? then 1 else 0)
         == Some(HEADER_LEN + |EchoedQuestion(request)|)
    ensures |EchoedQuestion(request)| <= MAX_QUESTION
  {
    if ParseQuery(request).Ok? {
      hide ParseQuery, ParseName, Encode, At, SkipName;
      QueryMeaning(request);
      var q, ls := ParseQuery(request).value, QuestionLabels(request);
      AtConcat(reply, HEADER_LEN, Encode(ls), U16Bytes(q.qtype) + U16Bytes(q.qclass));
      EncodingParses(reply, HEADER_LEN, 1, ls);
      ParsedNameSkips(reply, HEADER_LEN, 1);
      AtFits(reply, HEADER_LEN, EchoedQuestion(request));
      OneQuestion(reply, HEADER_LEN + WireLen(ls));
    }
  }

  lemma EchoReplyShape(request: seq<byte>, rcode: byte, aa: bool, tc: bool)
    requires HasHeader(request) && rcode < 16
    ensures var reply := LocalHeader(request, rcode, aa, tc, 0) + EchoedQuestion(request);
      && LocalReply(request, reply, rcode, aa, tc, 0) && reply[HEADER_LEN..] == EchoedQuestion(request)
      && |reply| <= HEADER_LEN + MAX_QUESTION && PlainLayout(reply)
  {
    hide LocalHeader, EchoedQuestion, At, QuestionsEnd, Conforms, Rcode, Aa, Tc, Opcode, U16At, ParseQuery;
    var h, q := LocalHeader(request, rcode, aa, tc, 0), EchoedQuestion(request);
    assert h + q == h + q + [];
    Between(h, q, []);
    LocalHeaderConforms(request, rcode, aa, tc, 0, h + q);
    EchoEnds(request, h + q);
  }

  lemma LocalReplyFacts(request: seq<byte>, reply: seq<byte>, rcode: byte, aa: bool, tc: bool, answers: nat)
    requires LocalReply(request, reply, rcode, aa, tc, answers)
    ensures Conforms(request, reply) && Rcode(reply) == rcode && Aa(reply) == aa && Tc(reply) == tc
  {
  }

  /**
   Every error reply echoes the request's id, opcode, RD, CD and parsed question, carries the rcode asked for, and has
   no records.
   */
  lemma ErrorResponseShape(request: seq<byte>, rcode: byte, aa: bool)
    requires rcode < 16
    ensures BuildErrorResponse(request, rcode, aa).Some? <==> HasHeader(request)
    ensures HasHeader(request) ==>
      var reply := BuildErrorResponse(request, rcode, aa).value;
      && LocalReply(request, reply, rcode, aa, false, 0) && reply[HEADER_LEN..] == EchoedQuestion(request)
      && Conforms(request, reply) && Rcode(reply) == rcode && Aa(reply) == aa && !Tc(reply)
      && |reply| <= HEADER_LEN + MAX_QUESTION && PlainLayout(reply)
  {
    hide LocalHeader, EchoedQuestion, Conforms, Rcode, Aa, Tc, PlainLayout, LocalReply;
    if HasHeader(request) {
      EchoReplyShape(request, rcode, aa, false);
      LocalReplyFacts(request, BuildErrorResponse(request, rcode, aa).value, rcode, aa, false, 0);
    }
  }

  /** The same for a reply that only says the answer did not fit. */
  lemma TruncatedResponseShape(request: seq<byte>, rcode: byte)
    requires rcode < 16
    ensures BuildTruncatedResponse(request, rcode).Some? <==> HasHeader(request)
    ensures HasHeader(request) ==>
      var reply := BuildTruncatedResponse(request, rcode).value;
      && LocalReply(request, reply, rcode, false, true, 0) && reply[HEADER_LEN..] == EchoedQuestion(request)
      && Conforms(request, reply) && Rcode(reply) == rcode && Tc(reply)
      && |reply| <= HEADER_LEN + MAX_QUESTION && PlainLayout(reply)
  {
    hide LocalHeader, EchoedQuestion, Conforms, Rcode, Aa, Tc, PlainLayout, LocalReply;
    if HasHeader(request) {
      EchoReplyShape(request, rcode, false, true);
      LocalReplyFacts(request, BuildTruncatedResponse(request, rcode).value, rcode, false, true, 0);
    }
  }

  lemma ZeroAnswerIsRecord(qtype: u16, qclass: u16, ttl: u32)
    requires qtype == TYPE_A || qtype == TYPE_AAAA
    ensures IsRecord(Rec(ZeroAnswer(qtype, qclass, ttl), false))
  {
    var x := ZeroAnswer(qtype, qclass, ttl);
    var n := |ZeroRdata(qtype)|;
    assert x[0] == 0xC0 && SkipName(x, 0) == Some(2);
    assert x[2..4] == U16Bytes(qtype) && x[10..12] == U16Bytes(n);
    AtU16(x, 2, qtype);
    AtU16(x, 10, n);
  }

  /** The one answer of the sinkhole: a pointer to the question, its type and class, the TTL, and the null address. */
  ghost predicate NullAddress(q: Query, ttl: u32, bytes: seq<byte>) {
    var n := if q.qtype == TYPE_A then 4 else 16;
    && |bytes| == 12 + n && bytes[..2] == [0xC0, 0x0C]
    && U16At(bytes, 2) == q.qtype && U16At(bytes, 4) == q.qclass && U32At(bytes, 6) == ttl && U16At(bytes, 10) == n
    && forall i :: 12 <= i < 12 + n ==> bytes[i] == 0
  }

  lemma ZeroAnswerIsNull(q: Query, ttl: u32)
    requires q.qtype == TYPE_A || q.qtype == TYPE_AAAA
    ensures NullAddress(q, ttl, ZeroAnswer(q.qtype, q.qclass, ttl))
  {
    var x := ZeroAnswer(q.qtype, q.qclass, ttl);
    assert x[2..4] == U16Bytes(q.qtype) && x[4..6] == U16Bytes(q.qclass) && x[6..10] == U32Bytes(ttl);
    assert x[6..8] == U16Bytes(ttl / 0x1_0000) && x[8..10] == U16Bytes(ttl % 0x1_0000);
    assert x[10..12] == U16Bytes(|ZeroRdata(q.qtype)|);
    AtU16(x, 2, q.qtype);
    AtU16(x, 4, q.qclass);
    AtU16(x, 6, ttl / 0x1_0000);
    AtU16(x, 8, ttl % 0x1_0000);
    AtU16(x, 10, |ZeroRdata(q.qtype)|);
  }

  /**
   The sinkhole reply: authoritative, echoing the question; for an address query NOERROR with exactly one answer
   record, the null address with the TTL given, and for any other NXDOMAIN with no record at all.
   */
  lemma ZeroIpResponseShape(request: seq<byte>, ttl: u32)
    ensures BuildZeroIpResponse(request, ttl).Some? <==> ParseQuery(request).Ok?
    ensures ParseQuery(request).Ok? ==>
      var q, reply := ParseQuery(request).value, BuildZeroIpResponse(request, ttl).value;
      && Conforms(request, reply) && Aa(reply) && !Tc(reply)
      && Rcode(reply) == (if q.qtype == TYPE_A || q.qtype == TYPE_AAAA then RCODE_NOERROR else RCODE_NXDOMAIN)
      && |reply| <= HEADER_LEN + MAX_QUESTION + 28 && PlainLayout(reply)
      && if q.qtype == TYPE_A || q.qtype == TYPE_AAAA then
           && LocalReply(request, reply, RCODE_NOERROR, true, false, 1)
           && (exists answer: seq<byte> ::
                && Walk(reply, HEADER_LEN + |QuestionOf(request)|, 1) == Some(Walked([Rec(answer, false)], |reply|))
                && NullAddress(q, ttl, answer))
         else LocalReply(request, reply, RCODE_NXDOMAIN, true, false, 0) && reply[HEADER_LEN..] == QuestionOf(request)
  {
    hide LocalHeader, QuestionOf, Conforms, Rcode, Aa, Tc, PlainLayout, ParseQuery, BuildErrorResponse, ZeroAnswer,
      LocalReply, NullAddress, Walk;
    if ParseQuery(request).Ok? {
      HeaderOfParsed(request);
      var q := ParseQuery(request).value;
      if q.qtype == TYPE_A || q.qtype == TYPE_AAAA {
        ZeroAnswerShape(request, q, ttl);
        ZeroAnswerIsNull(q, ttl);
        LocalReplyFacts(request, BuildZeroIpResponse(request, ttl).value, RCODE_NOERROR, true, false, 1);
      } else {
        ErrorResponseShape(request, RCODE_NXDOMAIN, true);
      }
    }
  }

  lemma HeaderOfParsed(request: seq<byte>)
    requires ParseQuery(request).Ok?
    ensures HasHeader(request) && EchoedQuestion(request) == QuestionOf(request)
  {
  }

  lemma ZeroAnswerShape(request: seq<byte>, q: Query, ttl: u32)
    requires HasHeader(request) && ParseQuery(request) == Ok(q) && (q.qtype == TYPE_A || q.qtype == TYPE_AAAA)
    ensures var reply := LocalHeader(request, RCODE_NOERROR, true, false, 1) + QuestionOf(request)
                         + ZeroAnswer(q.qtype, q.qclass, ttl);
      && LocalReply(request, reply, RCODE_NOERROR, true, false, 1)
      && |reply| <= HEADER_LEN + MAX_QUESTION + 28 && PlainLayout(reply)
      && Walk(reply, HEADER_LEN + |QuestionOf(request)|, 1)
         == Some(Walked([Rec(ZeroAnswer(q.qtype, q.qclass, ttl), false)], |reply|))
  {
    hide LocalHeader, QuestionOf, At, QuestionsEnd, Conforms, Rcode, Aa, Tc, Opcode, U16At, ParseQuery, ZeroAnswer,
      EchoedQuestion;
    var h, question, answer := LocalHeader(request, RCODE_NOERROR, true, false, 1), QuestionOf(request),
      ZeroAnswer(q.qtype, q.qclass, ttl);
    var reply := h + question + answer;
    HeaderOfParsed(request);
    Between(h, question, answer);
    LocalHeaderConforms(request, RCODE_NOERROR, true, false, 1, reply);
    EchoEnds(request, reply);
    assert reply[HEADER_LEN..] == question + answer;
    OneAnswerLayout(reply, HEADER_LEN + |question|, Rec(answer, false), q, ttl);
  }

  lemma OneAnswerLayout(reply: seq<byte>, o: nat, r: Rec, q: Query, ttl: u32)
    requires HasHeader(reply) && o + |r.bytes| == |reply| && At(reply, o, r.bytes)
    requires (q.qtype == TYPE_A || q.qtype == TYPE_AAAA) && r == Rec(ZeroAnswer(q.qtype, q.qclass, ttl), false)
    requires QuestionsEnd(reply, HEADER_LEN, U16At(reply, 4)) == Some(o)
    requires U16At(reply, 6) == 1 && U16At(reply, 8) == 0 && U16At(reply, 10) == 0
    ensures PlainLayout(reply) && Walk(reply, o, 1) == Some(Walked([r], |reply|))
  {
    hide QuestionsEnd, U16At, At, ZeroAnswer, IsRecord;
    ZeroAnswerIsRecord(q.qtype, q.qclass, ttl);
    OneRecord(r);
    assert RecBytes([r]) == r.bytes by { RecBytesSnoc([], r); assert [] + [r] == [r] && [] + r.bytes == r.bytes; }
    TilesWalk(reply, o, [r]);
  }

  // ---- normalize_client_edns ----

  function NormalizeClientEdns(request: seq<byte>, resp: seq<byte>): (r: seq<byte>) {
    match ParseQuery(request)
    case Err(_) => Strip(resp)
    case Ok(q) =>
      match q.edns
      case NoEdns => Strip(resp)
      case WithEdns(size, dnssecOk) => AppendOpt(Strip(resp), ClampEdnsUdpSize(size), dnssecOk)
  }

  function ClientEdnsOf(request: seq<byte>): ClientEdns {
    match ParseQuery(request) case Err(_) => NoEdns case Ok(q) => q.edns
  }

  lemma {:induction false} KeepShrinks(rs: seq<Rec>)
    ensures |RecBytes(Keep(rs))| <= |RecBytes(rs)|
    decreases |rs|
  {
    if rs != [] {
      KeepShrinks(rs[1..]);
      hide Keep, RecBytes;
      var r, rest := RecUncons(rs);
      KeepCons(r, rest);
      RecCons(r, rest);
      RecCons(r, Keep(rest));
    }
  }

  lemma StripShrinks(b: seq<byte>)
    ensures |Strip(b)| <= |b| && (|b| >= 4 ==> |Strip(b)| >= 4 && Strip(b)[..4] == b[..4])
    ensures HasHeader(b) ==> HasHeader(Strip(b))
  {
    hide Strip, LayoutOf, RecBytes, Keep;
    if LayoutOf(b).None? {
      StripUnwalkable(b);
    } else {
      var l := LayoutOf(b).value;
      LayoutShape(b, l);
      StripLayout(b, l);
      KeepShrinks(l.records);
    }
    if |b| >= 4 { StripCommutesWithHeadEdit(b, b); }
  }

  lemma HeaderFromPrefix(b: seq<byte>, c: seq<byte>)
    requires HasHeader(b) && HasHeader(c) && c[..4] == b[..4]
    ensures Id(c) == Id(b) && Qr(c) == Qr(b) && Rd(c) == Rd(b) && Cd(c) == Cd(b) && Ad(c) == Ad(b)
    ensures Rcode(c) == Rcode(b) && Tc(c) == Tc(b) && Aa(c) == Aa(b)
  {
    assert forall i :: 0 <= i < 4 ==> c[i] == c[..4][i] == b[..4][i] == b[i];
  }

  lemma NormalizeKeepsHeader(request: seq<byte>, resp: seq<byte>)
    requires HasHeader(resp)
    ensures var r := NormalizeClientEdns(request, resp);
      && HasHeader(r) && r[..4] == resp[..4] && |r| <= |resp| + 11
  {
    hide Strip, ParseQuery;
    StripShrinks(resp);
  }

  /** Egress normalization keeps a conforming reply conforming, with its rcode, and adds at most one OPT. */
  lemma NormalizeConforms(request: seq<byte>, resp: seq<byte>)
    requires Conforms(request, resp)
    ensures var r := NormalizeClientEdns(request, resp);
      && Conforms(request, r) && Rcode(r) == Rcode(resp) && Tc(r) == Tc(resp) && |r| <= |resp| + 11
  {
    hide NormalizeClientEdns, Id, Qr, Rd, Cd, Ad, Rcode, Tc, Aa;
    NormalizeKeepsHeader(request, resp);
    HeaderFromPrefix(resp, NormalizeClientEdns(request, resp));
  }

  /**
   OPT is decided by the requester: whatever OPT records a walkable answer brought along are gone, its
   other additional records are kept, and exactly one OPT is there, with the requester's clamped size
   and DO bit, iff the requester sent one.
   */
  lemma EgressOpts(request: seq<byte>, resp: seq<byte>, l: Layout)
    requires LayoutOf(resp) == Some(l) && l.end == |resp| <= 0xFFFF
    ensures LayoutOf(NormalizeClientEdns(request, resp)).Some?
    ensures var out := LayoutOf(NormalizeClientEdns(request, resp)).value;
      && Keep(out.records) == Keep(l.records) && out.end == |NormalizeClientEdns(request, resp)|
      && OptsOf(out.records) == match ClientEdnsOf(request)
           case NoEdns => []
           case WithEdns(size, dnssecOk) => [Rec(OptBytes(ClampEdnsUdpSize(size), dnssecOk), true)]
  {
    hide LayoutOf, Strip, RecBytes, Keep, OptsOf, ParseQuery, OptBytes, AllRecords, AppendOpt;
    LayoutShape(resp, l);
    StripLayout(resp, l);
    KeepTwice(l.records);
    KeepIsFilter(l.records);
    var stripped := LayoutOf(Strip(resp)).value;
    match ClientEdnsOf(request) {
      case NoEdns =>
      case WithEdns(size, dnssecOk) =>
        AppendLayout(Strip(resp), stripped, ClampEdnsUdpSize(size), dnssecOk);
        OptAppended(stripped.records, Rec(OptBytes(ClampEdnsUdpSize(size), dnssecOk), true));
        AppendGrows(Strip(resp), stripped, ClampEdnsUdpSize(size), dnssecOk);
    }
  }

  /**
   Exactly when a requester with EDNS gets its OPT, for any message a transport can carry, walkable or not: unless the
   ARCOUNT field of the answer is 65535, its own OPT ends the reply; otherwise the answer goes out as it came.
   */
  lemma EgressExactly(request: seq<byte>, b: seq<byte>)
    requires HasHeader(b) && |b| <= 0xFFFF && ClientEdnsOf(request).WithEdns?
    ensures var r, edns := NormalizeClientEdns(request, b), ClientEdnsOf(request);
      if U16At(b, 10) == 0xFFFF then r == b
      else
        && |r| == |Strip(b)| + 11
        && r[|Strip(b)|..] == OptBytes(ClampEdnsUdpSize(edns.size), edns.dnssecOk)
  {
    hide LayoutOf, Strip, RecBytes, Keep, OptsOf, OptBytes, AllRecords, ParseQuery, U16At;
    StripShrinks(b);
    StripCount(b);
    var edns := ClientEdnsOf(request);
    if U16At(b, 10) != 0xFFFF { OptAtEnd(Strip(b), ClampEdnsUdpSize(edns.size), edns.dnssecOk); }
  }

  /** Stripping never brings a count to 65535, nor keeps one on a message that can be walked. */
  lemma StripCount(b: seq<byte>)
    requires HasHeader(b) && |b| <= 0xFFFF
    ensures HasHeader(Strip(b)) && (U16At(Strip(b), 10) == 0xFFFF <==> U16At(b, 10) == 0xFFFF)
    ensures U16At(b, 10) == 0xFFFF ==> Strip(b) == b
  {
    hide Strip, LayoutOf, RecBytes, AllRecords, Keep, OptsOf, U16At, Same, At;
    StripShrinks(b);
    if LayoutOf(b).None? {
      StripUnwalkable(b);
    } else {
      var l := LayoutOf(b).value;
      LayoutShape(b, l);
      StripKeepsTheRest(b, l);
      KeepIsFilter(l.records);
    }
  }

  lemma OptAtEnd(b: seq<byte>, udpSize: u16, dnssecOk: bool)
    requires HasHeader(b) && U16At(b, 10) != 0xFFFF
    ensures var r := AppendOpt(b, udpSize, dnssecOk);
      |r| == |b| + 11 && r[|b|..] == OptBytes(udpSize, dnssecOk)
  {
    hide OptBytes;
  }

  /** An empty answer to the request's question, with id `id`, that declares 65535 additional records. */
  function OverCounted(request: seq<byte>, id: u16): (b: seq<byte>)
    requires ParseQuery(request).Ok?
  {
    U16Bytes(id) + [0x80, 0, 0, 1, 0, 0, 0, 0, 0xFF, 0xFF] + QuestionOf(request)
  }

  /** Every query with EDNS has an answer that passes validation and reaches the client without any OPT. */
  lemma OverCountedLosesOpt(request: seq<byte>, id: u16)
    requires ParseQuery(request).Ok? && ParseQuery(request).value.edns.WithEdns?
    ensures var b := OverCounted(request, id);
      && ValidateResponse(b, id, QuestionOf(request)).Some? && |b| <= HEADER_LEN + MAX_QUESTION
      && NormalizeClientEdns(request, b) == b
  {
    hide ParseQuery, ParseName, Encode, NormalizeClientEdns, OverCounted, ValidateResponse, QuestionOf;
    QueryMeaning(request);
    OverCountedHeader(request, id);
    EmptyAnswerValidates(OverCounted(request, id), id, QuestionOf(request));
    EgressExactly(request, OverCounted(request, id));
  }

  lemma OverCountedHeader(request: seq<byte>, id: u16)
    requires ParseQuery(request).Ok?
    ensures var b := OverCounted(request, id);
      && HasHeader(b) && Id(b) == id && Qr(b) && U16At(b, 4) == 1 && U16At(b, 6) == 0 && U16At(b, 10) == 0xFFFF
      && b[HEADER_LEN..] == QuestionOf(request) && |b| == HEADER_LEN + |QuestionOf(request)|
  {
    hide ParseQuery, QuestionOf;
    var b := OverCounted(request, id);
    assert b[0] == U16Bytes(id)[0] && b[1] == U16Bytes(id)[1];
    assert b[2] == 0x80 && b[4] == 0 && b[5] == 1 && b[6] == 0 && b[7] == 0 && b[10] == 0xFF && b[11] == 0xFF;
  }

  lemma EmptyAnswerValidates(b: seq<byte>, id: u16, question: seq<byte>)
    requires HasHeader(b) && Id(b) == id && Qr(b) && U16At(b, 4) == 1 && U16At(b, 6) == 0
    requires |question| >= 4 && b[HEADER_LEN..] == question
    ensures ValidateResponse(b, id, question).Some?
  {
    hide U16At, Id, Qr;
    var n := |question| - 4;
    assert b[HEADER_LEN..HEADER_LEN + n] == question[..n] && b[HEADER_LEN + n..HEADER_LEN + n + 4] == question[n..];
  }

  lemma OptAppended(rs: seq<Rec>, opt: Rec)
    requires opt.isOpt && OptsOf(rs) == []
    ensures OptsOf(rs + [opt]) == [opt] && Keep(rs + [opt]) == Keep(rs)
  {
    OptsOfConcat(rs, [opt]);
    KeepConcat(rs, [opt]);
  }

  lemma AppendGrows(b: seq<byte>, l: Layout, udpSize: u16, dnssecOk: bool)
    requires LayoutOf(b) == Some(l) && |l.records| < 0xFFFF
    ensures |AppendOpt(b, udpSize, dnssecOk)| == |b| + 11
  {
    LayoutShape(b, l);
    hide LayoutOf;
  }

  // ---- truncate_for_client ----

  function TruncateForClient(request: seq<byte>, oversized: seq<byte>): (r: Option<seq<byte>>) {
    var rcode := match ResponseInfoOf(oversized) case None => RCODE_NOERROR case Some(info) => info.rcode;
    match BuildTruncatedResponse(request, rcode)
    case Some(t) => Some(NormalizeClientEdns(request, t))
    case None =>
      match BuildErrorResponse(request, RCODE_SERVFAIL, false)
      case None => None
      case Some(e) => Some(NormalizeClientEdns(request, e))
  }

  lemma InfoRcode(b: seq<byte>)
    requires ResponseInfoOf(b).Some?
    ensures HasHeader(b) && ResponseInfoOf(b).value.rcode == Rcode(b) < 16
  {
  }

  /** A TC rebuild fits every transport, keeps the rcode of a walkable answer, and conforms. */
  lemma TruncatedShape(request: seq<byte>, oversized: seq<byte>)
    ensures TruncateForClient(request, oversized).Some? <==> HasHeader(request)
    ensures HasHeader(request) ==>
      var t := TruncateForClient(request, oversized).value;
      && Conforms(request, t) && Tc(t) && |t| <= 282
      && Rcode(t) == if ResponseInfoOf(oversized).Some? then ResponseInfoOf(oversized).value.rcode else RCODE_NOERROR
  {
    hide ResponseInfoOf, BuildTruncatedResponse, BuildErrorResponse, NormalizeClientEdns, Conforms, Tc, Rcode,
      PlainLayout;
    if ResponseInfoOf(oversized).Some? { InfoRcode(oversized); }
    var rcode := if ResponseInfoOf(oversized).Some? then ResponseInfoOf(oversized).value.rcode else RCODE_NOERROR;
    assert rcode < 16;
    TruncatedResponseShape(request, rcode);
    ErrorResponseShape(request, RCODE_SERVFAIL, false);
    if HasHeader(request) {
      NormalizeConforms(request, BuildTruncatedResponse(request, rcode).value);
    }
  }
}

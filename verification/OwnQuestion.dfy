/** Which question a message answers, and what never changes it. */
module OwnQuestion {
  import opened Bytes
  import opened Names
  import opened Header
  import opened Records
  import opened Edns
  import opened Queries
  import opened Responses
  import opened Replies

  /** The one question of `b` is `ls`, `qtype`, `qclass`: labels up to ASCII case, type and class exactly. */
  ghost predicate AnswersQuestion(b: seq<byte>, ls: seq<Label>, qtype: u16, qclass: u16) {
    var end := HEADER_LEN + WireLen(ls);
    && HasHeader(b) && U16At(b, 4) == 1
    && ParseName(b, HEADER_LEN, 1).Ok? && ParseName(b, HEADER_LEN, 1).value.end == end
    && LowerLabels(ParseName(b, HEADER_LEN, 1).value.labels) == LowerLabels(ls)
    && end + 4 <= |b| && U16At(b, end) == qtype && U16At(b, end + 2) == qclass
  }

  /** A reply to a request that parses carries that request's own question. */
  ghost predicate CarriesQuestion(request: seq<byte>, reply: seq<byte>) {
    ParseQuery(request).Ok? ==>
      var q := ParseQuery(request).value;
      AnswersQuestion(reply, QuestionLabels(request), q.qtype, q.qclass)
  }

  lemma AnswersMoves(b: seq<byte>, c: seq<byte>, e: nat, ls: seq<Label>, qtype: u16, qclass: u16)
    requires AnswersQuestion(b, ls, qtype, qclass) && HEADER_LEN + WireLen(ls) + 4 <= e
    requires HasHeader(c) && U16At(c, 4) == 1 && Same(b, HEADER_LEN, e, c, HEADER_LEN)
    ensures AnswersQuestion(c, ls, qtype, qclass)
  {
    hide ParseName, LowerLabels, WireLen, At, U16At;
    var end := HEADER_LEN + WireLen(ls);
    SameFits(b, HEADER_LEN, e, c, HEADER_LEN);
    SamePart(b, HEADER_LEN, e, c, HEADER_LEN, end);
    ParseNameAtSpan(b, HEADER_LEN, ParseName(b, HEADER_LEN, 1).value, c, HEADER_LEN);
    SameU16(b, HEADER_LEN, e, c, HEADER_LEN, end);
    SameU16(b, HEADER_LEN, e, c, HEADER_LEN, end + 2);
  }

  lemma AnswerFits(b: seq<byte>, ls: seq<Label>, qtype: u16, qclass: u16)
    requires AnswersQuestion(b, ls, qtype, qclass)
    ensures HasHeader(b) && U16At(b, 4) == 1 && HEADER_LEN + WireLen(ls) + 4 <= |b|
  {
  }

  /** An accepted upstream answer answers the question it was validated for. */
  lemma ValidatedAnswers(b: seq<byte>, id: u16, ls: seq<Label>, qtype: u16, qclass: u16)
    requires LegalName(ls) && ValidateResponse(b, id, QuestionBytes(ls, qtype, qclass)).Some?
    ensures AnswersQuestion(b, ls, qtype, qclass)
  {
    hide QuestionBytes, ParseName, LowerLabels, WireLen, AnswerInfo;
    ValidatedEchoesQuestion(b, id, ls, qtype, qclass);
  }

  /** The header patch for a client keeps the question. */
  lemma ForClientAnswers(b: seq<byte>, ls: seq<Label>, qtype: u16, qclass: u16, id: u16, rd: bool, cd: bool)
    requires AnswersQuestion(b, ls, qtype, qclass)
    ensures AnswersQuestion(ForClient(b, id, rd, cd), ls, qtype, qclass)
  {
    hide ForClient, AnswersQuestion, U16At;
    AnswerFits(b, ls, qtype, qclass);
    ForClientMeaning(b, id, rd, cd);
    var r := ForClient(b, id, rd, cd);
    TailSame(b, r, HEADER_LEN, HEADER_LEN + WireLen(ls) + 4);
    TailU16(b, r, 4);
    AnswersMoves(b, r, HEADER_LEN + WireLen(ls) + 4, ls, qtype, qclass);
  }

  lemma QuestionEndsAt(b: seq<byte>, ls: seq<Label>, qtype: u16, qclass: u16)
    requires AnswersQuestion(b, ls, qtype, qclass)
    ensures QuestionsEnd(b, HEADER_LEN, U16At(b, 4)) == Some(HEADER_LEN + WireLen(ls) + 4)
  {
    hide ParseName, SkipName;
    ParsedNameSkips(b, HEADER_LEN, 1);
    OneQuestion(b, HEADER_LEN + WireLen(ls));
  }

  /** The additional section starts after the questions. */
  lemma AdditionalAfterQuestions(b: seq<byte>, l: Layout, q: nat)
    requires LayoutOf(b) == Some(l) && QuestionsEnd(b, HEADER_LEN, U16At(b, 4)) == Some(q)
    ensures q <= l.start
  {
    hide Walk, QuestionsEnd, U16At;
    LayoutShape(b, l);
    WalkEndsLater(b, q, U16At(b, 6) + U16At(b, 8));
  }

  /** Stripping OPT records keeps the question. */
  lemma StripAnswers(b: seq<byte>, ls: seq<Label>, qtype: u16, qclass: u16)
    requires AnswersQuestion(b, ls, qtype, qclass)
    ensures AnswersQuestion(Strip(b), ls, qtype, qclass)
  {
    hide Strip, AnswersQuestion, LayoutOf, RecBytes, Keep, U16At, QuestionsEnd, Same, At;
    AnswerFits(b, ls, qtype, qclass);
    if LayoutOf(b).None? {
      StripUnwalkable(b);
    } else {
      var l := LayoutOf(b).value;
      LayoutShape(b, l);
      QuestionEndsAt(b, ls, qtype, qclass);
      AdditionalAfterQuestions(b, l, HEADER_LEN + WireLen(ls) + 4);
      StripKeepsTheRest(b, l);
      StripShrinks(b);
      HeadPrefix(b, Strip(b));
      AnswersMoves(b, Strip(b), l.start, ls, qtype, qclass);
    }
  }

  lemma AppendAnswers(b: seq<byte>, ls: seq<Label>, qtype: u16, qclass: u16, udpSize: u16, dnssecOk: bool)
    requires AnswersQuestion(b, ls, qtype, qclass)
    ensures AnswersQuestion(AppendOpt(b, udpSize, dnssecOk), ls, qtype, qclass)
  {
    hide AnswersQuestion, U16At, OptBytes;
    AnswerFits(b, ls, qtype, qclass);
    var c := AppendOpt(b, udpSize, dnssecOk);
    if c != b {
      assert c[..10] == b[..10] && c[HEADER_LEN..|b|] == b[HEADER_LEN..|b|];
      HeadPrefix(b, c);
      AnswersMoves(b, c, |b|, ls, qtype, qclass);
    }
  }

  /** Nor does the egress change it, whoever asks. */
  lemma NormalizeAnswers(request: seq<byte>, b: seq<byte>, ls: seq<Label>, qtype: u16, qclass: u16)
    requires AnswersQuestion(b, ls, qtype, qclass)
    ensures AnswersQuestion(NormalizeClientEdns(request, b), ls, qtype, qclass)
  {
    hide AnswersQuestion, Strip, AppendOpt, ParseQuery;
    StripAnswers(b, ls, qtype, qclass);
    match ClientEdnsOf(request) {
      case NoEdns =>
      case WithEdns(size, dnssecOk) => AppendAnswers(Strip(b), ls, qtype, qclass, ClampEdnsUdpSize(size), dnssecOk);
    }
  }

  lemma NormalizeCarries(request: seq<byte>, b: seq<byte>)
    requires CarriesQuestion(request, b)
    ensures CarriesQuestion(request, NormalizeClientEdns(request, b))
  {
    hide AnswersQuestion, NormalizeClientEdns, ParseQuery;
    if ParseQuery(request).Ok? {
      var q := ParseQuery(request).value;
      NormalizeAnswers(request, b, QuestionLabels(request), q.qtype, q.qclass);
    }
  }

  /** A reply built here echoes the request's question octet for octet. */
  lemma LocalReplyCarries(request: seq<byte>, reply: seq<byte>, rcode: byte, aa: bool, tc: bool, answers: nat)
    requires LocalReply(request, reply, rcode, aa, tc, answers)
    ensures CarriesQuestion(request, reply)
  {
    hide ParseQuery, ParseName, Encode, U16At, U16Bytes, Opcode, Rcode, Aa, Tc, WireLen;
    if ParseQuery(request).Ok? {
      QueryMeaning(request);
      var q, ls := ParseQuery(request).value, QuestionLabels(request);
      EchoIsAt(reply, EchoedQuestion(request));
      QuestionStands(reply, ls, q.qtype, q.qclass);
    }
  }

  lemma EchoIsAt(reply: seq<byte>, question: seq<byte>)
    requires HasHeader(reply) && question <= reply[HEADER_LEN..]
    ensures At(reply, HEADER_LEN, question)
  {
    assert reply[HEADER_LEN..HEADER_LEN + |question|] == reply[HEADER_LEN..][..|question|];
  }

  lemma QuestionStands(b: seq<byte>, ls: seq<Label>, qtype: u16, qclass: u16)
    requires HasHeader(b) && U16At(b, 4) == 1 && LegalName(ls)
    requires At(b, HEADER_LEN, QuestionBytes(ls, qtype, qclass))
    ensures AnswersQuestion(b, ls, qtype, qclass)
  {
    hide Encode, ParseName, At, U16At, U16Bytes;
    var end := HEADER_LEN + WireLen(ls);
    AtConcat(b, HEADER_LEN, Encode(ls), U16Bytes(qtype) + U16Bytes(qclass));
    AtConcat(b, end, U16Bytes(qtype), U16Bytes(qclass));
    AtU16(b, end, qtype);
    AtU16(b, end + 2, qclass);
    AtFits(b, end + 2, U16Bytes(qclass));
    EncodingParses(b, HEADER_LEN, 1, ls);
  }

  /** A cut reply still carries the question. */
  lemma TruncatedCarries(request: seq<byte>, oversized: seq<byte>)
    requires TruncateForClient(request, oversized).Some?
    ensures CarriesQuestion(request, TruncateForClient(request, oversized).value)
  {
    hide ResponseInfoOf, BuildTruncatedResponse, BuildErrorResponse, NormalizeClientEdns, CarriesQuestion, LocalReply,
      PlainLayout;
    TruncatedShape(request, oversized);
    if ResponseInfoOf(oversized).Some? { InfoRcode(oversized); }
    var rcode := if ResponseInfoOf(oversized).Some? then ResponseInfoOf(oversized).value.rcode else RCODE_NOERROR;
    TruncatedResponseShape(request, rcode);
    var t := BuildTruncatedResponse(request, rcode).value;
    LocalReplyCarries(request, t, rcode, false, true, 0);
    NormalizeCarries(request, t);
  }

  // ---- which answers are accepted ----

  /** Label lists equal up to case have encodings equal up to case. */
  lemma {:induction false} EncodeFolds(a: seq<Label>, b: seq<Label>)
    requires LegalLabels(a) && LegalLabels(b) && LowerLabels(a) == LowerLabels(b)
    ensures Lower(Encode(a)) == Lower(Encode(b)) && WireLen(a) == WireLen(b)
    decreases |a|
  {
    assert |LowerLabels(a)| == |a| && |LowerLabels(b)| == |b|;
    if a != [] {
      var x, y := a[0], b[0];
      assert LowerLabels(a)[0] == Lower(x) && LowerLabels(b)[0] == Lower(y);
      assert LowerLabels(a)[1..] == LowerLabels(a[1..]) && LowerLabels(b)[1..] == LowerLabels(b[1..]);
      EncodeFolds(a[1..], b[1..]);
      LowerConcat([|x| as byte] + x, Encode(a[1..]));
      LowerConcat([|y| as byte] + y, Encode(b[1..]));
      LowerConcat([|x| as byte], x);
      LowerConcat([|y| as byte], y);
    }
  }

  lemma EchoFolds(b: seq<byte>, ls: seq<Label>, qtype: u16, qclass: u16)
    requires LegalName(ls) && AnswersQuestion(b, ls, qtype, qclass)
    ensures var n := WireLen(ls);
      && |Encode(ls)| == n && HEADER_LEN + n + 4 <= |b|
      && EqFold(b[HEADER_LEN..HEADER_LEN + n], Encode(ls))
      && b[HEADER_LEN + n..HEADER_LEN + n + 4] == U16Bytes(qtype) + U16Bytes(qclass)
  {
    hide ParseName, Encode, LowerLabels, WireLen;
    ParsedNameIsEncoding(b, HEADER_LEN, 1);
    var got, end := ParseName(b, HEADER_LEN, 1).value.labels, HEADER_LEN + WireLen(ls);
    EncodeFolds(got, ls);
    assert b[HEADER_LEN..end] == Encode(got);
    OctetsOf(b, end, qtype);
    OctetsOf(b, end + 2, qclass);
    assert b[end..end + 4] == b[end..end + 2] + b[end + 2..end + 4];
  }

  lemma OctetsOf(b: seq<byte>, o: nat, x: u16)
    requires o + 2 <= |b| && U16At(b, o) == x
    ensures b[o..o + 2] == U16Bytes(x)
  {
  }

  /**
   Exactly which upstream answers are accepted: responses with the expected id that can be walked and whose one
   question is the one asked, names compared up to ASCII case.
   */
  lemma ValidatedExactly(b: seq<byte>, id: u16, ls: seq<Label>, qtype: u16, qclass: u16)
    requires LegalName(ls)
    ensures ValidateResponse(b, id, QuestionBytes(ls, qtype, qclass)).Some? <==>
      && HasHeader(b) && Qr(b) && Id(b) == id
      && AnswersQuestion(b, ls, qtype, qclass) && ResponseInfoOf(b).Some?
  {
    hide AnswersQuestion, ResponseInfoOf, Encode, Qr, Id, AnswerInfo, WireLen;
    if ValidateResponse(b, id, QuestionBytes(ls, qtype, qclass)).Some? {
      ValidatedAnswers(b, id, ls, qtype, qclass);
      ValidatedEchoesQuestion(b, id, ls, qtype, qclass);
    }
    if HasHeader(b) && Qr(b) && Id(b) == id && AnswersQuestion(b, ls, qtype, qclass) && ResponseInfoOf(b).Some? {
      AnswerFits(b, ls, qtype, qclass);
      EchoFolds(b, ls, qtype, qclass);
      InfoAfterQuestion(b, ls, qtype, qclass);
      var question := QuestionBytes(ls, qtype, qclass);
      assert question[..|question| - 4] == Encode(ls);
      assert question[|question| - 4..] == U16Bytes(qtype) + U16Bytes(qclass);
    }
  }

  lemma InfoAfterQuestion(b: seq<byte>, ls: seq<Label>, qtype: u16, qclass: u16)
    requires AnswersQuestion(b, ls, qtype, qclass) && ResponseInfoOf(b).Some?
    ensures HEADER_LEN + WireLen(ls) + 4 <= |b|
    ensures AnswerInfo(b, HEADER_LEN + WireLen(ls) + 4, U16At(b, 6), Rcode(b)).Some?
  {
    hide AnswerInfo, ParseName;
    QuestionEndsAt(b, ls, qtype, qclass);
  }
}

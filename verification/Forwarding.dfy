/**
 Forwarding one query to one upstream: UDP first, TCP for a truncated answer, one retry without EDNS
 on FORMERR. The upstream is an arbitrary adversary: any datagrams, any byte stream, per exchange.
 */
module Forwarding {
  import opened Bytes
  import opened Names
  import opened Header
  import opened Queries
  import opened Responses

  const MAX_DATAGRAM := 4096

  /** Datagrams (or a socket error) received before the exchange deadline, in order; TCP octets likewise. */
  datatype Upstream = Upstream(
    udp: (nat, seq<byte>) -> seq<Option<seq<byte>>>,
    tcp: (nat, seq<byte>) -> seq<byte>)

  datatype Forwarded = Forwarded(bytes: seq<byte>, ednsStripped: bool)

  predicate OurDatagram(d: seq<byte>, expectedId: u16) { HasHeader(d) && Id(d) == expectedId }

  function Received(d: seq<byte>): (r: seq<byte>)
    ensures |r| <= MAX_DATAGRAM
  {
    if |d| > MAX_DATAGRAM then d[..MAX_DATAGRAM] else d
  }

  /** The first datagram with a header and our id; strays are skipped, an error or the deadline ends the wait. */
  function UdpAnswer(datagrams: seq<Option<seq<byte>>>, expectedId: u16): (r: Option<seq<byte>>)
    ensures r.Some? ==> OurDatagram(r.value, expectedId) && |r.value| <= MAX_DATAGRAM
  {
    if datagrams == [] || datagrams[0].None? then None
    else
      var d := Received(datagrams[0].value);
      if OurDatagram(d, expectedId) then Some(d) else UdpAnswer(datagrams[1..], expectedId)
  }

  /** A datagram, cut to the receive buffer, that has a header and the expected id. */
  ghost predicate IsOurs(d: seq<byte>, expectedId: u16) {
    12 <= |d| && Id(if |d| <= 4096 then d else d[..4096]) == expectedId
  }

  lemma {:induction false} StraysAreSkipped(
    strays: seq<Option<seq<byte>>>, rest: seq<Option<seq<byte>>>, expectedId: u16)
    requires forall d :: d in strays ==> d.Some? && !IsOurs(d.value, expectedId)
    ensures UdpAnswer(strays + rest, expectedId) == UdpAnswer(rest, expectedId)
    decreases |strays|
  {
    if strays == [] {
      assert strays + rest == rest;
    } else {
      StraysAreSkipped(strays[1..], rest, expectedId);
      assert (strays + rest)[1..] == strays[1..] + rest;
      assert strays[0] in strays;
      hide Id, UdpAnswer;
      StrayStep(strays[0].value, expectedId);
    }
  }

  lemma StrayStep(d: seq<byte>, expectedId: u16)
    ensures OurDatagram(Received(d), expectedId) <==> IsOurs(d, expectedId)
    ensures Received(d) == if |d| <= 4096 then d else d[..4096]
  {
    hide Id;
  }

  /** What is not ours is skipped; the first datagram that is ours is the answer; an error or the deadline ends it. */
  lemma UdpAnswerIsFirst(
    strays: seq<Option<seq<byte>>>, d: seq<byte>, rest: seq<Option<seq<byte>>>, expectedId: u16)
    requires forall d :: d in strays ==> d.Some? && !IsOurs(d.value, expectedId)
    ensures UdpAnswer(strays, expectedId).None? && UdpAnswer(strays + ([None] + rest), expectedId).None?
    ensures IsOurs(d, expectedId) ==>
      UdpAnswer(strays + ([Some(d)] + rest), expectedId) == Some(if |d| <= 4096 then d else d[..4096])
  {
    hide IsOurs, OurDatagram, Received;
    StrayStep(d, expectedId);
    StraysAreSkipped(strays, [], expectedId);
    assert strays + [] == strays;
    StraysAreSkipped(strays, [None] + rest, expectedId);
    StraysAreSkipped(strays, [Some(d)] + rest, expectedId);
  }

  method UdpExchange(datagrams: seq<Option<seq<byte>>>, expectedId: u16) returns (r: Option<seq<byte>>)
    ensures r == UdpAnswer(datagrams, expectedId)
  {
    var i := 0;
    assert datagrams[0..] == datagrams;
    while i < |datagrams|
      invariant 0 <= i <= |datagrams| && UdpAnswer(datagrams, expectedId) == UdpAnswer(datagrams[i..], expectedId)
    {
      assert datagrams[i..][1..] == datagrams[i + 1..];
      if datagrams[i].None? { return None; }
      var d := Received(datagrams[i].value);
      if OurDatagram(d, expectedId) { return Some(d); }
      i := i + 1;
    }
    return None;
  }

  /** One length-framed message from the octets that arrived in time. */
  function TcpAnswer(stream: seq<byte>): (r: Option<seq<byte>>)
    ensures r.Some? ==> |r.value| <= 0xFFFF
  {
    if |stream| < 2 || |stream| < 2 + U16At(stream, 0) then None
    else Some(stream[2..2 + U16At(stream, 0)])
  }

  /** An answer to `packet` over either transport that passed validation for this exchange. */
  ghost predicate AnswerTo(up: Upstream, packet: seq<byte>, id: u16, question: seq<byte>, answer: seq<byte>) {
    && ValidateResponse(answer, id, question).Some?
    && exists n: nat ::
         UdpAnswer(up.udp(n, packet), id) == Some(answer) || TcpAnswer(up.tcp(n, packet)) == Some(answer)
  }

  predicate RefusesEdns(edns: ClientEdns, resp: seq<byte>) {
    edns.WithEdns? && ResponseInfoOf(resp).Some? && ResponseInfoOf(resp).value.rcode == RCODE_FORMERR
  }

  function FullQuery(request: seq<byte>, id: u16): seq<byte>
    requires ParseQuery(request).Ok?
  {
    var q := ParseQuery(request).value;
    BuildUpstreamQuery(id, QuestionOf(request), q.checkingDisabled, q.edns)
  }

  function PlainQuery(request: seq<byte>, id: u16): seq<byte>
    requires ParseQuery(request).Ok?
  {
    BuildUpstreamQuery(id, QuestionOf(request), ParseQuery(request).value.checkingDisabled, NoEdns)
  }

  /**
   What the two upstream queries ask: the client's own question with its CD, RD set; the full one with the client's DO
   bit and its size clamped, if it sent EDNS, and the plain one never with EDNS.
   */
  lemma WhatIsAsked(request: seq<byte>, id: u16)
    requires ParseQuery(request).Ok?
    ensures var q, full, plain := ParseQuery(request).value, ParseQuery(FullQuery(request, id)),
        ParseQuery(PlainQuery(request, id));
      && full.Ok? && plain.Ok?
      && full.value.id == plain.value.id == id && full.value.opcode == plain.value.opcode == 0
      && full.value.recursionDesired && plain.value.recursionDesired
      && full.value.qnameWire == plain.value.qnameWire == q.qnameWire
      && full.value.qtype == plain.value.qtype == q.qtype && full.value.qclass == plain.value.qclass == q.qclass
      && full.value.checkingDisabled == plain.value.checkingDisabled == q.checkingDisabled
      && plain.value.edns == NoEdns && (full.value.edns.WithEdns? <==> q.edns.WithEdns?)
      && full.value.DnssecOk() == q.DnssecOk()
      && (q.edns.WithEdns? ==> full.value.edns.size == ClampEdnsUdpSize(q.edns.size))
  {
    hide ParseQuery, QuestionOf, QuestionBytes, BuildUpstreamQuery;
    UpstreamQueryParses(request, id);
    QueryMeaning(request);
    var q := ParseQuery(request).value;
    BuiltQueryParses(id, QuestionLabels(request), q.qtype, q.qclass, q.checkingDisabled, NoEdns);
    BuiltNameIs(id, QuestionLabels(request), q.qtype, q.qclass, q.checkingDisabled, NoEdns);
  }

  lemma BuiltNameIs(id: u16, ls: seq<Label>, qtype: u16, qclass: u16, cd: bool, edns: ClientEdns)
    requires LegalName(ls)
    ensures var b := ParseQuery(BuildUpstreamQuery(id, QuestionBytes(ls, qtype, qclass), cd, edns));
      b.Ok? && b.value.qnameWire == Encode(ls)
  {
    hide ParseQuery, QuestionBytes, BuildUpstreamQuery, Encode;
    BuiltQueryParses(id, ls, qtype, qclass, cd, edns);
  }

  function Validated(answer: Option<seq<byte>>, id: u16, question: seq<byte>): (r: Option<seq<byte>>) {
    if answer.Some? && ValidateResponse(answer.value, id, question).Some? then answer else None
  }

  function Tagged(answer: Option<seq<byte>>, ednsStripped: bool): (r: Option<Forwarded>) {
    match answer case None => None case Some(b) => Some(Forwarded(b, ednsStripped))
  }

  /** The TCP tail, also reached by the TC escalation: exchange `n`, then one plain retry on FORMERR. */
  function ForwardTcp(up: Upstream, n: nat, request: seq<byte>, id: u16): (r: Option<Forwarded>)
    requires ParseQuery(request).Ok?
  {
    var question := QuestionOf(request);
    match Validated(TcpAnswer(up.tcp(n, FullQuery(request, id))), id, question)
    case None => None
    case Some(resp) =>
      if RefusesEdns(ParseQuery(request).value.edns, resp) then
        Tagged(Validated(TcpAnswer(up.tcp(n + 1, PlainQuery(request, id))), id, question), true)
      else Some(Forwarded(resp, false))
  }

  /** The plain retry over UDP, escalating to TCP if truncated. */
  function ForwardPlain(up: Upstream, request: seq<byte>, id: u16): (r: Option<Forwarded>)
    requires ParseQuery(request).Ok?
  {
    var question := QuestionOf(request);
    match Validated(UdpAnswer(up.udp(1, PlainQuery(request, id)), id), id, question)
    case None => None
    case Some(resp) =>
      if !IsTruncatedResponse(resp) then Some(Forwarded(resp, true))
      else Tagged(Validated(TcpAnswer(up.tcp(2, PlainQuery(request, id))), id, question), true)
  }

  function ForwardVia(up: Upstream, request: seq<byte>, viaTcp: bool, id: u16): (r: Option<Forwarded>)
    requires ParseQuery(request).Ok?
  {
    if viaTcp then ForwardTcp(up, 0, request, id)
    else
      match Validated(UdpAnswer(up.udp(0, FullQuery(request, id)), id), id, QuestionOf(request))
      case None => None
      case Some(resp) =>
        if RefusesEdns(ParseQuery(request).value.edns, resp) then ForwardPlain(up, request, id)
        else if !IsTruncatedResponse(resp) then Some(Forwarded(resp, false))
        else ForwardTcp(up, 1, request, id)
  }

  /**
   Whatever the upstream does, a forwarded answer is a validated answer to a query we sent in this
   exchange: the full query when it is marked intact, the EDNS-free one when it is marked stripped, and
   it is only ever stripped for a client that sent EDNS.
   */
  lemma ForwardedIsValidated(up: Upstream, request: seq<byte>, viaTcp: bool, id: u16)
    requires ParseQuery(request).Ok? && ForwardVia(up, request, viaTcp, id).Some?
    ensures var fw := ForwardVia(up, request, viaTcp, id).value;
      && AnswerTo(up, if fw.ednsStripped then PlainQuery(request, id) else FullQuery(request, id), id,
                  QuestionOf(request), fw.bytes)
      && (fw.ednsStripped ==> ParseQuery(request).value.edns.WithEdns?)
      && |fw.bytes| <= 0xFFFF
  {
    hide ValidateResponse, UdpAnswer, TcpAnswer, ResponseInfoOf, ParseQuery, QuestionOf, BuildUpstreamQuery,
      IsTruncatedResponse;
  }

  /**
   The forwarding policy. A TC answer is only ever passed on as received over TCP; an answer refusing our OPT
   (FORMERR to a client with EDNS) is never passed on as intact; and the OPT is dropped only after the upstream
   refused it in this very exchange.
   */
  lemma ForwardPolicy(up: Upstream, request: seq<byte>, viaTcp: bool, id: u16)
    requires ParseQuery(request).Ok? && ForwardVia(up, request, viaTcp, id).Some?
    ensures var fw, edns := ForwardVia(up, request, viaTcp, id).value, ParseQuery(request).value.edns;
      && (viaTcp || IsTruncatedResponse(fw.bytes) ==> exists n: nat, p :: TcpAnswer(up.tcp(n, p)) == Some(fw.bytes))
      && (RefusesEdns(edns, fw.bytes) ==> fw.ednsStripped)
      && (fw.ednsStripped ==> exists refusal ::
            RefusesEdns(edns, refusal) && AnswerTo(up, FullQuery(request, id), id, QuestionOf(request), refusal))
  {
    hide ValidateResponse, UdpAnswer, TcpAnswer, ResponseInfoOf, ParseQuery, QuestionOf, BuildUpstreamQuery,
      IsTruncatedResponse;
  }

  // ---- which exchange decides ----

  /** Exchange `n` over UDP, or over TCP, delivers the answer `b` to `p`, and it passes validation. */
  ghost predicate UdpGives(up: Upstream, n: nat, p: seq<byte>, id: u16, question: seq<byte>, b: seq<byte>) {
    UdpAnswer(up.udp(n, p), id) == Some(b) && ValidateResponse(b, id, question).Some?
  }

  ghost predicate TcpGives(up: Upstream, n: nat, p: seq<byte>, id: u16, question: seq<byte>, b: seq<byte>) {
    TcpAnswer(up.tcp(n, p)) == Some(b) && ValidateResponse(b, id, question).Some?
  }

  /** FORMERR to a client that sent EDNS. */
  ghost predicate Refusal(request: seq<byte>, b: seq<byte>) {
    ParseQuery(request).Ok? && ParseQuery(request).value.edns.WithEdns? && HasHeader(b) && Rcode(b) == 1
  }

  /** A validated answer has a header, and refuses EDNS exactly if it is FORMERR. */
  lemma RefusalIsFormerr(request: seq<byte>, id: u16, b: seq<byte>)
    requires ParseQuery(request).Ok? && ValidateResponse(b, id, QuestionOf(request)).Some?
    ensures HasHeader(b) && (RefusesEdns(ParseQuery(request).value.edns, b) <==> Refusal(request, b))
    ensures Validated(Some(b), id, QuestionOf(request)) == Some(b)
    ensures IsTruncatedResponse(b) <==> Tc(b)
  {
    hide ParseQuery, QuestionOf, QuestionLabels, QuestionBytes, AnswerInfo, Rcode;
    QueryMeaning(request);
    var q := ParseQuery(request).value;
    ValidatedEchoesQuestion(b, id, QuestionLabels(request), q.qtype, q.qclass);
    InfoHasRcode(b);
  }

  lemma InfoHasRcode(b: seq<byte>)
    requires ResponseInfoOf(b).Some?
    ensures HasHeader(b) && ResponseInfoOf(b).value.rcode == Rcode(b)
  {
  }

  /** A usable first UDP answer comes back as it is, without any TCP; without one there is no answer. */
  lemma FirstUdpAnswerDecides(up: Upstream, request: seq<byte>, id: u16)
    requires ParseQuery(request).Ok?
    ensures var question, fw := QuestionOf(request), ForwardVia(up, request, false, id);
      && (forall b :: UdpGives(up, 0, FullQuery(request, id), id, question, b) && !Refusal(request, b) && !Tc(b) ==>
            fw == Some(Forwarded(b, false)))
      && ((forall b :: !UdpGives(up, 0, FullQuery(request, id), id, question, b)) ==> fw.None?)
  {
    hide ValidateResponse, UdpAnswer, TcpAnswer, ParseQuery, QuestionOf, BuildUpstreamQuery, Tc, IsTruncatedResponse,
      RefusesEdns, Refusal;
    forall b | ValidateResponse(b, id, QuestionOf(request)).Some?
      ensures RefusesEdns(ParseQuery(request).value.edns, b) <==> Refusal(request, b)
      ensures HasHeader(b) && Validated(Some(b), id, QuestionOf(request)) == Some(b)
      ensures IsTruncatedResponse(b) <==> Tc(b)
    {
      RefusalIsFormerr(request, id, b);
    }
    var a := UdpAnswer(up.udp(0, FullQuery(request, id)), id);
    if ForwardVia(up, request, false, id).Some? {
      assert UdpGives(up, 0, FullQuery(request, id), id, QuestionOf(request), a.value);
    }
  }

  /** A refusal is answered by the plain query: over UDP, and over TCP if that answer is truncated. */
  lemma PlainAnswerDecides(up: Upstream, request: seq<byte>, id: u16, refusal: seq<byte>)
    requires ParseQuery(request).Ok? && Refusal(request, refusal)
    requires UdpGives(up, 0, FullQuery(request, id), id, QuestionOf(request), refusal)
    ensures var question, fw := QuestionOf(request), ForwardVia(up, request, false, id);
      && (forall b :: UdpGives(up, 1, PlainQuery(request, id), id, question, b) && !Tc(b) ==>
            fw == Some(Forwarded(b, true)))
      && (forall b, c ::
            && UdpGives(up, 1, PlainQuery(request, id), id, question, b) && Tc(b)
            && TcpGives(up, 2, PlainQuery(request, id), id, question, c)
            ==> fw == Some(Forwarded(c, true)))
  {
    hide ValidateResponse, UdpAnswer, TcpAnswer, ParseQuery, QuestionOf, BuildUpstreamQuery, Tc, IsTruncatedResponse,
      RefusesEdns, Refusal;
    forall b | ValidateResponse(b, id, QuestionOf(request)).Some?
      ensures RefusesEdns(ParseQuery(request).value.edns, b) <==> Refusal(request, b)
      ensures HasHeader(b) && Validated(Some(b), id, QuestionOf(request)) == Some(b)
      ensures IsTruncatedResponse(b) <==> Tc(b)
    {
      RefusalIsFormerr(request, id, b);
    }
  }

  /** Over TCP, by choice or after a truncated answer, the full query decides, or on a refusal the plain one. */
  lemma TcpAnswerDecides(up: Upstream, request: seq<byte>, viaTcp: bool, id: u16, cut: seq<byte>)
    requires ParseQuery(request).Ok?
    requires viaTcp || (!Refusal(request, cut) && HasHeader(cut) && Tc(cut)
                        && UdpGives(up, 0, FullQuery(request, id), id, QuestionOf(request), cut))
    ensures var question, fw := QuestionOf(request), ForwardVia(up, request, viaTcp, id);
      var n: nat := if viaTcp then 0 else 1;
      && (forall b :: TcpGives(up, n, FullQuery(request, id), id, question, b) && !Refusal(request, b) ==>
            fw == Some(Forwarded(b, false)))
      && (forall b, c ::
            && TcpGives(up, n, FullQuery(request, id), id, question, b) && Refusal(request, b)
            && TcpGives(up, n + 1, PlainQuery(request, id), id, question, c)
            ==> fw == Some(Forwarded(c, true)))
      && ((forall b :: !TcpGives(up, n, FullQuery(request, id), id, question, b)) ==> fw.None?)
  {
    hide ValidateResponse, UdpAnswer, TcpAnswer, ParseQuery, QuestionOf, BuildUpstreamQuery, Tc, IsTruncatedResponse,
      RefusesEdns, Refusal;
    forall b | ValidateResponse(b, id, QuestionOf(request)).Some?
      ensures RefusesEdns(ParseQuery(request).value.edns, b) <==> Refusal(request, b)
      ensures HasHeader(b) && Validated(Some(b), id, QuestionOf(request)) == Some(b)
      ensures IsTruncatedResponse(b) <==> Tc(b)
    {
      RefusalIsFormerr(request, id, b);
    }
    var n: nat := if viaTcp then 0 else 1;
    var a := TcpAnswer(up.tcp(n, FullQuery(request, id)));
    if ForwardVia(up, request, viaTcp, id).Some? {
      assert TcpGives(up, n, FullQuery(request, id), id, QuestionOf(request), a.value);
    }
  }

  /** One framed message at the head of the stream is the answer; an unfinished one is none. */
  lemma TcpAnswerIsFramed(m: seq<byte>, rest: seq<byte>, k: nat)
    requires |m| <= 65535 && k < 2 + |m|
    ensures TcpAnswer(U16Bytes(|m|) + m + rest) == Some(m) && TcpAnswer((U16Bytes(|m|) + m)[..k]).None?
  {
    var s := U16Bytes(|m|) + m + rest;
    assert s[0] == U16Bytes(|m|)[0] && s[1] == U16Bytes(|m|)[1];
    assert U16At(s, 0) == |m| && s[2..2 + |m|] == m;
    var t := (U16Bytes(|m|) + m)[..k];
    if k >= 2 { assert t[0] == U16Bytes(|m|)[0] && t[1] == U16Bytes(|m|)[1] && U16At(t, 0) == |m|; }
  }

  /** An upstream that validly answers whatever it is asked, with or without EDNS, is always heard. */
  lemma AnsweringUpstreamIsHeard(up: Upstream, request: seq<byte>, viaTcp: bool, id: u16)
    requires ParseQuery(request).Ok?
    requires forall n: nat, p :: p == FullQuery(request, id) || p == PlainQuery(request, id) ==>
      && UdpAnswer(up.udp(n, p), id).Some? && TcpAnswer(up.tcp(n, p)).Some?
      && ValidateResponse(UdpAnswer(up.udp(n, p), id).value, id, QuestionOf(request)).Some?
      && ValidateResponse(TcpAnswer(up.tcp(n, p)).value, id, QuestionOf(request)).Some?
    ensures ForwardVia(up, request, viaTcp, id).Some?
  {
    hide ValidateResponse, UdpAnswer, TcpAnswer, ResponseInfoOf, ParseQuery, QuestionOf, BuildUpstreamQuery,
      IsTruncatedResponse;
  }

  /** No exchange is ever tried a fourth time: the answer depends on at most the first three. */
  lemma AtMostThreeExchanges(a: Upstream, b: Upstream, request: seq<byte>, viaTcp: bool, id: u16)
    requires ParseQuery(request).Ok?
    requires forall n: nat, p: seq<byte> :: n < 3 ==> a.udp(n, p) == b.udp(n, p) && a.tcp(n, p) == b.tcp(n, p)
    ensures ForwardVia(a, request, viaTcp, id) == ForwardVia(b, request, viaTcp, id)
  {
    hide ValidateResponse, UdpAnswer, TcpAnswer, ResponseInfoOf, ParseQuery, QuestionOf, BuildUpstreamQuery,
      IsTruncatedResponse;
  }
}

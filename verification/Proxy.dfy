/** The proxy object: `handle_query`, its egress, and what every client is guaranteed about every reply. */
module Proxy {
  import opened Bytes
  import opened Names
  import opened Presentation
  import opened Header
  import opened Records
  import opened Edns
  import opened Queries
  import opened Responses
  import opened Replies
  import opened Filter
  import opened Engine
  import opened Cache
  import opened Forwarding
  import opened Serving
  import opened OwnQuestion
  import opened CacheSafety
  import opened Buffer

  datatype Answer = Answer(resp: seq<byte>, limit: nat)

  /** The reply before egress normalization, given the cache, the upstream picked (if any) and the lookup time. */
  function AnswerFor(
    config: ProxyConfig, rules: Rules, m: Entries, request: seq<byte>, up: Option<Upstream>,
    viaTcp: bool, txid: u16, now: nat): (r: Option<Answer>)
  {
    match PlanFor(config, rules, request)
    case Local(resp, limit) => (match resp case None => None case Some(b) => Some(Answer(b, limit)))
    case Consult(q, limit) =>
      PlanIsConsult(config, rules, request);
      match Hit(m, KeyOf(q), q.id, q.recursionDesired, q.checkingDisabled, now)
      case Some(b) => Some(Answer(b, limit))
      case None =>
        match if up.None? then None else ForwardVia(up.value, request, viaTcp, txid)
        case Some(fw) => Some(Answer(Relay(q, fw), limit))
        case None => (match ServFail(request) case None => None case Some(b) => Some(Answer(b, limit)))
  }

  // ---- every reply conforms ----

  ghost predicate CacheSound(m: Entries) {
    forall k :: k in m ==> HasHeader(m[k].bytes) && Qr(m[k].bytes) && ResponseInfoOf(m[k].bytes).Some?
  }

  /** The entry answers the question its key stands for. */
  ghost predicate AnswersItsKey(key: CacheKey, entry: CacheEntry) {
    exists ls: seq<Label> ::
      LegalName(ls) && key.qnameWire == Encode(ls) && AnswersQuestion(entry.bytes, ls, key.qtype, key.qclass)
  }

  /** At the end of every run all entries are well-formed responses to their own key's question. */
  lemma RunIsSound(config: ProxyConfig, events: seq<Event>)
    ensures CacheSound(Run(config, events))
    ensures forall k :: k in Run(config, events) ==> AnswersItsKey(k, Run(config, events)[k])
  {
    hide Run, Origin, AnswersQuestion, ResponseInfoOf, Encode, Present, IsCanary, LegalName;
    forall k | k in Run(config, events)
      ensures var b := Run(config, events)[k].bytes; HasHeader(b) && Qr(b) && ResponseInfoOf(b).Some?
      ensures AnswersItsKey(k, Run(config, events)[k])
    {
      RunHasOrigins(config, events, k);
      var i :| 0 <= i < |events| && Origin(config, events[i], k, Run(config, events)[k]);
      var ls := OriginMeaning(config, events[i], k, Run(config, events)[k]);
    }
  }

  lemma InfoAppend(b: seq<byte>, udpSize: u16, dnssecOk: bool)
    requires ResponseInfoOf(b).Some?
    ensures ResponseInfoOf(AppendOpt(b, udpSize, dnssecOk)) == ResponseInfoOf(b)
  {
    hide ResponseInfoOf, Walk, QuestionsEnd, U16At, Rcode, OptBytes;
    var q, w := InfoParts(b);
    var c := AppendOpt(b, udpSize, dnssecOk);
    if c != b {
      assert c[..10] == b[..10];
      assert c[HEADER_LEN..w.end] == b[HEADER_LEN..w.end];
      HeadPrefix(b, c);
      InfoMoves(b, q, w, c);
    }
  }

  lemma InfoNormalize(request: seq<byte>, b: seq<byte>)
    requires ResponseInfoOf(b).Some?
    ensures ResponseInfoOf(NormalizeClientEdns(request, b)) == ResponseInfoOf(b)
  {
    hide ResponseInfoOf, Strip, AppendOpt, ParseQuery;
    InfoStrip(b);
    var edns := ClientEdnsOf(request);
    if edns.WithEdns? { InfoAppend(Strip(b), ClampEdnsUdpSize(edns.size), edns.dnssecOk); }
  }

  /** Patching any response for the client that asked makes it conform. */
  lemma PatchedConforms(request: seq<byte>, b: seq<byte>)
    requires HasHeader(request) && HasHeader(b) && Qr(b) && ResponseInfoOf(b).Some?
    ensures var r := ForClient(b, Id(request), Rd(request), Cd(request));
      Conforms(request, r) && ResponseInfoOf(r) == ResponseInfoOf(b)
  {
    hide ResponseInfoOf, ForClient, Id, Rd, Cd, Qr, Ad;
    ForClientMeaning(b, Id(request), Rd(request), Cd(request));
    InfoForClient(b, Id(request), Rd(request), Cd(request));
  }

  lemma ForwardedFacts(up: Upstream, request: seq<byte>, viaTcp: bool, txid: u16)
    requires ParseQuery(request).Ok? && ForwardVia(up, request, viaTcp, txid).Some?
    ensures var b := ForwardVia(up, request, viaTcp, txid).value.bytes;
      HasHeader(b) && Qr(b) && ResponseInfoOf(b).Some?
  {
    hide ForwardVia, ParseQuery, AnswerTo, ValidateResponse, QuestionBytes, ResponseInfoOf, PlainQuery, FullQuery,
      QuestionOf, QuestionLabels;
    ForwardedIsValidated(up, request, viaTcp, txid);
    var fw := ForwardVia(up, request, viaTcp, txid).value;
    AnswerIsValid(up, if fw.ednsStripped then PlainQuery(request, txid) else FullQuery(request, txid), txid,
      QuestionOf(request), fw.bytes);
    QueryMeaning(request);
    var q := ParseQuery(request).value;
    ValidatedEchoesQuestion(fw.bytes, txid, QuestionLabels(request), q.qtype, q.qclass);
  }

  /**
   Every request of at least a header is answered, and the answer carries QR, the requester's id, RD and
   CD, and no AD; one too big for any UDP limit is a relayed answer whose summary can be read.
   */
  lemma AnswerConforms(
    config: ProxyConfig, rules: Rules, m: Entries, request: seq<byte>, up: Option<Upstream>,
    viaTcp: bool, txid: u16, now: nat)
    requires HasHeader(request) && CacheSound(m)
    ensures var a := AnswerFor(config, rules, m, request, up, viaTcp, txid, now);
      && a.Some? && Conforms(request, a.value.resp) && MAX_UDP_PAYLOAD <= a.value.limit
      && (|a.value.resp| <= 299 || ResponseInfoOf(a.value.resp).Some?)
  {
    hide PlanFor, ForwardVia, Conforms, ResponseInfoOf, BuildErrorResponse, ForClient, PlainLayout, Qr, Rd, Cd, Id;
    var plan := PlanFor(config, rules, request);
    if plan.Local? {
      LocalAnswerShape(config, rules, request);
    } else {
      PlanIsConsult(config, rules, request);
      PlanLimit(config, rules, request);
      var q := plan.query;
      if Hit(m, KeyOf(q), q.id, q.recursionDesired, q.checkingDisabled, now).Some? {
        PatchedConforms(request, m[KeyOf(q)].bytes);
      } else if up.Some? && ForwardVia(up.value, request, viaTcp, txid).Some? {
        ForwardedFacts(up.value, request, viaTcp, txid);
        PatchedConforms(request, ForwardVia(up.value, request, viaTcp, txid).value.bytes);
      } else {
        ErrorResponseShape(request, RCODE_SERVFAIL, false);
      }
    }
  }

  // ---- every reply carries the question it replies to ----

  lemma LocalCarries(config: ProxyConfig, rules: Rules, request: seq<byte>)
    requires PlanFor(config, rules, request).Local? && HasHeader(request)
    ensures var p := PlanFor(config, rules, request); p.resp.Some? && CarriesQuestion(request, p.resp.value)
  {
    hide BuildErrorResponse, BuildZeroIpResponse, Conforms, PlainLayout, ParseQuery, Decide, IsCanary, LocalReply,
      CarriesQuestion, NullAddress, Walk;
    ErrorCarries(request, RCODE_FORMERR, false);
    ErrorCarries(request, RCODE_NOTIMP, false);
    ErrorCarries(request, RCODE_NXDOMAIN, true);
    if ParseQuery(request).Ok? { ZeroIpCarries(request, ZERO_IP_TTL); }
  }

  lemma ErrorCarries(request: seq<byte>, rcode: byte, aa: bool)
    requires HasHeader(request) && rcode < 16
    ensures var r := BuildErrorResponse(request, rcode, aa); r.Some? && CarriesQuestion(request, r.value)
  {
    hide BuildErrorResponse, LocalReply, CarriesQuestion, Conforms, PlainLayout;
    ErrorResponseShape(request, rcode, aa);
    LocalReplyCarries(request, BuildErrorResponse(request, rcode, aa).value, rcode, aa, false, 0);
  }

  lemma ZeroIpCarries(request: seq<byte>, ttl: u32)
    requires ParseQuery(request).Ok?
    ensures var r := BuildZeroIpResponse(request, ttl); r.Some? && CarriesQuestion(request, r.value)
  {
    hide BuildZeroIpResponse, LocalReply, CarriesQuestion, Conforms, PlainLayout, ParseQuery, NullAddress, Walk;
    ZeroIpResponseShape(request, ttl);
    var q, r := ParseQuery(request).value, BuildZeroIpResponse(request, ttl).value;
    if q.qtype == TYPE_A || q.qtype == TYPE_AAAA {
      LocalReplyCarries(request, r, RCODE_NOERROR, true, false, 1);
    } else {
      LocalReplyCarries(request, r, RCODE_NXDOMAIN, true, false, 0);
    }
  }

  /** An entry found under the query's key answers that query. */
  lemma HitCarries(request: seq<byte>, q: Query, entry: CacheEntry)
    requires ParseQuery(request) == Ok(q) && AnswersItsKey(KeyOf(q), entry)
    ensures CarriesQuestion(request, ForClient(entry.bytes, q.id, q.recursionDesired, q.checkingDisabled))
  {
    hide ParseQuery, AnswersQuestion, Encode, WireLen, ForClient, QuestionLabels;
    QueryMeaning(request);
    var ls: seq<Label> :| LegalName(ls) && KeyOf(q).qnameWire == Encode(ls)
      && AnswersQuestion(entry.bytes, ls, KeyOf(q).qtype, KeyOf(q).qclass);
    EncodeInjective(ls, QuestionLabels(request));
    ForClientAnswers(entry.bytes, ls, q.qtype, q.qclass, q.id, q.recursionDesired, q.checkingDisabled);
  }

  lemma RelayCarries(up: Upstream, request: seq<byte>, viaTcp: bool, txid: u16, q: Query)
    requires ParseQuery(request) == Ok(q) && ForwardVia(up, request, viaTcp, txid).Some?
    ensures CarriesQuestion(request, Relay(q, ForwardVia(up, request, viaTcp, txid).value))
  {
    hide ForwardVia, ParseQuery, AnswerTo, ValidateResponse, QuestionBytes, PlainQuery, FullQuery, QuestionOf,
      QuestionLabels, AnswersQuestion, ForClient, LegalName;
    ForwardedIsValidated(up, request, viaTcp, txid);
    var fw := ForwardVia(up, request, viaTcp, txid).value;
    AnswerIsValid(up, if fw.ednsStripped then PlainQuery(request, txid) else FullQuery(request, txid), txid,
      QuestionOf(request), fw.bytes);
    QueryMeaning(request);
    var ls := QuestionLabels(request);
    ValidatedAnswers(fw.bytes, txid, ls, q.qtype, q.qclass);
    ForClientAnswers(fw.bytes, ls, q.qtype, q.qclass, q.id, q.recursionDesired, q.checkingDisabled);
  }

  /** Local, cached, forwarded and failed alike: the answer's one question is the request's own. */
  lemma AnswerCarries(
    config: ProxyConfig, rules: Rules, m: Entries, request: seq<byte>, up: Option<Upstream>,
    viaTcp: bool, txid: u16, now: nat)
    requires HasHeader(request) && forall k :: k in m ==> AnswersItsKey(k, m[k])
    ensures var a := AnswerFor(config, rules, m, request, up, viaTcp, txid, now);
      a.Some? && CarriesQuestion(request, a.value.resp)
  {
    hide PlanFor, ForwardVia, BuildErrorResponse, ForClient, CarriesQuestion, AnswersItsKey;
    var plan := PlanFor(config, rules, request);
    if plan.Local? {
      LocalCarries(config, rules, request);
    } else {
      PlanIsConsult(config, rules, request);
      var q := plan.query;
      if Hit(m, KeyOf(q), q.id, q.recursionDesired, q.checkingDisabled, now).Some? {
        HitCarries(request, q, m[KeyOf(q)]);
      } else if up.Some? && ForwardVia(up.value, request, viaTcp, txid).Some? {
        RelayCarries(up.value, request, viaTcp, txid, q);
      } else {
        ErrorCarries(request, RCODE_SERVFAIL, false);
      }
    }
  }

  lemma CutCarries(request: seq<byte>, resp: seq<byte>, limit: nat)
    requires CarriesQuestion(request, resp) && UdpReply(request, resp, limit).Some?
    ensures CarriesQuestion(request, UdpReply(request, resp, limit).value)
  {
    hide CarriesQuestion, TruncateForClient;
    if |resp| > limit { TruncatedCarries(request, resp); }
  }

  /** The limit is at least 512 and never above what the requester advertised, clamped. */
  lemma PlanLimit(config: ProxyConfig, rules: Rules, request: seq<byte>)
    ensures MAX_UDP_PAYLOAD <= PlanFor(config, rules, request).limit <= UdpLimit(ClientEdnsOf(request))
    ensures var plan := PlanFor(config, rules, request); plan.Consult? ==> plan.limit == UdpLimit(ClientEdnsOf(request))
  {
    hide ParseQuery, Decide, BuildErrorResponse, BuildZeroIpResponse, BlockAnswer, IsCanary;
  }

  // ---- the two transports ----

  /** What the UDP loop sends for a normalized reply. */
  function UdpReply(request: seq<byte>, resp: seq<byte>, limit: nat): (r: Option<seq<byte>>) {
    if |resp| > limit then TruncateForClient(request, resp) else Some(resp)
  }

  const MAX_FRAME := 0xFFFF

  /** What a TCP connection sends for a normalized reply. */
  function TcpReply(request: seq<byte>, resp: seq<byte>): (r: Option<seq<byte>>) {
    if |resp| > MAX_FRAME then TruncateForClient(request, resp) else Some(resp)
  }

  /** A reply cut for a transport limit of at least 512 fits it, conforms, and keeps the rcode. */
  lemma CutReplyFits(request: seq<byte>, resp: seq<byte>, limit: nat)
    requires Conforms(request, resp) && MAX_UDP_PAYLOAD <= limit
    requires |resp| <= 310 || ResponseInfoOf(resp).Some?
    ensures var r := UdpReply(request, resp, limit);
      && r.Some? && |r.value| <= limit && Conforms(request, r.value) && Rcode(r.value) == Rcode(resp)
      && (r.value != resp ==> Tc(r.value) && |r.value| <= 282)
  {
    hide Conforms, ResponseInfoOf, TruncateForClient, Rcode, Tc;
    ConformsHasHeader(request, resp);
    if |resp| > limit {
      TruncatedShape(request, resp);
      InfoRcode(resp);
    }
  }

  lemma ConformsHasHeader(request: seq<byte>, resp: seq<byte>)
    requires Conforms(request, resp)
    ensures HasHeader(request) && HasHeader(resp)
  {
  }

  /** What a requester says it can take over UDP: 512 octets without EDNS, and never more than 4096 or less than 512. */
  function AdvertisedSize(edns: ClientEdns): (n: nat) {
    match edns
    case NoEdns => 512
    case WithEdns(size, _) => Max(512, Min(size, 4096))
  }

  lemma LimitIsAdvertised(edns: ClientEdns)
    ensures UdpLimit(edns) == AdvertisedSize(edns)
  {
    if edns.WithEdns? { ClampMeaning(edns.size); }
  }

  lemma FitsGoesWhole(request: seq<byte>, resp: seq<byte>, limit: nat)
    ensures |resp| <= limit ==> UdpReply(request, resp, limit) == Some(resp)
  {
    hide TruncateForClient;
  }

  /**
   Reply conformance, over UDP: whatever the rules, the run behind the cache and the upstream, a request
   with a header gets a reply that conforms, carries the request's own question if it could be parsed, and fits its
   sender's own advertised size, clamped (512 without EDNS);
   if it had to be truncated, TC is set, it is at most 282 octets and the rcode is that of the full answer.
   */
  lemma UdpConformance(
    config: ProxyConfig, rules: Rules, events: seq<Event>, request: seq<byte>, up: Option<Upstream>,
    txid: u16, now: nat)
    requires HasHeader(request)
    ensures var a := AnswerFor(config, rules, Run(config, events), request, up, false, txid, now);
      && a.Some?
      && var full := NormalizeClientEdns(request, a.value.resp);
      && var sent := UdpReply(request, full, a.value.limit);
      && HasHeader(full) && sent.Some? && Conforms(request, sent.value)
      && CarriesQuestion(request, sent.value)
      && |sent.value| <= a.value.limit <= UdpLimit(ClientEdnsOf(request))
      && |sent.value| <= AdvertisedSize(ClientEdnsOf(request))
      && (|full| <= a.value.limit ==> sent.value == full)
      && Rcode(sent.value) == Rcode(full)
      && (sent.value != full ==> Tc(sent.value) && |sent.value| <= 282)
  {
    hide Run, AnswerFor, Conforms, NormalizeClientEdns, UdpReply, Rcode, Tc, ResponseInfoOf, CacheSound, UdpLimit,
      ClientEdnsOf, PlanFor, CarriesQuestion, AnswersItsKey;
    AnswerLimit(config, rules, Run(config, events), request, up, false, txid, now);
    PlanLimit(config, rules, request);
    LimitIsAdvertised(ClientEdnsOf(request));
    RunIsSound(config, events);
    AnswerConforms(config, rules, Run(config, events), request, up, false, txid, now);
    var a := AnswerFor(config, rules, Run(config, events), request, up, false, txid, now).value;
    NormalizeConforms(request, a.resp);
    if ResponseInfoOf(a.resp).Some? { InfoNormalize(request, a.resp); }
    ConformsHasHeader(request, NormalizeClientEdns(request, a.resp));
    CutReplyFits(request, NormalizeClientEdns(request, a.resp), a.limit);
    AnswerCarries(config, rules, Run(config, events), request, up, false, txid, now);
    NormalizeCarries(request, a.resp);
    CutCarries(request, NormalizeClientEdns(request, a.resp), a.limit);
    FitsGoesWhole(request, NormalizeClientEdns(request, a.resp), a.limit);
  }

  /** The same over TCP, where the limit is the two-octet frame length. */
  lemma TcpConformance(
    config: ProxyConfig, rules: Rules, events: seq<Event>, request: seq<byte>, up: Option<Upstream>,
    txid: u16, now: nat)
    requires HasHeader(request)
    ensures var a := AnswerFor(config, rules, Run(config, events), request, up, true, txid, now);
      && a.Some?
      && var full := NormalizeClientEdns(request, a.value.resp);
      && var sent := TcpReply(request, full);
      && HasHeader(full) && sent.Some? && Conforms(request, sent.value) && |sent.value| <= MAX_FRAME
      && CarriesQuestion(request, sent.value)
      && Rcode(sent.value) == Rcode(full)
      && (|full| <= 65535 ==> sent.value == full)
      && (sent.value != full ==> Tc(sent.value) && |sent.value| <= 282)
  {
    hide Run, AnswerFor, Conforms, NormalizeClientEdns, TruncateForClient, Rcode, Tc, ResponseInfoOf, CacheSound,
      CarriesQuestion, AnswersItsKey;
    RunIsSound(config, events);
    AnswerConforms(config, rules, Run(config, events), request, up, true, txid, now);
    var a := AnswerFor(config, rules, Run(config, events), request, up, true, txid, now).value;
    NormalizeConforms(request, a.resp);
    if ResponseInfoOf(a.resp).Some? { InfoNormalize(request, a.resp); }
    ConformsHasHeader(request, NormalizeClientEdns(request, a.resp));
    CutReplyFits(request, NormalizeClientEdns(request, a.resp), MAX_FRAME);
    AnswerCarries(config, rules, Run(config, events), request, up, true, txid, now);
    NormalizeCarries(request, a.resp);
    CutCarries(request, NormalizeClientEdns(request, a.resp), MAX_FRAME);
  }

  /** The overload answer, built outside the pipeline, conforms too and fits every limit. */
  lemma OverloadReplyConforms(request: seq<byte>)
    requires HasHeader(request)
    ensures ServFail(request).Some?
    ensures var r := NormalizeClientEdns(request, ServFail(request).value);
      Conforms(request, r) && Rcode(r) == RCODE_SERVFAIL && |r| <= 282
  {
    hide Conforms, BuildErrorResponse, NormalizeClientEdns, Rcode, PlainLayout;
    ErrorResponseShape(request, RCODE_SERVFAIL, false);
    NormalizeConforms(request, ServFail(request).value);
  }

  // ---- the proxy object ----

  datatype Counters = Counters(
    queries: nat, forwarded: nat, blocked: nat, cacheHits: nat, upstreamErrors: nat, canaryProbes: nat)

  /** Entries after one query whose two cache operations were not interleaved with another's. */
  ghost function EntriesAfter(
    config: ProxyConfig, rules: Rules, m: Entries, request: seq<byte>, up: Option<Upstream>,
    viaTcp: bool, txid: u16, now: nat, purgeNow: nat, storeNow: nat): Entries
  {
    var looked := Step(config, m, Lookup(rules, request, now));
    var plan := PlanFor(config, rules, request);
    if plan.Local? || up.None?
      || Hit(m, KeyOf(plan.query), plan.query.id, plan.query.recursionDesired, plan.query.checkingDisabled, now).Some?
    then looked
    else Step(config, looked, Store(rules, request, viaTcp, txid, up.value, purgeNow, storeNow))
  }

  /** The query is a probe for the canary, counted apart from all others. */
  predicate IsProbe(request: seq<byte>) {
    ParseQuery(request).Ok? && ParseQuery(request).value.opcode == 0 && IsCanary(ParseQuery(request).value.qname)
  }

  /** The query is answered with FORMERR or NOTIMP. */
  predicate IsRefused(request: seq<byte>) {
    ParseQuery(request).Err? || ParseQuery(request).value.opcode != 0
  }

  class DnsProxy {
    const config: ProxyConfig
    const engine: FilterEngine
    const cache: ResponseCache
    var upstreams: seq<Upstream>
    var upstreamRr: nat
    var counters: Counters
    /** Queries counted as such but refused as malformed or of another opcode. */
    ghost var refused: nat

    /** The byte total is exact, and every counted query has exactly one counted outcome. */
    ghost predicate Valid()
      reads this, cache
    {
      && cache.Valid()
      && counters.queries
         == counters.forwarded + counters.blocked + counters.cacheHits + counters.upstreamErrors + refused
    }

    constructor (config: ProxyConfig, engine: FilterEngine, upstreams: seq<Upstream>)
      ensures Valid() && fresh(cache) && cache.entries == map[]
      ensures this.config == config && this.engine == engine && this.upstreams == upstreams
    {
      this.config, this.engine, this.upstreams := config, engine, upstreams;
      cache := new ResponseCache();
      upstreamRr, refused := 0, 0;
      counters := Counters(0, 0, 0, 0, 0, 0);
    }

    ghost function Picked(): Option<Upstream>
      reads this
    {
      if upstreams == [] then None else Some(upstreams[upstreamRr % |upstreams|])
    }

    /** Round robin over the live upstream list. */
    method PickUpstream() returns (r: Option<Upstream>)
      modifies this`upstreamRr
      ensures r == old(Picked())
      ensures upstreams != [] ==> r == Some(upstreams[old(upstreamRr) % |upstreams|])
      ensures upstreamRr == if upstreams == [] then old(upstreamRr) else old(upstreamRr) + 1
    {
      if upstreams == [] { return None; }
      r := Some(upstreams[upstreamRr % |upstreams|]);
      upstreamRr := upstreamRr + 1;
    }

    /** Answer from the cache or the upstream a query that nothing local answered. */
    method Resolve(
      request: seq<byte>, q: Query, viaTcp: bool, txid: u16, now: nat, purgeNow: nat, storeNow: nat,
      ghost rules: Rules)
      returns (resp: Option<seq<byte>>)
      requires cache.Valid() && PlanFor(config, rules, request).Consult? && PlanFor(config, rules, request).query == q
      requires ParseQuery(request) == Ok(q)
      modifies this, cache
      ensures cache.Valid() && upstreams == old(upstreams) && refused == old(refused)
      ensures var a := AnswerFor(config, rules, old(cache.entries), request, old(Picked()), viaTcp, txid, now);
        resp == match a case None => None case Some(x) => Some(x.resp)
      ensures cache.entries
           == EntriesAfter(config, rules, old(cache.entries), request, old(Picked()), viaTcp, txid,
                           now, purgeNow, storeNow)
      ensures counters.queries == old(counters.queries) && counters.blocked == old(counters.blocked)
        && counters.canaryProbes == old(counters.canaryProbes)
      ensures counters.forwarded + counters.cacheHits + counters.upstreamErrors
           == old(counters.forwarded + counters.cacheHits + counters.upstreamErrors) + 1
      ensures counters.cacheHits == old(counters.cacheHits)
        + if Hit(old(cache.entries), KeyOf(q), q.id, q.recursionDesired, q.checkingDisabled, now).Some? then 1 else 0
      ensures counters.forwarded > old(counters.forwarded) ==>
        old(Picked()).Some? && ForwardVia(old(Picked()).value, request, viaTcp, txid).Some?
    {
      hide Stored, ForwardVia, Strip, ParseQuery, BuildErrorResponse, SumLen, PlanFor, ForClient;
      var hit := cache.CacheGet(KeyOf(q), q.id, q.recursionDesired, q.checkingDisabled, now);
      if hit.Some? {
        counters := counters.(cacheHits := counters.cacheHits + 1);
        return hit;
      }
      var up := PickUpstream();
      var fw := if up.None? then None else ForwardVia(up.value, request, viaTcp, txid);
      if fw.None? {
        counters := counters.(upstreamErrors := counters.upstreamErrors + 1);
        return ServFail(request);
      }
      counters := counters.(forwarded := counters.forwarded + 1);
      var relay := RelayInPlace(q, fw.value);
      var stripped := StripOptRecords(relay);
      cache.CacheStore(StoreKey(q, fw.value), stripped, config.cache, purgeNow, storeNow);
      return Some(relay);
    }

    /** The part of the pipeline that needs neither cache nor upstream; counts the query. */
    method Classify(request: seq<byte>) returns (plan: Plan)
      modifies this`counters, this`refused, engine`unnormalizableQueries
      ensures plan == PlanFor(config, old(engine.Contents()), request) && engine.Contents() == old(engine.Contents())
      ensures counters.canaryProbes == old(counters.canaryProbes) + if IsProbe(request) then 1 else 0
      ensures counters.queries == old(counters.queries) + if IsProbe(request) then 0 else 1
      ensures refused == old(refused) + if IsRefused(request) then 1 else 0
      ensures counters.blocked
           == old(counters.blocked) + if plan.Local? && !IsProbe(request) && !IsRefused(request) then 1 else 0
      ensures counters.forwarded == old(counters.forwarded) && counters.cacheHits == old(counters.cacheHits)
        && counters.upstreamErrors == old(counters.upstreamErrors)
    {
      hide BuildErrorResponse, BuildZeroIpResponse, Decide, ParseQuery;
      var parsed := ParseQuery(request);
      if parsed.Err? {
        counters, refused := counters.(queries := counters.queries + 1), refused + 1;
        return Local(BuildErrorResponse(request, RCODE_FORMERR, false), MAX_UDP_PAYLOAD);
      }
      var q := parsed.value;
      if q.opcode != 0 {
        counters, refused := counters.(queries := counters.queries + 1), refused + 1;
        return Local(BuildErrorResponse(request, RCODE_NOTIMP, false), MAX_UDP_PAYLOAD);
      }
      if IsCanary(q.qname) {
        counters := counters.(canaryProbes := counters.canaryProbes + 1);
        return Local(BuildZeroIpResponse(request, ZERO_IP_TTL), UdpLimit(q.edns));
      }
      counters := counters.(queries := counters.queries + 1);
      var decision := engine.DecideName(q.qname);
      if decision == Block {
        counters := counters.(blocked := counters.blocked + 1);
        return Local(BlockAnswer(config, request), UdpLimit(q.edns));
      }
      return Consult(q, UdpLimit(q.edns));
    }

    /** `handle_query`, with the clock readings and the upstream transaction id it would take. */
    method HandleQuery(request: seq<byte>, viaTcp: bool, txid: u16, now: nat, purgeNow: nat, storeNow: nat)
      returns (r: Option<Answer>)
      requires Valid()
      modifies this, cache, engine`unnormalizableQueries
      ensures Valid() && upstreams == old(upstreams)
      ensures var a := AnswerFor(config, old(engine.Contents()), old(cache.entries), request, old(Picked()),
                                 viaTcp, txid, now);
        r == match a case None => None case Some(x) => Some(Answer(NormalizeClientEdns(request, x.resp), x.limit))
      ensures cache.entries == EntriesAfter(config, old(engine.Contents()), old(cache.entries), request, old(Picked()),
                                            viaTcp, txid, now, purgeNow, storeNow)
      ensures counters.canaryProbes == old(counters.canaryProbes) + if IsProbe(request) then 1 else 0
      ensures counters.queries == old(counters.queries) + if IsProbe(request) then 0 else 1
    {
      hide PlanFor, ForwardVia, Strip, SumLen, NormalizeClientEdns, AnswerFor, EntriesAfter, ParseQuery, IsProbe,
        IsRefused;
      ProbeIsLocal(config, engine.Contents(), request);
      ghost var rules, before := engine.Contents(), cache.entries;
      var plan := Classify(request);
      match plan
      case Local(resp, limit) =>
        LocalOutcome(config, rules, before, request, Picked(), viaTcp, txid, now, purgeNow, storeNow);
        r := Egress(request, resp, limit);
      case Consult(q, limit) =>
        PlanIsConsult(config, rules, request);
        AnswerLimit(config, rules, before, request, Picked(), viaTcp, txid, now);
        var resp := Resolve(request, q, viaTcp, txid, now, purgeNow, storeNow, rules);
        r := Egress(request, resp, limit);
    }
  }

  lemma ProbeIsLocal(config: ProxyConfig, rules: Rules, request: seq<byte>)
    ensures IsProbe(request) || IsRefused(request) ==> PlanFor(config, rules, request).Local?
    ensures !(IsProbe(request) && IsRefused(request))
  {
    hide ParseQuery, IsCanary, Decide, BuildErrorResponse, BuildZeroIpResponse;
  }

  lemma LocalOutcome(
    config: ProxyConfig, rules: Rules, m: Entries, request: seq<byte>, up: Option<Upstream>,
    viaTcp: bool, txid: u16, now: nat, purgeNow: nat, storeNow: nat)
    requires PlanFor(config, rules, request).Local?
    ensures var plan := PlanFor(config, rules, request);
      AnswerFor(config, rules, m, request, up, viaTcp, txid, now)
        == match plan.resp case None => None case Some(b) => Some(Answer(b, plan.limit))
    ensures EntriesAfter(config, rules, m, request, up, viaTcp, txid, now, purgeNow, storeNow) == m
  {
    hide PlanFor, ForwardVia, Strip, Stored;
  }

  lemma AnswerLimit(
    config: ProxyConfig, rules: Rules, m: Entries, request: seq<byte>, up: Option<Upstream>,
    viaTcp: bool, txid: u16, now: nat)
    ensures var a := AnswerFor(config, rules, m, request, up, viaTcp, txid, now);
      a.Some? ==> a.value.limit == PlanFor(config, rules, request).limit
  {
    hide PlanFor, ForwardVia, Relay, Hit, BuildErrorResponse;
  }

  /** The relay's two in-place edits: the client's id first, then its RD and CD. */
  method RelayInPlace(q: Query, fw: Forwarded) returns (r: seq<byte>)
    ensures r == Relay(q, fw)
  {
    var buffer := new ResponseBuffer(fw.bytes);
    buffer.SetId(q.id);
    buffer.SetClientFlags(q.recursionDesired, q.checkingDisabled);
    PatchRewriteCommute(fw.bytes, q.id, q.recursionDesired, q.checkingDisabled);
    r := buffer.bytes;
  }

  /** The one egress point: strip inherited OPTs, then add one iff the requester sent one. */
  method Egress(request: seq<byte>, resp: Option<seq<byte>>, limit: nat) returns (r: Option<Answer>)
    ensures r == match resp case None => None case Some(b) => Some(Answer(NormalizeClientEdns(request, b), limit))
  {
    hide ParseQuery;
    if resp.None? { return None; }
    var out := StripOptRecords(resp.value);
    var buffer := new ResponseBuffer(out);
    var edns := ClientEdnsOf(request);
    if edns.WithEdns? { buffer.AppendClientOpt(ClampEdnsUdpSize(edns.size), edns.dnssecOk); }
    return Some(Answer(buffer.bytes, limit));
  }
}

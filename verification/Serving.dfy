/** The query pipeline: parse, canary, filter, cache, forward, and one egress normalization. */
module Serving {
  import opened Bytes
  import opened Names
  import opened Presentation
  import opened Header
  import opened Edns
  import opened Queries
  import opened Responses
  import opened Replies
  import opened Filter
  import opened Engine
  import opened Cache
  import opened Forwarding

  const ZERO_IP_TTL: u32 := 60

  datatype BlockResponse = Nxdomain | ZeroIp
  datatype ProxyConfig = ProxyConfig(cache: CacheConfig, blockResponse: BlockResponse)

  /** What happens to a query before the cache is consulted. */
  datatype Plan =
    | Local(resp: Option<seq<byte>>, limit: nat)
    | Consult(query: Query, limit: nat)

  function UdpLimit(edns: ClientEdns): (n: nat)
    ensures MAX_UDP_PAYLOAD <= n <= 4096
  {
    match edns case NoEdns => MAX_UDP_PAYLOAD case WithEdns(size, _) => ClampEdnsUdpSize(size)
  }

  predicate IsCanary(qname: string) { LowerText(qname) == LowerText(CANARY_DOMAIN) }

  function BlockAnswer(config: ProxyConfig, request: seq<byte>): (r: Option<seq<byte>>) {
    match config.blockResponse
    case Nxdomain => BuildErrorResponse(request, RCODE_NXDOMAIN, true)
    case ZeroIp => BuildZeroIpResponse(request, ZERO_IP_TTL)
  }

  function PlanFor(config: ProxyConfig, rules: Rules, request: seq<byte>): (p: Plan) {
    match ParseQuery(request)
    case Err(_) => Local(BuildErrorResponse(request, RCODE_FORMERR, false), MAX_UDP_PAYLOAD)
    case Ok(q) =>
      if q.opcode != 0 then Local(BuildErrorResponse(request, RCODE_NOTIMP, false), MAX_UDP_PAYLOAD)
      else if IsCanary(q.qname) then Local(BuildZeroIpResponse(request, ZERO_IP_TTL), UdpLimit(q.edns))
      else if Decide(rules, q.qname) == Block then Local(BlockAnswer(config, request), UdpLimit(q.edns))
      else Consult(q, UdpLimit(q.edns))
  }

  function KeyOf(q: Query): CacheKey {
    CacheKey(q.qnameWire, q.qtype, q.qclass, q.DnssecOk(), q.checkingDisabled)
  }

  /** A slot is shared exactly by the queries for the same raw name, type and class with the same DO and CD. */
  lemma SlotsAreExact(q: Query, q': Query)
    ensures KeyOf(q) == KeyOf(q') <==>
      && q.qnameWire == q'.qnameWire && q.qtype == q'.qtype && q.qclass == q'.qclass
      && (q.edns.WithEdns? && q.edns.dnssecOk <==> q'.edns.WithEdns? && q'.edns.dnssecOk)
      && q.checkingDisabled == q'.checkingDisabled
  {
  }

  /** An answer fetched without the client's OPT is filed in the DO=0 slot. */
  function StoreKey(q: Query, fw: Forwarded): CacheKey {
    if fw.ednsStripped && q.DnssecOk() then KeyOf(q).(dnssecOk := false) else KeyOf(q)
  }

  /** A fresh upstream answer as this client sees it, before egress normalization. */
  function Relay(q: Query, fw: Forwarded): seq<byte> {
    ForClient(fw.bytes, q.id, q.recursionDesired, q.checkingDisabled)
  }

  function ServFail(request: seq<byte>): Option<seq<byte>> {
    BuildErrorResponse(request, RCODE_SERVFAIL, false)
  }

  // ---- local answers ----

  lemma PlanIsConsult(config: ProxyConfig, rules: Rules, request: seq<byte>)
    requires PlanFor(config, rules, request).Consult?
    ensures ParseQuery(request) == Ok(PlanFor(config, rules, request).query) && HasHeader(request)
    ensures var q := PlanFor(config, rules, request).query;
      q.opcode == 0 && !IsCanary(q.qname) && Decide(rules, q.qname) == Allow
      && q.id == Id(request) && q.recursionDesired == Rd(request) && q.checkingDisabled == Cd(request)
  {
    hide Decide, BuildErrorResponse, BuildZeroIpResponse, BlockAnswer, FindOpt, ParseName, Present;
  }

  /** Every answer made without the cache or the upstream conforms and is small enough for any limit. */
  lemma LocalAnswerShape(config: ProxyConfig, rules: Rules, request: seq<byte>)
    requires PlanFor(config, rules, request).Local? && HasHeader(request)
    ensures var p := PlanFor(config, rules, request);
      && p.resp.Some? && Conforms(request, p.resp.value) && |p.resp.value| <= 299 && MAX_UDP_PAYLOAD <= p.limit
      && PlainLayout(p.resp.value)
  {
    hide BuildErrorResponse, BuildZeroIpResponse, Conforms, PlainLayout, ParseQuery, Decide, IsCanary;
    ErrorResponseShape(request, RCODE_FORMERR, false);
    ErrorResponseShape(request, RCODE_NOTIMP, false);
    ErrorResponseShape(request, RCODE_NXDOMAIN, true);
    ZeroIpResponseShape(request, ZERO_IP_TTL);
  }

  // ---- cache transparency ----

  lemma SplitAt4(a: seq<byte>, b: seq<byte>)
    requires |a| == |b| >= 4 && a[..4] == b[..4] && a[4..] == b[4..]
    ensures a == b
  {
    assert a == a[..4] + a[4..] && b == b[..4] + b[4..];
  }

  /** Header patches read and write the first four octets only. */
  lemma ForClientLocal(a: seq<byte>, b: seq<byte>, id: u16, rd: bool, cd: bool)
    requires HasHeader(a) && HasHeader(b) && a[..4] == b[..4]
    ensures ForClient(a, id, rd, cd)[..4] == ForClient(b, id, rd, cd)[..4]
    ensures ForClient(a, id, rd, cd)[4..] == a[4..] && ForClient(b, id, rd, cd)[4..] == b[4..]
  {
    assert forall i :: 0 <= i < 4 ==> a[i] == a[..4][i] == b[..4][i] == b[i];
  }

  /** Storing the stripped relay and patching it for another client strips to what that client's own relay strips to. */
  lemma PatchedCacheStrips(b: seq<byte>, id: u16, rd: bool, cd: bool, id': u16, rd': bool, cd': bool)
    requires HasHeader(b)
    ensures Strip(ForClient(Strip(ForClient(b, id, rd, cd)), id', rd', cd')) == Strip(ForClient(b, id', rd', cd'))
  {
    hide Strip, ForClient;
    var x, y := ForClient(b, id, rd, cd), ForClient(b, id', rd', cd');
    var s := Strip(x);
    var z := ForClient(s, id', rd', cd');
    StripShrinks(x);
    ForClientOverwrites(b, id, rd, cd, id', rd', cd');
    ForClientLocal(s, x, id', rd', cd');
    StripCommutesWithHeadEdit(x, y);
    SplitAt4(z, Strip(y));
    StripIdempotent(y);
  }

  /**
   Cache transparency: the bytes a later client gets from the slot are the bytes a fresh forward of the
   same upstream answer would have given it.
   */
  lemma CacheTransparency(request: seq<byte>, b: seq<byte>, id: u16, rd: bool, cd: bool, q: Query)
    requires HasHeader(b)
    ensures NormalizeClientEdns(
              request, ForClient(Strip(ForClient(b, id, rd, cd)), q.id, q.recursionDesired, q.checkingDisabled))
         == NormalizeClientEdns(request, Relay(q, Forwarded(b, false)))
  {
    hide Strip, ForClient, AppendOpt, ParseQuery;
    PatchedCacheStrips(b, id, rd, cd, q.id, q.recursionDesired, q.checkingDisabled);
  }

  // ---- runs of cache operations ----

  /**
   The two atomic cache operations of queries in flight, in whatever order they interleave. Rules may be
   edited between any two events, and the upstream of every store is arbitrary.
   */
  datatype Event =
    | Lookup(rules: Rules, request: seq<byte>, now: nat)
    | Store(rules: Rules, request: seq<byte>, viaTcp: bool, txid: u16, upstream: Upstream, purgeNow: nat, storeNow: nat)

  function FetchedBy(config: ProxyConfig, e: Event): (r: Option<Forwarded>)
    requires e.Store?
  {
    var plan := PlanFor(config, e.rules, e.request);
    if plan.Consult? then
      PlanIsConsult(config, e.rules, e.request);
      ForwardVia(e.upstream, e.request, e.viaTcp, e.txid)
    else None
  }

  ghost function Step(config: ProxyConfig, m: Entries, e: Event): (r: Entries) {
    var plan := PlanFor(config, e.rules, e.request);
    if plan.Local? then m
    else
      match e
      case Lookup(_, _, now) => AfterLookup(m, KeyOf(plan.query), now)
      case Store(_, _, _, _, _, purgeNow, storeNow) =>
        match FetchedBy(config, e)
        case None => m
        case Some(fw) =>
          Stored(m, StoreKey(plan.query, fw), Strip(Relay(plan.query, fw)), config.cache, purgeNow, storeNow)
  }

  ghost function Run(config: ProxyConfig, events: seq<Event>): (m: Entries) {
    if events == [] then map[] else Step(config, Run(config, events[..|events| - 1]), events[|events| - 1])
  }

  /** Event `e` put exactly this entry under this key. */
  ghost predicate Origin(config: ProxyConfig, e: Event, key: CacheKey, entry: CacheEntry) {
    e.Store? && FetchedBy(config, e).Some? &&
    var q, fw := PlanFor(config, e.rules, e.request).query, FetchedBy(config, e).value;
    var answer := Strip(Relay(q, fw));
    && key == StoreKey(q, fw) && entry.bytes == answer
    && ResponseInfoOf(answer).Some? && LifetimeOf(config.cache, ResponseInfoOf(answer).value).Some?
    && entry.expiresAt == e.storeNow + LifetimeOf(config.cache, ResponseInfoOf(answer).value).value
  }

  ghost predicate HasOrigin(config: ProxyConfig, events: seq<Event>, key: CacheKey, entry: CacheEntry) {
    exists i :: 0 <= i < |events| && Origin(config, events[i], key, entry)
  }

  lemma StepKeepsOrAdds(config: ProxyConfig, m: Entries, e: Event, key: CacheKey)
    requires key in Step(config, m, e)
    ensures (key in m && m[key] == Step(config, m, e)[key]) || Origin(config, e, key, Step(config, m, e)[key])
  {
    hide PlanFor, FetchedBy, Strip, Relay, ResponseInfoOf, LifetimeOf, Full;
  }

  /** Over every run, everything in the cache was put there by one of the run's own stores. */
  lemma {:induction false} RunHasOrigins(config: ProxyConfig, events: seq<Event>, key: CacheKey)
    ensures key in Run(config, events) ==> HasOrigin(config, events, key, Run(config, events)[key])
    decreases |events|
  {
    hide Step, Origin;
    if key in Run(config, events) {
      var n := |events| - 1;
      var before := events[..n];
      StepKeepsOrAdds(config, Run(config, before), events[n], key);
      if !Origin(config, events[n], key, Run(config, events)[key]) {
        RunHasOrigins(config, before, key);
        var i :| 0 <= i < |before| && Origin(config, before[i], key, Run(config, before)[key]);
        assert events[i] == before[i];
      }
    }
  }

  /** Over every run the cache stays within its entry and byte bounds. */
  lemma {:induction false} RunWithinBounds(config: ProxyConfig, events: seq<Event>)
    ensures WithinBounds(Run(config, events), config.cache)
    decreases |events|
  {
    if events != [] {
      var n := |events| - 1;
      RunWithinBounds(config, events[..n]);
      hide WithinBounds, FetchedBy, PlanFor, Stored;
      var m, e := Run(config, events[..n]), events[n];
      var plan := PlanFor(config, e.rules, e.request);
      if plan.Consult? {
        match e
        case Lookup(_, _, now) => LookupWithinBounds(m, KeyOf(plan.query), config.cache, now);
        case Store(_, _, _, _, _, purgeNow, storeNow) =>
          if FetchedBy(config, e).Some? {
            var fw := FetchedBy(config, e).value;
            var stripped := Strip(Relay(plan.query, fw));
            StoredWithinBounds(m, StoreKey(plan.query, fw), stripped, config.cache, purgeNow, storeNow);
          }
      }
    } else {
      NothingWithinBounds(config.cache);
    }
  }

  lemma NothingWithinBounds(config: CacheConfig)
    ensures WithinBounds(map[], config)
  {
  }
}

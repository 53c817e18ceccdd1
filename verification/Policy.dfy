/** What the pipeline decides before it looks at the cache, in terms of the labels asked for. */
module Policy {
  import opened Bytes
  import opened Names
  import opened Presentation
  import opened Header
  import opened Edns
  import opened Responses
  import opened Queries
  import opened Cache
  import opened Forwarding
  import opened Replies
  import opened ProbeQuery
  import opened Filter
  import opened Engine
  import opened Serving
  import opened Proxy

  /** `webguard-test.sentinella.invalid`. */
  const CANARY_LABELS: seq<Label> := [
    [0x77, 0x65, 0x62, 0x67, 0x75, 0x61, 0x72, 0x64, 0x2D, 0x74, 0x65, 0x73, 0x74],
    [0x73, 0x65, 0x6E, 0x74, 0x69, 0x6E, 0x65, 0x6C, 0x6C, 0x61],
    [0x69, 0x6E, 0x76, 0x61, 0x6C, 0x69, 0x64]]

  lemma CanaryLabel(l: Label, s: string)
    requires |l| == |s| && PlainOctets(l) && DotFree(l)
    requires forall i :: 0 <= i < |l| ==> l[i] as char == s[i]
    ensures Escape(l) == s
  {
    EscapePlain(l);
    assert AsText(l) == s;
  }

  lemma CanaryOctets()
    ensures forall l :: l in CANARY_LABELS ==> PlainOctets(l) && DotFree(l)
  {
  }

  lemma CanaryPresents()
    ensures Present(CANARY_LABELS) == CANARY_DOMAIN && LegalLabels(CANARY_LABELS)
  {
    hide Escape, Present, PlainOctets, DotFree;
    var a, b, c := CANARY_LABELS[0], CANARY_LABELS[1], CANARY_LABELS[2];
    CanaryOctets();
    CanaryLabel(a, "webguard-test");
    CanaryLabel(b, "sentinella");
    CanaryLabel(c, "invalid");
    assert CANARY_LABELS == [a] + [b, c] && [b, c] == [b] + [c];
    PresentCons(a, [b, c]);
    PresentCons(b, [c]);
    PresentOne(c);
  }

  /** The canary is exactly the name with those three labels, up to ASCII case. */
  lemma CanaryExactly(ls: seq<Label>)
    requires LegalName(ls)
    ensures IsCanary(Present(ls)) <==> LowerLabels(ls) == CANARY_LABELS
  {
    hide Present, LowerLabels;
    CanaryPresents();
    CanaryIsLower();
    LowerPresent(ls);
    LowerPresent(CANARY_LABELS);
    LowerLabelsShape(ls);
    if IsCanary(Present(ls)) { PresentInjective(LowerLabels(ls), CANARY_LABELS); }
  }

  lemma CanaryIsLower()
    ensures LowerLabels(CANARY_LABELS) == CANARY_LABELS
  {
    var a, b, c := CANARY_LABELS[0], CANARY_LABELS[1], CANARY_LABELS[2];
    assert Lower(a) == a && Lower(b) == b && Lower(c) == c;
    assert CANARY_LABELS[1..] == [b, c] && [b, c][1..] == [c] && [c][1..] == [];
  }

  // ---- what each query meets, in order ----

  /** No allow rule and some block rule matches the labels; the root is never blocked. */
  ghost predicate Blocked(rules: Rules, ls: seq<Label>) {
    && ls != []
    && !ExactHit(rules.allowExact, ls) && !SuffixHit(rules.allowSuffix, ls)
    && (ExactHit(rules.blockExact, ls) || SuffixHit(rules.blockSuffix, ls))
  }

  /** A reply built here with this rcode, as octets on the wire say. */
  ghost predicate RepliesWith(resp: Option<seq<byte>>, rcode: byte, aa: bool) {
    resp.Some? && HasHeader(resp.value) && Rcode(resp.value) == rcode && Aa(resp.value) == aa && !Tc(resp.value)
  }

  lemma ErrorRepliesWith(request: seq<byte>, rcode: byte, aa: bool)
    requires HasHeader(request) && rcode < 16
    ensures RepliesWith(BuildErrorResponse(request, rcode, aa), rcode, aa)
  {
    hide BuildErrorResponse, LocalReply, PlainLayout, Rcode, Aa, Tc;
    ErrorResponseShape(request, rcode, aa);
  }

  lemma BlockedExactly(rules: Rules, ls: seq<Label>)
    requires LegalName(ls)
    ensures Decide(rules, Present(ls)) == Block <==> Blocked(rules, ls)
  {
    hide Decide, Present, LegalName;
    if ls == [] { RootIsAllowed(rules); } else { DecideIsLabelMatching(rules, ls); }
  }

  /**
   Malformed queries get FORMERR (1) and foreign opcodes NOTIMP (4), before anything else; the canary then gets its
   signature whatever the rules; a blocked name gets NXDOMAIN (3) with AA or the null address, as configured; and
   everything else goes on to cache and upstream.
   */
  lemma PolicyInOrder(config: ProxyConfig, rules: Rules, request: seq<byte>)
    requires HasHeader(request)
    ensures var plan := PlanFor(config, rules, request);
      if ParseQuery(request).Err? then plan.Local? && RepliesWith(plan.resp, 1, false)
      else
        var q, ls := ParseQuery(request).value, QuestionLabels(request);
        if q.opcode != 0 then plan.Local? && RepliesWith(plan.resp, 4, false)
        else if LowerLabels(ls) == CANARY_LABELS then
          plan.Local? && plan.resp == BuildZeroIpResponse(request, 60)
        else if Blocked(rules, ls) then
          plan.Local? && if config.blockResponse.Nxdomain? then RepliesWith(plan.resp, 3, true)
                         else plan.resp == BuildZeroIpResponse(request, 60)
        else plan == Consult(q, UdpLimit(q.edns))
  {
    hide ParseQuery, Decide, IsCanary, BuildErrorResponse, BuildZeroIpResponse, Blocked, RepliesWith, LowerLabels,
      LegalName, QuestionLabels;
    ErrorRepliesWith(request, RCODE_FORMERR, false);
    ErrorRepliesWith(request, RCODE_NOTIMP, false);
    ErrorRepliesWith(request, RCODE_NXDOMAIN, true);
    if ParseQuery(request).Ok? {
      QueryMeaning(request);
      CanaryExactly(QuestionLabels(request));
      BlockedExactly(rules, QuestionLabels(request));
    }
  }

  /** A query that goes on is answered from its slot if it can be, else by its upstream, else with SERVFAIL (2). */
  lemma AnswersInOrder(
    config: ProxyConfig, rules: Rules, m: Entries, request: seq<byte>, up: Option<Upstream>,
    viaTcp: bool, txid: u16, now: nat)
    requires PlanFor(config, rules, request).Consult? && HasHeader(request) && ParseQuery(request).Ok?
    ensures var q, a := PlanFor(config, rules, request).query,
        AnswerFor(config, rules, m, request, up, viaTcp, txid, now);
      var key := CacheKey(q.qnameWire, q.qtype, q.qclass, q.DnssecOk(), q.checkingDisabled);
      a.Some? &&
      if key in m && now < m[key].expiresAt then
        a.value.resp == ForClient(m[key].bytes, q.id, q.recursionDesired, q.checkingDisabled)
      else if up.Some? && ForwardVia(up.value, request, viaTcp, txid).Some? then
        var b := ForwardVia(up.value, request, viaTcp, txid).value.bytes;
        a.value.resp == ForClient(b, q.id, q.recursionDesired, q.checkingDisabled)
      else RepliesWith(Some(a.value.resp), 2, false)
  {
    hide PlanFor, ForwardVia, ForClient, BuildErrorResponse, RepliesWith;
    ErrorRepliesWith(request, RCODE_SERVFAIL, false);
    ServFailExists(request);
  }

  lemma ServFailExists(request: seq<byte>)
    requires HasHeader(request)
    ensures ServFail(request).Some? && ServFail(request) == BuildErrorResponse(request, RCODE_SERVFAIL, false)
  {
  }

  /** A query answered here, from its slot, or not at all leaves the cache to lookups: nothing is stored. */
  lemma NothingIsStored(
    config: ProxyConfig, rules: Rules, m: Entries, request: seq<byte>, up: Option<Upstream>,
    viaTcp: bool, txid: u16, now: nat, purgeNow: nat, storeNow: nat)
    ensures var plan := PlanFor(config, rules, request);
      var after := EntriesAfter(config, rules, m, request, up, viaTcp, txid, now, purgeNow, storeNow);
      && (plan.Local? ==> after == m)
      && (plan.Consult? && KeyOf(plan.query) in m && now < m[KeyOf(plan.query)].expiresAt ==> after == m)
      && (plan.Consult? && up.None? ==> after == AfterLookup(m, KeyOf(plan.query), now))
  {
    hide PlanFor, ForwardVia, ForClient, Stored, Strip;
  }

  /** The circumstances in which the answer to a query is fetched and stored for itself. */
  ghost predicate IsFetched(
    config: ProxyConfig, rules: Rules, m: Entries, request: seq<byte>, up: Upstream, viaTcp: bool, txid: u16, now: nat)
  {
    var plan := PlanFor(config, rules, request);
    && plan.Consult? && ParseQuery(request) == Ok(plan.query) && ForwardVia(up, request, viaTcp, txid).Some?
    && !(KeyOf(plan.query) in m && now < m[KeyOf(plan.query)].expiresAt)
    && !(plan.query.DnssecOk() && ForwardVia(up, request, viaTcp, txid).value.ednsStripped)
  }

  /**
   The cache works: a query whose answer is fetched and may be kept, when there is room, is answered from the cache
   the next time, whatever the upstream does by then, until the promised moment; with the very same octets.
   */
  lemma SecondQueryHits(
    config: ProxyConfig, rules: Rules, m: Entries, request: seq<byte>, up: Upstream, viaTcp: bool, txid: u16,
    now: nat, purgeNow: nat, storeNow: nat, up': Option<Upstream>, viaTcp': bool, txid': u16, now': nat)
    requires IsFetched(config, rules, m, request, up, viaTcp, txid, now)
    ensures var q := PlanFor(config, rules, request).query;
      var b := ForwardVia(up, request, viaTcp, txid).value.bytes;
      var answer := Strip(ForClient(b, q.id, q.recursionDesired, q.checkingDisabled));
      var looked := AfterLookup(m, KeyOf(q), now);
      var after := EntriesAfter(config, rules, m, request, Some(up), viaTcp, txid, now, purgeNow, storeNow);
      var again := AnswerFor(config, rules, after, request, up', viaTcp', txid', now');
      ResponseInfoOf(answer).Some? && LifetimeOf(config.cache, ResponseInfoOf(answer).value).Some?
      && !Full(looked, KeyOf(q), |answer|, config.cache)
      && now' < storeNow + LifetimeOf(config.cache, ResponseInfoOf(answer).value).value ==>
        again.Some? && again.value.resp == ForClient(answer, q.id, q.recursionDesired, q.checkingDisabled)
  {
    hide PlanFor, ForwardVia, ForClient, Strip, ParseQuery, ResponseInfoOf, LifetimeOf, Full;
  }
}

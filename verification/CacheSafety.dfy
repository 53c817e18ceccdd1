/** What the cache can ever hold and serve, over every interleaving and against every upstream. */
module CacheSafety {
  import opened Bytes
  import opened Names
  import opened Presentation
  import opened Header
  import opened Records
  import opened Edns
  import opened Queries
  import opened Responses
  import opened Replies
  import opened OwnQuestion
  import opened Cache
  import opened Forwarding
  import opened Serving

  /** The header bits and summary of what is stored. */
  lemma StoredFacts(b: seq<byte>, id: u16, ls: seq<Label>, qtype: u16, qclass: u16, q: Query)
    requires LegalName(ls) && ValidateResponse(b, id, QuestionBytes(ls, qtype, qclass)).Some?
    ensures var stored := Strip(ForClient(b, q.id, q.recursionDesired, q.checkingDisabled));
      && HasHeader(stored) && Qr(stored)
      && AnswersQuestion(stored, ls, qtype, qclass)
      && ResponseInfoOf(stored) == ValidateResponse(b, id, QuestionBytes(ls, qtype, qclass))
  {
    hide ValidateResponse, QuestionBytes, ResponseInfoOf, Strip, ForClient, ParseName, LowerLabels, WireLen, U16At, Qr;
    ValidatedAnswers(b, id, ls, qtype, qclass);
    ValidatedEchoesQuestion(b, id, ls, qtype, qclass);
    hide AnswersQuestion;
    var x := ForClient(b, q.id, q.recursionDesired, q.checkingDisabled);
    ForClientMeaning(b, q.id, q.recursionDesired, q.checkingDisabled);
    ForClientAnswers(b, ls, qtype, qclass, q.id, q.recursionDesired, q.checkingDisabled);
    InfoForClient(b, q.id, q.recursionDesired, q.checkingDisabled);
    StripAnswers(x, ls, qtype, qclass);
    InfoStrip(x);
    StripShrinks(x);
    HeaderFromPrefix(x, Strip(x));
  }

  // ---- what an entry's origin says ----

  lemma OriginMeaning(config: ProxyConfig, e: Event, key: CacheKey, entry: CacheEntry) returns (ls: seq<Label>)
    requires Origin(config, e, key, entry)
    ensures LegalName(ls) && key.qnameWire == Encode(ls) && !IsCanary(Present(ls))
    ensures HasHeader(entry.bytes) && Qr(entry.bytes) && ResponseInfoOf(entry.bytes).Some?
    ensures AnswersQuestion(entry.bytes, ls, key.qtype, key.qclass)
    ensures AnswerTo(e.upstream,
        if FetchedBy(config, e).value.ednsStripped then PlainQuery(e.request, e.txid) else FullQuery(e.request, e.txid),
        e.txid, QuestionBytes(ls, key.qtype, key.qclass), FetchedBy(config, e).value.bytes)
    ensures ValidateResponse(FetchedBy(config, e).value.bytes, e.txid, QuestionBytes(ls, key.qtype, key.qclass))
         == ResponseInfoOf(entry.bytes)
    ensures key.dnssecOk ==> !FetchedBy(config, e).value.ednsStripped && ParseQuery(e.request).value.DnssecOk()
  {
    hide PlanFor, ForwardVia, Strip, ResponseInfoOf, LifetimeOf, ParseQuery, QuestionLabels, QuestionOf,
      QuestionBytes, Encode, Present, LegalName, AnswerTo, ForClient, ValidateResponse, AnswersQuestion, PlainQuery,
      FullQuery, IsCanary, Qr;
    var q, fw := PlanFor(config, e.rules, e.request).query, FetchedBy(config, e).value;
    PlanIsConsult(config, e.rules, e.request);
    QueryMeaning(e.request);
    ls := QuestionLabels(e.request);
    ForwardedIsValidated(e.upstream, e.request, e.viaTcp, e.txid);
    AnswerIsValid(e.upstream, if fw.ednsStripped then PlainQuery(e.request, e.txid) else FullQuery(e.request, e.txid),
      e.txid, QuestionOf(e.request), fw.bytes);
    StoredFacts(fw.bytes, e.txid, ls, q.qtype, q.qclass, q);
  }

  lemma AnswerIsValid(up: Upstream, packet: seq<byte>, id: u16, question: seq<byte>, answer: seq<byte>)
    requires AnswerTo(up, packet, id, question, answer)
    ensures ValidateResponse(answer, id, question).Some?
  {
  }

  /**
   What the query `e` that filled the slot of `q` asked: the same name, type, class and CD as `q`, so that validation
   was wanted upstream exactly if `q` wants it; with DO if `q` has DO; and if only it had DO, its OPT was dropped
   before the answer was fetched. So the upstream was asked with exactly the DO bit of `q`.
   */
  ghost predicate AskedAlike(config: ProxyConfig, e: Event, q: Query) {
    e.Store? && FetchedBy(config, e).Some? && ParseQuery(e.request).Ok? &&
    var asked, stripped := ParseQuery(e.request).value, FetchedBy(config, e).value.ednsStripped;
    && asked.qnameWire == q.qnameWire && asked.qtype == q.qtype && asked.qclass == q.qclass
    && asked.checkingDisabled == q.checkingDisabled
    && (q.edns.WithEdns? && q.edns.dnssecOk <==> asked.edns.WithEdns? && asked.edns.dnssecOk && !stripped)
  }

  lemma OriginAskedAlike(config: ProxyConfig, e: Event, q: Query, entry: CacheEntry)
    requires Origin(config, e, KeyOf(q), entry)
    ensures AskedAlike(config, e, q)
  {
    hide PlanFor, ForwardVia, Strip, ResponseInfoOf, LifetimeOf, ParseQuery, ForClient;
    PlanIsConsult(config, e.rules, e.request);
  }

  /** When an entry stops being served, given when it was stored and what it says. */
  ghost predicate ExpiresAsPromised(config: CacheConfig, entry: CacheEntry, storeNow: nat) {
    ResponseInfoOf(entry.bytes).Some? &&
    var info := ResponseInfoOf(entry.bytes).value;
    if info.rcode == RCODE_NXDOMAIN then entry.expiresAt == storeNow + config.negativeTtl
    else
      && info.rcode == RCODE_NOERROR && info.minTtl.Some? && info.minTtl.value > 0
      && entry.expiresAt == storeNow + Min(info.minTtl.value * SECOND, config.maxTtl)
  }

  /**
   Cache safety over whole runs. Every entry was fetched by some query of the run for exactly the entry's
   own question: a validated response whose question is the key's name up to ASCII case with the key's
   type and class; never for the canary; never into a DO slot by an exchange that dropped the client's
   OPT; and it expires at its store time plus min(smallest answer TTL, max_ttl), or negative_ttl.
   */
  lemma CacheSafety(config: ProxyConfig, events: seq<Event>, key: CacheKey)
    ensures key in Run(config, events) ==> exists i, ls: seq<Label> ::
      && 0 <= i < |events| && events[i].Store?
      && Origin(config, events[i], key, Run(config, events)[key])
      && LegalName(ls) && key.qnameWire == Encode(ls) && !IsCanary(Present(ls))
      && AnswersQuestion(Run(config, events)[key].bytes, ls, key.qtype, key.qclass)
      && (key.dnssecOk ==> !FetchedBy(config, events[i]).value.ednsStripped)
      && ExpiresAsPromised(config.cache, Run(config, events)[key], events[i].storeNow)
  {
    hide Origin, Run, FetchedBy, AnswersQuestion, Encode, Present, IsCanary, LegalName;
    RunHasOrigins(config, events, key);
    if key in Run(config, events) {
      var entry := Run(config, events)[key];
      var i :| 0 <= i < |events| && Origin(config, events[i], key, entry);
      OriginIsStore(config, events[i], key, entry);
      var ls := OriginMeaning(config, events[i], key, entry);
      OriginExpiry(config, events[i], key, entry);
    }
  }

  lemma OriginIsStore(config: ProxyConfig, e: Event, key: CacheKey, entry: CacheEntry)
    requires Origin(config, e, key, entry)
    ensures e.Store? && FetchedBy(config, e).Some?
  {
  }

  lemma OriginExpiry(config: ProxyConfig, e: Event, key: CacheKey, entry: CacheEntry)
    requires Origin(config, e, key, entry)
    ensures e.Store? && ExpiresAsPromised(config.cache, entry, e.storeNow)
  {
    hide PlanFor, FetchedBy, Strip, ResponseInfoOf, Relay, StoreKey;
  }

  /**
   Conversely the cache does cache: a storable answer that finds room is served under its key from then on,
   until exactly the moment its store promised, and no longer.
   */
  lemma StoredAnswerIsServed(config: ProxyConfig, events: seq<Event>, e: Event, id: u16, rd: bool, cd: bool, now: nat)
    ensures e.Store? && PlanFor(config, e.rules, e.request).Consult? && ParseQuery(e.request).Ok?
            && ForwardVia(e.upstream, e.request, e.viaTcp, e.txid).Some? ==>
      var q, fw := PlanFor(config, e.rules, e.request).query, ForwardVia(e.upstream, e.request, e.viaTcp, e.txid).value;
      var answer := Strip(Relay(q, fw));
      ResponseInfoOf(answer).Some? && LifetimeOf(config.cache, ResponseInfoOf(answer).value).Some?
      && !Full(Run(config, events), StoreKey(q, fw), |answer|, config.cache) ==>
        var ttl := LifetimeOf(config.cache, ResponseInfoOf(answer).value).value;
        Hit(Run(config, events + [e]), StoreKey(q, fw), id, rd, cd, now)
        == if now < e.storeNow + ttl then Some(ForClient(answer, id, rd, cd)) else None
  {
    hide Strip, Relay, ResponseInfoOf, LifetimeOf, Full, ForClient, PlanFor, ForwardVia, StoreKey, ParseQuery;
    assert (events + [e])[..|events|] == events;
  }

  /** A served answer is live: the clock has not reached the moment its store promised. */
  lemma HitIsLive(config: ProxyConfig, events: seq<Event>, q: Query, now: nat)
    requires Hit(Run(config, events), KeyOf(q), q.id, q.recursionDesired, q.checkingDisabled, now).Some?
    ensures exists i ::
      && 0 <= i < |events| && events[i].Store?
      && Origin(config, events[i], KeyOf(q), Run(config, events)[KeyOf(q)])
      && ExpiresAsPromised(config.cache, Run(config, events)[KeyOf(q)], events[i].storeNow)
      && now < Run(config, events)[KeyOf(q)].expiresAt
  {
    hide Run, Origin, ForClient;
    RunHasOrigins(config, events, KeyOf(q));
    var i :| 0 <= i < |events| && Origin(config, events[i], KeyOf(q), Run(config, events)[KeyOf(q)]);
    OriginExpiry(config, events[i], KeyOf(q), Run(config, events)[KeyOf(q)]);
  }

  /** No spelling of the canary name is ever a key. */
  lemma CanaryNeverCached(config: ProxyConfig, events: seq<Event>, key: CacheKey, ls: seq<Label>)
    requires LegalName(ls) && IsCanary(Present(ls)) && key.qnameWire == Encode(ls)
    ensures key !in Run(config, events)
  {
    hide Run, Origin, Encode, Present, IsCanary, AnswersQuestion, LegalName;
    if key in Run(config, events) {
      RunHasOrigins(config, events, key);
      var i :| 0 <= i < |events| && Origin(config, events[i], key, Run(config, events)[key]);
      var ls' := OriginMeaning(config, events[i], key, Run(config, events)[key]);
      EncodeInjective(ls, ls');
    }
  }

  /** No walkable entry carries an OPT record, whatever the upstream sent. */
  lemma OptNeverCached(config: ProxyConfig, events: seq<Event>, key: CacheKey)
    requires key in Run(config, events) && LayoutOf(Run(config, events)[key].bytes).Some?
    ensures OptsOf(LayoutOf(Run(config, events)[key].bytes).value.records) == []
  {
    hide Run, OptsOf, LayoutOf, Origin, FetchedBy, Relay, Strip;
    RunHasOrigins(config, events, key);
    var i :| 0 <= i < |events| && Origin(config, events[i], key, Run(config, events)[key]);
    var q, fw := OriginParts(config, events[i], key, Run(config, events)[key]);
    StrippedHasNoOpt(Relay(q, fw));
  }

  lemma StrippedHasNoOpt(b: seq<byte>)
    requires LayoutOf(Strip(b)).Some?
    ensures OptsOf(LayoutOf(Strip(b)).value.records) == []
  {
    hide LayoutOf, Keep, OptsOf, Strip, RecBytes;
    if LayoutOf(b).Some? {
      StripLayout(b, LayoutOf(b).value);
      KeepTwice(LayoutOf(b).value.records);
    } else {
      StripUnwalkable(b);
    }
  }

  /**
   Transparency over whole runs: what a client is served from the cache is byte for byte what a fresh forward of the
   very answer behind the entry would have given it, and that answer was fetched for a query asked alike: same raw
   name, type, class and CD, and the upstream saw the client's own DO bit.
   */
  lemma HitEqualsFreshForward(config: ProxyConfig, events: seq<Event>, request: seq<byte>, q: Query, now: nat)
    requires ParseQuery(request) == Ok(q)
    requires Hit(Run(config, events), KeyOf(q), q.id, q.recursionDesired, q.checkingDisabled, now).Some?
    ensures exists i ::
      && 0 <= i < |events| && events[i].Store? && FetchedBy(config, events[i]).Some?
      && Origin(config, events[i], KeyOf(q), Run(config, events)[KeyOf(q)])
      && AskedAlike(config, events[i], q)
      && NormalizeClientEdns(
           request, Hit(Run(config, events), KeyOf(q), q.id, q.recursionDesired, q.checkingDisabled, now).value)
      == NormalizeClientEdns(request, Relay(q, FetchedBy(config, events[i]).value))
  {
    var entry := Run(config, events)[KeyOf(q)];
    hide Run, Origin, FetchedBy, ForClient, NormalizeClientEdns, ParseQuery, Strip, PlanFor, AskedAlike;
    RunHasOrigins(config, events, KeyOf(q));
    var i :| 0 <= i < |events| && Origin(config, events[i], KeyOf(q), entry);
    var q', fw := OriginParts(config, events[i], KeyOf(q), entry);
    OriginAskedAlike(config, events[i], q, entry);
    CacheTransparency(request, fw.bytes, q'.id, q'.recursionDesired, q'.checkingDisabled, q);
  }

  lemma OriginParts(config: ProxyConfig, e: Event, key: CacheKey, entry: CacheEntry) returns (q: Query, fw: Forwarded)
    requires Origin(config, e, key, entry)
    ensures e.Store? && FetchedBy(config, e) == Some(fw) && entry.bytes == Strip(Relay(q, fw)) && HasHeader(fw.bytes)
  {
    hide PlanFor, Strip, ResponseInfoOf, LifetimeOf, ForClient;
    q, fw := PlanFor(config, e.rules, e.request).query, FetchedBy(config, e).value;
    StoredHasHeader(Relay(q, fw));
  }

  lemma StoredHasHeader(b: seq<byte>)
    requires ResponseInfoOf(Strip(b)).Some?
    ensures HasHeader(b)
  {
    hide Strip, LayoutOf;
    StripShrinks(b);
  }
}

# Verification of the filtering DNS proxy, score aggregation and scan executor

This project models three parts of the repository in Dafny and proves what they promise.

**dnsguard, the filtering DNS proxy.** Packets are `seq<byte>`. The wire codec is modelled down to its
offsets (`Names`, `Records`, `Header`, `Edns`, `Presentation`, `Queries`, `Responses`, `Replies`,
`OwnQuestion`, `ProbeQuery`), the domain filter and its list loader down to characters and tokens (`Filter`, `Engine`,
`ListText`, `ListLines`, `ListLoads`, `Loader`), the response cache and the query pipeline as classes with their real
fields (`Cache`, `Buffer`, `Policy`, `Proxy`), and TCP service as a loop under a deadline and as a step system (`TcpConnection`,
`Admission`). The upstream is an arbitrary adversary (`Forwarding`), and the safety theorems speak of every run
(`Serving`, `CacheSafety`).

The codec rests on one family of lemmas: no compression pointer is ever followed, so names and records depend on
their own octets only, wherever they stand (`SkipNameMoves`, `RecordMoves`). Stripping therefore amounts
to filtering a list of records, and commutes with header edits, which is what cache transparency needs.
The filter's fast form, escaped strings cut at unescaped dots, is proved to compute a relation on label lists.

**ARGUS score aggregation.** Findings are sorted, deduplicated per behaviour and layer, capped per layer,
discounted and given a verdict in place on an array (`Aggregation`), against a specification on sequences (`Scoring`,
`Findings`, `Convergence`, `Progression`). Results are shown independent of order by reducing them to
the multiset of evidence that weighs something. `Mitigation` is the installer pass that runs before, with its veto and ledger.

**AMSI executor.** The worker pool, the per-call reply channels and the breaker are a step system in which
jobs may never return and workers may die (`Executor`, `Breaker`).

Standards: RFC 1035 sections 3.1, 4.1 and 4.2.2; RFC 4343 sections 2.1 and 3; RFC 6891 sections 6.1.1 and
6.2.3; RFC 3225 section 3; RFC 2181 section 9.

Where the code does less than its documentation suggests, the code is followed and the exact condition proved:

- An accepted rule, exact or suffix, matches anything only if its text denotes octets and is spelled as the wire
  layer would spell them. The rules `\a` and `\999` are accepted and counted, and never match (`StoredRuleMeaning`,
  `MisspelledNeverMatches`, `EscapedLetterRuleIsDead`, `OutOfRangeRuleIsDead`).
- A rule budget of zero is exceeded by one rule exactly when a domain list's first decoded line in reach carries an
  acceptable rule, because such lines are parsed without looking at the room left; from a budget of one on, and for
  hosts files always, it holds (`ZeroBudgetExceeded`, `ZeroBudgetOverrun`).
- A load can add a rule that no line of the list contains: when the octet limit cuts a line and the byte accounts lag
  at least two octets behind (CR LF endings, undecodable lines), the fragment is parsed as if it were a line
  (`FragmentParsedExactly`, `RulesComeFromWholeLines`, `PlainInputAddsNoFragment`, `FragmentBecomesRule`).
- Connections get pool permits in the order in which their tasks first ask. A later arrival can overtake an earlier
  one exactly when there are two or more queue slots and a permit to get (`AdmissionSafety`, `OvertakingExactly`,
  `LaterArrivalGrantedFirst`).
- A requester's OPT is lost exactly when the answer's ARCOUNT field is 65535, whatever records it holds; such answers
  pass validation (`EgressExactly`, `OverCountedLosesOpt`).
- A name given to the query builder survives the round trip only if it is printable and free of
  backslashes (`BuildQueryRoundTrip`, `BackslashIsNotRoundTripped`).
- The root name is never blocked, whatever the rules (`RootIsAllowed`).

Conventions. A method with a loop is proved equal to a function; the lemmas are about that function. Clock readings,
transaction ids, upstream octets, scheduling and job results are parameters, and every theorem holds for all of them.
Unsigned sums of weights and counters are unbounded.

## Model

| member | source | states |
|---|---|---|
| `Names.ParsedNameIsEncoding` | crates/dnsguard/src/wire.rs:259-290 | whatever the question-name parser accepts is a legal name (labels of 1-63 octets, at most 255 on the wire) and stands in the packet as the length-prefixed encoding of exactly the labels returned, ending at the returned offset |
| `Names.EncodingParses` | crates/dnsguard/src/wire.rs:259-290 | conversely every encoding of a legal name parses to that name, wherever it stands and whatever follows |
| `Names.NameErrors` | crates/dnsguard/src/wire.rs:259-290 | which error a name that does not parse gets, by its first octet that is no length or whose label does not fit |
| `Names.FoldedEncodingParses` | crates/dnsguard/src/wire.rs:384-416 | octets equal to a legal encoding up to ASCII case parse to the same label boundaries and case-equal labels: folding cannot weaken label structure |
| `Names.EncodeInjective` | crates/dnsguard/src/wire.rs:259-290 | two legal names with the same octets are the same label list |
| `Records.SkipNameLoop` | crates/dnsguard/src/wire.rs:317-338 | the skipping loop computes the recursive skip: stops at the root octet or just past a pointer, never follows one |
| `Records.SkipNameMoves` | crates/dnsguard/src/wire.rs:317-338 | a skipped name depends on its own span only: the same octets elsewhere are skipped alike |
| `Records.RecordMoves` | crates/dnsguard/src/wire.rs:764-773 | the span and OPT-ness of a record depend on its own octets only |
| `Records.WalkTiles` | crates/dnsguard/src/wire.rs:708-773 | a successful walk returns well-formed records whose octets tile the walked span exactly |
| `Records.TilesWalk` | crates/dnsguard/src/wire.rs:708-773 | conversely any run of well-formed records is walked as that run wherever it stands |
| `Header.ForClientMeaning` | crates/dnsguard/src/wire.rs:478-491 | patched for a client, a message has that client's id, RD and CD, AD clear, and every other header bit and octet as received |
| `Header.ForClientOverwrites` | crates/dnsguard/src/proxy.rs:476-493 | patching for one client and then another is patching for the last: a cached message carries nothing over from the requester it was fetched for |
| `Header.ResponseFlagsMeaning` | crates/dnsguard/src/wire.rs:626-650 | the flag octets of local replies: QR and RA set, opcode, RD and CD echoed, AD clear, the AA, TC and rcode asked for |
| `Edns.AdditionalSectionStart` | crates/dnsguard/src/wire.rs:739-760 | the header, question and record loops find the additional section exactly where the record walk says it is, or fail exactly when it does |
| `Edns.SkipQuestions` | crates/dnsguard/src/wire.rs:739-760 | the question loop steps over each name and its four fixed octets, or fails on the first that does not fit |
| `Edns.WalkRecords` | crates/dnsguard/src/wire.rs:739-760 | the answer and authority loop ends where the record walk ends, and fails exactly when it does |
| `Edns.KeepLoop` | crates/dnsguard/src/wire.rs:708-736 | the keep loop emits the prefix plus exactly the non-OPT records, counts them, and fails iff some record is unwalkable |
| `Edns.StripOptRecords` | crates/dnsguard/src/wire.rs:708-736 | the loop form equals the specification of stripping on every message |
| `Edns.StripLayout` | crates/dnsguard/src/wire.rs:708-736 | the stripped message walks to exactly the non-OPT records of the original, in order and verbatim, starting where they did |
| `Edns.StripKeepsTheRest` | crates/dnsguard/src/wire.rs:708-736 | only the additional section and ARCOUNT change: header before it, earlier sections and trailing octets verbatim, ARCOUNT the number of records kept |
| `Edns.KeepIsFilter` | crates/dnsguard/src/wire.rs:708-736 | the kept records are the multiset of all records less the OPTs; no OPT survives and nothing else is lost |
| `Edns.StripUnwalkable` | crates/dnsguard/src/wire.rs:708-736 | a message that cannot be walked is returned unchanged |
| `Edns.StripIdempotent` | crates/dnsguard/src/wire.rs:708-736 | stripping twice is stripping once, on every message |
| `Edns.StripCommutesWithHeadEdit` | crates/dnsguard/src/wire.rs:708-736 | stripping commutes with any edit of the first four octets (id and flags) |
| `Edns.AppendLayout` | crates/dnsguard/src/wire.rs:783-799 | on a walkable message ending with its last record, exactly one OPT is added, last; at 65535 additional records it would be left alone |
| `Edns.OptBytesIsOpt` | crates/dnsguard/src/wire.rs:783-799 | the eleven octets appended are one well-formed OPT record |
| `Edns.OptBytesMeaning` | crates/dnsguard/src/wire.rs:783-799 | field by field: root name, type 41, payload size, extended rcode and version zero, no flag but DO, no options |
| `Presentation.PushLabelEscaped` | crates/dnsguard/src/wire.rs:294-309 | the escaping loop appends exactly the escape of the label: dot and backslash escaped, octets outside 0x20-0x7e as three decimal digits |
| `Presentation.DenotePresent` | crates/dnsguard/src/wire.rs:294-309 | reading a presentation back gives the label list it presents: escaped dots never become label boundaries |
| `Presentation.PresentInjective` | crates/dnsguard/src/wire.rs:294-309 | two legal names with the same text are the same label list |
| `Presentation.LowerPresent` | crates/dnsguard/src/filter.rs:208-280 | lower-casing the text is presenting the ASCII-lower-cased labels, escapes included |
| `Queries.ParseQuestionName` | crates/dnsguard/src/wire.rs:259-290 | the loop that reads and escapes labels returns the presentation of the parsed labels, the end offset, or the same error |
| `Queries.FindOptLoop` | crates/dnsguard/src/wire.rs:207-243 | the OPT search loop equals the recursive search over the declared records |
| `Queries.FirstOptIsFound` | crates/dnsguard/src/wire.rs:207-243 | the first OPT among the declared records gives size and DO bit, whatever other records come before or after |
| `Queries.NoOptIsNone` | crates/dnsguard/src/wire.rs:207-243 | records without an OPT give none |
| `Queries.DnssecOkMeaning` | crates/dnsguard/src/wire.rs:99-130 | DO is a bit of the OPT record, so it is false without one |
| `Queries.QueryMeaning` | crates/dnsguard/src/wire.rs:149-193 | a parsed query has a legal name whose text presents and whose raw form encodes one label list; the question span is that encoding plus type and class, at most 259 octets |
| `Queries.ParseQueryExactly` | crates/dnsguard/src/wire.rs:149-193 | exactly which messages parse as queries, and which error the others get, in the order of the checks |
| `Queries.QuestionParses` | crates/dnsguard/src/wire.rs:149-193 | a legal question after a query header is parsed as that question, with the header's id, opcode, RD and CD |
| `Queries.UpstreamQueryParses` | crates/dnsguard/src/wire.rs:542-566 | round trip: the query built from any parsed query parses back to the same name, type, class and CD, with RD, opcode 0, the clamped EDNS size and the client's DO bit |
| `Queries.ClampMeaning` | crates/dnsguard/src/wire.rs:74-76 | an advertised size from 512 to 4096 is taken as it is, others are moved to the nearer end |
| `Responses.WalkAnswers` | crates/dnsguard/src/wire.rs:419-449 | the one-pass running minimum equals the minimum over the walked answer records, with None exactly on unwalkable answers |
| `Responses.MinOfIsLeast` | crates/dnsguard/src/wire.rs:419-449 | the summary's TTL is the TTL of some answer and no answer has a smaller one |
| `Responses.InfoMoves` | crates/dnsguard/src/wire.rs:346-363 | a response's summary depends on two counts, the rcode and the octets up to its last answer only |
| `Responses.InfoForClient` | crates/dnsguard/src/proxy.rs:1757-1768 | patching id, RD, CD and AD never changes the summary the cache decides on |
| `Responses.InfoStrip` | crates/dnsguard/src/proxy.rs:1791-1802 | stripping OPT records never changes the summary the cache decides on |
| `Responses.ValidatedEchoesQuestion` | crates/dnsguard/src/wire.rs:384-416 | an accepted answer is a response with the expected id whose question has the same label boundaries, case-equal labels and the exact type and class asked; walking it again gives the same rcode and minimum TTL |
| `Replies.ErrorResponseShape` | crates/dnsguard/src/wire.rs:626-650 | an error reply exists exactly for requests with a header; it echoes id, opcode, RD, CD and the parsed question, clears AD, carries the rcode, has all record counts zero and is at most 271 octets |
| `Replies.TruncatedResponseShape` | crates/dnsguard/src/wire.rs:588-612 | the same for a truncated reply, with TC set and the rcode given |
| `Replies.ZeroIpResponseShape` | crates/dnsguard/src/wire.rs:661-692 | the sinkhole reply conforms and is authoritative; an A or AAAA question gets NOERROR with exactly one answer, a walkable record of the question's type and class with the TTL given and zero rdata; any other gets NXDOMAIN with no record |
| `Replies.NormalizeConforms` | crates/dnsguard/src/proxy.rs:1634-1642 | egress keeps a conforming reply conforming, with its rcode and TC, and grows it by at most one OPT |
| `Replies.EgressOpts` | crates/dnsguard/src/proxy.rs:1634-1642 | strip then append: on a walkable answer with nothing after its last record, inherited OPTs are gone, other additional records kept, and exactly one OPT with the requester's clamped size and DO is there iff the requester sent one |
| `Replies.EgressExactly` | crates/dnsguard/src/proxy.rs:1634-1642 | for every message a transport can carry, walkable or not, and a requester with EDNS: if the ARCOUNT field is 65535 the answer goes out as it came, otherwise it is stripped and ends with the requester's own OPT |
| `Replies.OverCountedLosesOpt` | crates/dnsguard/src/wire.rs:384-416 | for every query with EDNS there is an answer, empty and declaring 65535 additional records, that passes validation and reaches the client without an OPT |
| `Replies.TruncatedShape` | crates/dnsguard/src/proxy.rs:1322-1329 | a cut reply exists for every request with a header, conforms, has TC, at most 282 octets, and the rcode of the oversized answer if it can be read |
| `OwnQuestion.LocalReplyCarries` | crates/dnsguard/src/wire.rs:588-692 | every reply built here parses to the request's own question |
| `OwnQuestion.NormalizeAnswers` | crates/dnsguard/src/proxy.rs:1634-1642 | stripping and appending OPT at egress never change which question a message answers |
| `OwnQuestion.TruncatedCarries` | crates/dnsguard/src/proxy.rs:1322-1329 | nor does cutting it for the transport |
| `OwnQuestion.ValidatedExactly` | crates/dnsguard/src/wire.rs:384-416 | accepted are exactly the walkable responses with the expected id whose one question is the one asked, names compared up to ASCII case |
| `ProbeQuery.BuildQueryLoop` | crates/dnsguard/src/wire.rs:495-520 | the label loop of the query builder equals its specification, including when it refuses a name |
| `ProbeQuery.BuildQueryRoundTrip` | crates/dnsguard/src/wire.rs:495-520 | every built query parses, to the given labels, type and class; the parsed text is the given name (trailing dots aside) if and only if every octet is printable and none is a backslash |
| `ProbeQuery.BackslashIsNotRoundTripped` | crates/dnsguard/src/wire.rs:495-520 | concrete failing name: a single backslash is built and parsed, but not to itself |
| `ProbeQuery.SplitJoins` | crates/dnsguard/src/wire.rs:495-520 | cutting a name at its dots loses nothing: joining the labels gives the name back |
| `ProbeQuery.TrimDotsMeaning` | crates/dnsguard/src/wire.rs:495-520 | trailing dots of the given name go, however many, and nothing else |
| `Filter.NormalizeName` | crates/dnsguard/src/filter.rs:208-280 | the trimming, lower-casing and accounting loops compute the normal form, or refuse, exactly as specified |
| `Filter.EndsWithRootDot` | crates/dnsguard/src/filter.rs:208-224 | the backward backslash count decides whether the final dot is the root dot |
| `Filter.ScanLoop` | crates/dnsguard/src/filter.rs:225-280 | the octet and wire-length accounting loop equals the recursive scan |
| `Filter.ParityIsForwardScan` | crates/dnsguard/src/filter.rs:208-224 | counting backslashes backward agrees with the forward escape scanner on every text |
| `Filter.ScanRejectsRootDot` | crates/dnsguard/src/filter.rs:225-280 | a text the scan accepts never ends in an unescaped dot, so one trim is enough |
| `Filter.NormalizeAcceptsLegalNames` | crates/dnsguard/src/filter.rs:208-280 | a text denoting octets is accepted iff, less one root dot, it is non-empty, ASCII and denotes a legal name |
| `Filter.NormalizePresent` | crates/dnsguard/src/filter.rs:208-280 | every wire-legal name but the root normalizes, to the presentation of its lower-cased labels |
| `Filter.RootDotIsDropped` | crates/dnsguard/src/filter.rs:208-224 | the root dot is optional: a wire-legal name with it and without it normalize alike |
| `Filter.NonAsciiIsRefused` | crates/dnsguard/src/filter.rs:224-228 | a text with a character beyond ASCII is never accepted |
| `Filter.RootDoesNotNormalize` | crates/dnsguard/src/filter.rs:208-280 | the root is the one wire-legal name that does not |
| `Filter.NormalizeAlike` | crates/dnsguard/src/filter.rs:208-280 | two wire-legal names normalize alike iff their label lists are equal up to ASCII case |
| `Filter.NormalizeIdempotent` | crates/dnsguard/src/filter.rs:208-280 | normalizing a normal form changes nothing, for every input text |
| `Filter.SuffixMatchLoop` | crates/dnsguard/src/filter.rs:715-733 | the byte walk cutting at unescaped dots equals the recursive suffix search |
| `Filter.SuffixPresent` | crates/dnsguard/src/filter.rs:715-733 | on a wire name the walk finds a rule iff the rule is the text of some non-empty label-list suffix |
| `Engine.DecideIsLabelMatching` | crates/dnsguard/src/filter.rs:333-348 | for every wire-legal non-root name: Block iff no allow rule and some block rule matches, where exact means equal label lists and suffix a label-list suffix, up to ASCII case |
| `Engine.RootIsAllowed` | crates/dnsguard/src/filter.rs:333-348 | the root name is allowed under every rule set |
| `Engine.AddedRuleIsInForce` | crates/dnsguard/src/filter.rs:374-389 | a token spelling a legal name is accepted and its rule is then in force |
| `Engine.LeadingDotMeaning` | crates/dnsguard/src/filter.rs:374-389 | a leading dot makes a suffix rule of what follows it; any other token is its own name, of the default kind |
| `Engine.StoredRuleMeaning` | crates/dnsguard/src/filter.rs:374-389 | for every stored rule, exact or suffix: it matches some wire name if and only if its text denotes octets and is spelled as the wire layer spells them, and then it matches exactly the names its labels ask for (exact condition for a law that fails in general) |
| `Engine.MisspelledNeverMatches` | crates/dnsguard/src/filter.rs:715-733 | a rule in any other spelling, denoting octets or not, matches no wire name, exact or suffix |
| `Engine.EscapedLetterRuleIsDead` | crates/dnsguard/src/filter.rs:374-389 | concrete failing input: the rule `\a` is accepted and denotes label a, yet never matches it |
| `Engine.OutOfRangeRuleIsDead` | crates/dnsguard/src/filter.rs:208-280 | the other failing family: the rule `\999` is accepted and denotes no octet |
| `Engine.FilterEngine.constructor` | crates/dnsguard/src/filter.rs:168-177 | a new engine holds the canary block rule and nothing else |
| `Engine.FilterEngine.AddAllow` | crates/dnsguard/src/filter.rs:284-292 | inserts the normalized name into the allow suffix set, or changes nothing and says so |
| `Engine.FilterEngine.AddAllowExact` | crates/dnsguard/src/filter.rs:295-303 | the same for the exact allow set |
| `Engine.FilterEngine.AddBlock` | crates/dnsguard/src/filter.rs:306-314 | the same for the block suffix set |
| `Engine.FilterEngine.AddBlockExact` | crates/dnsguard/src/filter.rs:317-325 | the same for the exact block set |
| `Engine.FilterEngine.AddRule` | crates/dnsguard/src/filter.rs:374-389 | a leading dot makes a suffix rule, otherwise the default kind; the rule sets change by exactly that insertion |
| `Engine.FilterEngine.DecideName` | crates/dnsguard/src/filter.rs:333-348 | returns the specified decision, leaves the rules alone and counts exactly the names that do not normalize |
| `Loader.ParseHostsLine` | crates/dnsguard/src/filter.rs:644-679 | adds the host tokens that find room, in order, to the exact set; counts of accepted and malformed ones are exact |
| `Loader.ParseDomainListLine` | crates/dnsguard/src/filter.rs:682-708 | adds the line's single token under the list policy; a line of several tokens is one malformed entry; both counts are exact |
| `Loader.ParseLine` | crates/dnsguard/src/filter.rs:586-600 | one line in either format: the engine gains exactly the tokens offered, with exact counts |
| `Loader.IngestLine` | crates/dnsguard/src/filter.rs:586-629 | one decoded line charged to every account; a line that leaves room, and every domain-list line, has all its tokens offered; with max_rules 0 a rule is added iff it is a domain-list line with an acceptable one |
| `Loader.IngestLoop` | crates/dnsguard/src/filter.rs:502-641 | the loop equals the specified load: result, position reached and rules added |
| `Loader.IngestLines` | crates/dnsguard/src/filter.rs:502-641 | for any event stream, even one failing forever: terminates; lines, bytes and rules within budget (max_rules at least 1); Err only with rules unchanged; rules added are those of the first tokens of the lines consumed, whole lines iff no cut fragment is parsed that carries a token finding room; Ok and not truncated means the input ended and every token of every decodable line was offered; with max_rules 0 the budget is exceeded iff the stated condition on the first decodable line holds |
| `ListText.OfferedIsPrefix` | crates/dnsguard/src/filter.rs:644-708 | what a line offers is a prefix of its tokens: all of them for a domain list, and for a hosts line while there is room |
| `ListText.CommentIsCut` | crates/dnsguard/src/filter.rs:646-649 | a comment runs from the first number sign to the end of the line, and a line without one is left alone |
| `ListText.CommentOffersNothing` | crates/dnsguard/src/filter.rs:644-708 | a comment never changes what a line offers, in either format |
| `ListText.WhitespaceTable` | crates/dnsguard/src/filter.rs:646-691 | the characters at which a line is cut into tokens |
| `ListText.TokensAreWords` | crates/dnsguard/src/filter.rs:646-691 | tokens are non-empty and free of whitespace, and in order are all of the text but its whitespace |
| `ListText.TokensSplit` | crates/dnsguard/src/filter.rs:646-691 | a word is one token, whitespace ends it, and leading whitespace is nothing |
| `ListText.LineOffers` | crates/dnsguard/src/filter.rs:644-708 | a hosts line offers the words after its first one if that is an address, a domain-list line its only word |
| `ListText.DefaultKindMeaning` | crates/dnsguard/src/filter.rs:427-500 | hosts files hold exact rules, domain lists what their policy says |
| `ListText.AddAllIsUnion` | crates/dnsguard/src/filter.rs:502-641 | the rules after a load are a union: a name is in a set iff it was there or some token of that kind normalizes to it, whatever the order and repetition |
| `ListText.NoneAcceptedNoChange` | crates/dnsguard/src/filter.rs:502-641 | a load that accepted nothing left the rules unchanged, which is what makes its error return safe |
| `ListLines.ReadLineIsNextLine` | crates/dnsguard/src/filter.rs:522-530 | a read delivers exactly the next line of the input; only one that exhausts the octet limit may deliver the fragment of a line under way |
| `ListLines.ChompMeaning` | crates/dnsguard/src/filter.rs:522-530 | a line's terminator is LF or CR LF |
| `ListLoads.LoadMeaning` | crates/dnsguard/src/filter.rs:502-641 | a failed load accepted nothing; any other is within its budgets, offered the first tokens of the lines seen, and every token of the whole input if it is not truncated |
| `ListLoads.AmpleBudgetsLoadAll` | crates/dnsguard/src/filter.rs:502-641 | a list without read failures that passes no budget and has no 65 undecodable lines in a row is loaded whole and reported as such |
| `ListLoads.FailureEndsLoad` | crates/dnsguard/src/filter.rs:536-585 | a read that fails for good is an error if nothing was added yet, else ends the load as truncated |
| `ListLoads.StuckReaderEnds` | crates/dnsguard/src/filter.rs:536-585 | a reader stuck on undecodable input is asked 65 times and then reported as an error |
| `ListLoads.EmptyInputLoads` | crates/dnsguard/src/filter.rs:502-641 | an empty list is loaded whole, with all counts zero |
| `ListLoads.UndecodableMeaning` | crates/dnsguard/src/filter.rs:544-560 | an undecodable line is one line read, skipped and malformed, and costs no octets |
| `ListLoads.ChargeMeaning` | crates/dnsguard/src/filter.rs:586-615 | what a parsed line adds to each account, and when it fills the rule budget |
| `ListLoads.RulesComeFromWholeLines` | crates/dnsguard/src/filter.rs:522-629 | the tokens offered are those of whole lines if and only if no fragment is parsed that carries a token finding room; they are tokens of the lines seen in any case |
| `ListLoads.FragmentParsedExactly` | crates/dnsguard/src/filter.rs:522-600 | exactly when the fragment left by an exhausted octet limit is parsed as a line: it decodes, a line is still allowed, and the byte accounts lag at least two octets behind what was read before it |
| `ListLoads.PlainLinesKeepUp` | crates/dnsguard/src/filter.rs:586-600 | the accounts never lag while all lines decode, none ends in CR LF and no read fails |
| `ListLoads.PlainLineMeaning` | crates/dnsguard/src/filter.rs:586-590 | plain lines are those that decode and are not ended by CR LF |
| `ListLoads.PlainInputAddsNoFragment` | crates/dnsguard/src/filter.rs:522-600 | hence on such input no octet limit ever makes a rule of a fragment |
| `ListLoads.FragmentBecomesRule` | crates/dnsguard/src/filter.rs:586-600 | concrete failing input: two empty CR LF lines, the line cd, and a budget of four octets add the rule c, which no line contains |
| `ListLoads.ZeroBudgetExceeded` | crates/dnsguard/src/filter.rs:586-629 | with max_rules 0 the budget is exceeded if and only if the list is a domain list and its first decoded line within the line and octet budgets carries an acceptable rule |
| `ListLoads.ZeroBudgetOverrun` | crates/dnsguard/src/filter.rs:586-629 | concrete load: the one-line domain list a, with max_rules 0, adds its rule |
| `Cache.Retain` | crates/dnsguard/src/proxy.rs:408-419 | keeps exactly the live entries, and the bytes freed are those of the dropped ones |
| `Cache.SumLenRemove` | crates/dnsguard/src/proxy.rs:401-405 | taking an entry out lowers the sum of lengths by exactly its length |
| `Cache.SumLenInsert` | crates/dnsguard/src/proxy.rs:422-427 | inserting or replacing changes the sum by the difference, without underflow |
| `Cache.PurgedShrinks` | crates/dnsguard/src/proxy.rs:408-419 | purging never grows the bytes or the count |
| `Cache.StoredWithinBounds` | crates/dnsguard/src/proxy.rs:495-545 | no store passes the byte or entry bound |
| `Cache.LookupWithinBounds` | crates/dnsguard/src/proxy.rs:476-493 | nor does a lookup |
| `Cache.LifetimeMeaning` | crates/dnsguard/src/proxy.rs:495-511 | cached are NXDOMAIN for negative_ttl, and NOERROR with a smallest TTL above zero for the lesser of it and max_ttl, and nothing else |
| `Cache.LiveEntriesSurvive` | crates/dnsguard/src/proxy.rs:408-545 | a live entry survives every lookup and every store under another key; an expired one is gone after its lookup, purged, and never served |
| `Cache.StoredExactly` | crates/dnsguard/src/proxy.rs:495-545 | what may not be kept leaves the cache as it was; what may is stored if there is room, at once or after the purge, and nothing else is added or changed |
| `Cache.FullMeaning` | crates/dnsguard/src/proxy.rs:517-527 | full means no entry left, or the map would weigh too much with the new entry in place of the old |
| `Cache.ResponseCache.constructor` | crates/dnsguard/src/proxy.rs:391-399 | an empty cache with a byte total of zero |
| `Cache.ResponseCache.Remove` | crates/dnsguard/src/proxy.rs:401-405 | removes the key only; the running total still equals the sum over the map |
| `Cache.ResponseCache.PurgeExpired` | crates/dnsguard/src/proxy.rs:408-419 | leaves exactly the live entries, total kept |
| `Cache.ResponseCache.Insert` | crates/dnsguard/src/proxy.rs:422-427 | replaces the key's entry, total kept |
| `Cache.ResponseCache.IsFull` | crates/dnsguard/src/proxy.rs:517-537 | tells from the running total whether entry or byte bound would be passed, discounting the entry replaced |
| `Cache.ResponseCache.CacheGet` | crates/dnsguard/src/proxy.rs:476-493 | a live entry comes back patched for the requester, an expired one is dropped and missed |
| `Cache.ResponseCache.CacheStore` | crates/dnsguard/src/proxy.rs:495-545 | stores iff the summary gives a lifetime and there is room, purging first when full; the whole new map is stated |
| `Buffer.ResponseBuffer.SetId` | crates/dnsguard/src/proxy.rs:1754-1759 | puts the id into the first two octets of the buffer |
| `Buffer.ResponseBuffer.SetClientFlags` | crates/dnsguard/src/wire.rs:478-491 | the in-place flag edit equals the specified one |
| `Buffer.ResponseBuffer.AppendClientOpt` | crates/dnsguard/src/wire.rs:783-799 | the in-place OPT append and ARCOUNT bump equal the specified ones |
| `Forwarding.UdpExchange` | crates/dnsguard/src/proxy.rs:1987-2028 | returns the first datagram with a header and our id before an error or the deadline, skipping strays |
| `Forwarding.UdpAnswerIsFirst` | crates/dnsguard/src/proxy.rs:1987-2028 | datagrams that are not ours are skipped, the first that is ours (cut to 4096 octets) is the answer, an error or the deadline ends the wait |
| `Forwarding.TcpAnswerIsFramed` | crates/dnsguard/src/proxy.rs:2030-2045 | the one framed message at the head of the stream is the answer, an unfinished one is none |
| `Forwarding.WhatIsAsked` | crates/dnsguard/src/proxy.rs:1884-1900 | both upstream queries ask the client's own question with its CD and with RD; the full one with its DO bit and clamped size if it sent EDNS, the plain one without EDNS |
| `Forwarding.ForwardedIsValidated` | crates/dnsguard/src/proxy.rs:1884-1985 | a forwarded answer passed validation for a query sent in this exchange: the full query if intact, the plain one if stripped, and stripped only for a client with EDNS |
| `Forwarding.ForwardPolicy` | crates/dnsguard/src/proxy.rs:1884-1985 | TC answers are passed on only as received over TCP; FORMERR to our OPT is never passed on as intact; OPT is dropped only after a validated refusal in this exchange |
| `Forwarding.FirstUdpAnswerDecides` | crates/dnsguard/src/proxy.rs:1884-1985 | a validated first UDP answer that is neither truncated nor a refusal comes back intact, whatever happens over TCP; without a validated one nothing does |
| `Forwarding.PlainAnswerDecides` | crates/dnsguard/src/proxy.rs:1884-1985 | after FORMERR to our EDNS, the validated answer to the plain query comes back as EDNS-stripped, over TCP if it was truncated |
| `Forwarding.TcpAnswerDecides` | crates/dnsguard/src/proxy.rs:1884-1985 | over TCP, by the client's wish or after a truncated UDP answer, the validated answer to the full query comes back intact, or on FORMERR the one to the plain query |
| `Forwarding.RefusalIsFormerr` | crates/dnsguard/src/proxy.rs:1884-1985 | a validated answer refuses EDNS exactly if its rcode is FORMERR and the client sent EDNS |
| `Forwarding.AnsweringUpstreamIsHeard` | crates/dnsguard/src/proxy.rs:1884-1985 | an upstream that validly answers whatever it is asked always gets its answer forwarded |
| `Forwarding.AtMostThreeExchanges` | crates/dnsguard/src/proxy.rs:1884-1985 | the outcome depends on at most the first three exchanges |
| `Serving.LocalAnswerShape` | crates/dnsguard/src/proxy.rs:1644-1728 | every answer made without cache or upstream conforms and is at most 299 octets |
| `Serving.SlotsAreExact` | crates/dnsguard/src/proxy.rs:1735-1740 | two queries share a slot if and only if they have the same raw name, type, class, DO and CD |
| `Serving.PatchedCacheStrips` | crates/dnsguard/src/proxy.rs:476-493 | storing a stripped relay and patching it for another client strips to what that client's own relay strips to |
| `Serving.CacheTransparency` | crates/dnsguard/src/proxy.rs:1741-1802 | the bytes a later client gets from the slot equal the bytes a fresh forward of the same answer would have given it, for every message and requester |
| `Serving.StepKeepsOrAdds` | crates/dnsguard/src/proxy.rs:1644-1818 | one event leaves an entry as it was or stores it under the key derived from its own query and answer |
| `Serving.RunHasOrigins` | crates/dnsguard/src/proxy.rs:1644-1818 | over every run each entry was put there by one of the run's own stores |
| `Serving.RunWithinBounds` | crates/dnsguard/src/proxy.rs:391-545 | over every run of lookups, stores and purges the cache stays within CACHE_MAX_BYTES and its capacity |
| `CacheSafety.OriginMeaning` | crates/dnsguard/src/proxy.rs:1735-1806 | what one store can have stored: validated, for its own question, stripped, never a DO slot from an EDNS-stripped fetch |
| `CacheSafety.OriginAskedAlike` | crates/dnsguard/src/proxy.rs:1735-1802 | the query that filled a slot had the name, type, class and CD of the query served from it, and the upstream was asked with exactly that query's DO bit |
| `CacheSafety.CacheSafety` | crates/dnsguard/src/proxy.rs:1701-1806 | over every run against any upstream: each entry comes from a validated answer to its key's own question (name up to case, type and class exact), never the canary, never a DO slot filled by an EDNS-stripped fetch, and expires at store time plus min(smallest TTL, max_ttl), or negative_ttl for NXDOMAIN |
| `CacheSafety.StoredAnswerIsServed` | crates/dnsguard/src/proxy.rs:1735-1802 | conversely a storable answer that finds room is served under its key from then on, up to exactly the moment promised |
| `CacheSafety.HitIsLive` | crates/dnsguard/src/proxy.rs:476-493 | a hit is served only before the moment its own store promised |
| `CacheSafety.CanaryNeverCached` | crates/dnsguard/src/proxy.rs:1701-1708 | no spelling of the canary is ever a key |
| `CacheSafety.OptNeverCached` | crates/dnsguard/src/proxy.rs:1799-1802 | no walkable entry carries an OPT, whatever the upstream sent |
| `CacheSafety.HitEqualsFreshForward` | crates/dnsguard/src/proxy.rs:1741-1806 | transparency over whole runs: what a hit serves is byte for byte what a fresh forward of the answer behind the entry would give, and that answer was fetched for the same name, type, class, CD and effective DO bit |
| `Proxy.RunIsSound` | crates/dnsguard/src/proxy.rs:1644-1818 | at the end of every run all entries are readable responses that answer their own key's question |
| `Proxy.InfoNormalize` | crates/dnsguard/src/proxy.rs:1634-1642 | egress normalization keeps rcode and minimum TTL |
| `Proxy.AnswerConforms` | crates/dnsguard/src/proxy.rs:1644-1818 | every request with a header is answered on every path with QR, its own id, RD and CD, and AD clear |
| `Proxy.AnswerCarries` | crates/dnsguard/src/proxy.rs:1644-1818 | local, cached, forwarded and failed alike: the one question of the answer is the request's own, labels up to case, type and class exact |
| `Proxy.CutReplyFits` | crates/dnsguard/src/proxy.rs:1280-1298 | a reply cut for a limit of at least 512 fits it, conforms and keeps the rcode |
| `Proxy.UdpConformance` | crates/dnsguard/src/proxy.rs:1249-1304 | over any rules, run and upstream, the UDP reply exists, conforms, carries the request's own question (if it parses), fits the requester's own clamped EDNS size (512 without), is sent whole if it fits, keeps the rcode, and is at most 282 octets with TC if it was cut |
| `Proxy.TcpConformance` | crates/dnsguard/src/proxy.rs:1547-1567 | the same over TCP for the two-octet frame limit: sent whole if it fits, else cut with TC; question included |
| `Proxy.OverloadReplyConforms` | crates/dnsguard/src/proxy.rs:1347-1365 | the SERVFAIL sent on overload conforms and is at most 282 octets |
| `Proxy.DnsProxy.constructor` | crates/dnsguard/src/proxy.rs:592-604 | a proxy starts with an empty, valid cache |
| `Proxy.DnsProxy.PickUpstream` | crates/dnsguard/src/proxy.rs:467-474 | round robin over the live list; the index advances exactly when there is a list |
| `Proxy.DnsProxy.Classify` | crates/dnsguard/src/proxy.rs:1644-1728 | parse error, opcode, canary and filter answer in that order; a canary probe moves its own counter only, every other query is counted, and refused and blocked ones exactly as such |
| `Proxy.DnsProxy.Resolve` | crates/dnsguard/src/proxy.rs:1729-1818 | cache hit, else forward and store, else SERVFAIL: reply, whole new cache and counters as specified; every query counts as exactly one of hit, forwarded, upstream error |
| `Proxy.DnsProxy.HandleQuery` | crates/dnsguard/src/proxy.rs:1622-1818 | the whole pipeline equals the specified answer and cache step, with one egress normalization; canary probes and other queries are counted apart, each once |
| `Proxy.RelayInPlace` | crates/dnsguard/src/proxy.rs:1751-1768 | the two in-place edits of a relay equal patching for that client |
| `Proxy.Egress` | crates/dnsguard/src/proxy.rs:1622-1642 | the only way out normalizes EDNS for the requester |
| `Policy.CanaryExactly` | crates/dnsguard/src/proxy.rs:1685-1708 | the canary is exactly the name with the three labels webguard-test, sentinella, invalid, up to ASCII case |
| `Policy.PolicyInOrder` | crates/dnsguard/src/proxy.rs:1644-1728 | malformed gets FORMERR, a foreign opcode NOTIMP, then the canary its signature whatever the rules, then a blocked name (in terms of labels) NXDOMAIN with AA or the null address, and everything else goes on |
| `Policy.AnswersInOrder` | crates/dnsguard/src/proxy.rs:1729-1818 | a query that goes on is answered from its live slot, else by its upstream, else with SERVFAIL |
| `Policy.NothingIsStored` | crates/dnsguard/src/proxy.rs:1729-1818 | a query answered here or from its slot, or without an upstream, stores nothing |
| `Policy.SecondQueryHits` | crates/dnsguard/src/proxy.rs:1729-1818 | a query whose answer was fetched and may be kept, with room, is answered with the same octets the next time, whatever the upstream does, until the promised moment |
| `TcpConnection.DeframeFrameAll` | crates/dnsguard/src/proxy.rs:1547-1574 | framed messages followed by an unfinished frame are read back as exactly those messages |
| `TcpConnection.ServeConnection` | crates/dnsguard/src/proxy.rs:1491-1584 | the output de-frames to exactly one message per answered query in order; waits sum to at most the lifetime; killed iff it ended at or past the deadline; with a prompt client and pipeline every message up to the first unanswered one gets its reply |
| `TcpConnection.ServeProxyConnection` | crates/dnsguard/src/proxy.rs:1491-1584 | a connection to the proxy, whatever rules, cache run and upstream each query meets: every de-framed message conforms to its own request and carries its question, in order; with a prompt client and pipeline every message up to the first without a header is replied to |
| `TcpConnection.PipelineConforms` | crates/dnsguard/src/proxy.rs:1622-1818 | the pipeline replies exactly to messages with a header, conformingly and with their own question |
| `TcpConnection.ServeOne` | crates/dnsguard/src/proxy.rs:1507-1574 | one message: a whole frame answering it goes out, or the connection ends with an unfinished one; with prompt waits a reply goes out iff there is a whole message and an answer to it |
| `TcpConnection.ReadMessage` | crates/dnsguard/src/proxy.rs:1507-1527 | length prefix then body give exactly the next frame, each wait on the remaining budget; nothing comes back iff a read does not go through or the frame is unfinished |
| `TcpConnection.TimedWait` | crates/dnsguard/src/proxy.rs:1498-1509 | no wait is started once the deadline has passed; a started one ends by the deadline and within its allowance, and completes iff it needed no more |
| `TcpConnection.TakenMeaning` | crates/dnsguard/src/proxy.rs:1498-1509 | the time of a prompt wait is what passes before it and its own delay |
| `Admission.AdmittedStep` | crates/dnsguard/src/proxy.rs:1391-1446 | every enabled move keeps queue slots (over spawned, waiting, granted and timed-out connections) and permits conserved, places disjoint, and the pool queue in the order its tasks first asked |
| `Admission.AdmissionSafety` | crates/dnsguard/src/proxy.rs:1391-1446 | in every interleaving: spawned and waiting together at most tcp_max_queued, serving at most tcp_max_connections, permits conserved, nobody granted ahead of one who asked earlier and still waits, dropped at accept exactly when every queue slot is held; every arrival is accounted for and every ticket is in exactly one place |
| `Admission.LaterArrivalGrantedFirst` | crates/dnsguard/src/proxy.rs:1391-1446 | with two queue slots and one permit a run exists in which the later of two accepted connections is polled and granted first |
| `Admission.OvertakingExactly` | crates/dnsguard/src/proxy.rs:1391-1446 | a connection can be overtaken by a later arrival if and only if the listener is configured with at least two queue slots and at least one pool permit |
| `Progression.CollectStages` | crates/argus/src/verdict.rs:1006-1013 | filter, sort and dedup give the distinct stages in ascending order |
| `Progression.CountTransitions` | crates/argus/src/verdict.rs:1014-1028 | the pair loop counts neighbouring stages at most four apart |
| `Progression.WindowsAreAdvancing` | crates/argus/src/verdict.rs:1006-1028 | on ascending stages that count is the number of stages followed by another one at most four later: a definition without order |
| `Progression.AttackProgressionScore` | crates/argus/src/verdict.rs:1006-1028 | the score is a function of the set of stages: order and repetition of tags do not matter |
| `Progression.ProgressionBound` | crates/argus/src/verdict.rs:1006-1028 | at most min(3, distinct stages - 1) |
| `Progression.ProgressionMonotone` | crates/argus/src/verdict.rs:1006-1028 | more tags never lower it |
| `Progression.StageTable` | crates/argus/src/verdict.rs:976-993 | which behaviours belong to which of the nine stages |
| `Progression.StagesOneByOne` | crates/argus/src/verdict.rs:1006-1013 | every tag but download context adds its own stage, and that one adds nothing |
| `Progression.ProgressionExample` | crates/argus/src/verdict.rs:1006-1028 | the gap of four and the cap of three on concrete stage sets |
| `Findings.SortDescSorts` | crates/argus/src/engine.rs:928-932 | sorting keeps the multiset of findings and orders them heaviest first |
| `Findings.SortDescIdle` | crates/argus/src/engine.rs:928-932 | a sorted list is left exactly as it is |
| `Findings.SumByPermutation` | crates/argus/src/engine.rs:1256-1258 | sums over findings do not depend on the order |
| `Scoring.DedupGroup` | crates/argus/src/engine.rs:934-957 | deduplication leaves a group with the weight of its first member only, or nothing if already seen |
| `Scoring.DedupExactly` | crates/argus/src/engine.rs:934-957 | a finding that is exempt or first of its group is left as it is; any other keeps everything but weight, now zero, and severity, now informational |
| `Scoring.DedupKeepsGroupMaximum` | crates/argus/src/engine.rs:928-957 | after sort and dedup every (tag, layer) group contributes exactly its maximum weight |
| `Scoring.DedupPermutation` | crates/argus/src/engine.rs:928-957 | deduplicating any ordering of the same findings leaves the same evidence |
| `Scoring.FloorIsScale` | crates/argus/src/engine.rs:1228-1246 | the exact floor satisfies all that is assumed of the floating-point scaling |
| `Scoring.CapLayerTotal` | crates/argus/src/engine.rs:1228-1246 | one cap: the layer's total ends at most at the cap and at least the cap less its number of findings if it was over it; other layers keep their totals |
| `Scoring.LayerSplits` | crates/argus/src/engine.rs:1232-1237 | every finding of a layer counts once in its total and number, wherever it stands |
| `Scoring.CapAllOneLayer` | crates/argus/src/engine.rs:1248-1254 | all seven caps: each capped layer ends between cap less its findings and cap if it was over, and every finding of a layer within its cap is left as it was |
| `Scoring.CapAllElsewhere` | crates/argus/src/engine.rs:1248-1254 | layers without a cap are untouched |
| `Scoring.CapAllShape` | crates/argus/src/engine.rs:1228-1254 | capping changes weights only, never upward, and keeps the order of weights inside a layer |
| `Scoring.CapAllIdle` | crates/argus/src/engine.rs:1228-1254 | findings within all caps are left exactly as they are |
| `Scoring.CapAllPermutation` | crates/argus/src/engine.rs:1228-1254 | the evidence after capping depends on the evidence before it, not on its order |
| `Convergence.ConvergePermutation` | crates/argus/src/engine.rs:824-917 | convergence depends on the multiset of weighing evidence only |
| `Convergence.ConvergeMeaning` | crates/argus/src/engine.rs:824-840 | what is counted: behaviours with weight but download context, and layers with weight |
| `Convergence.StrongestBounds` | crates/argus/src/engine.rs:893-905 | the chain strength is the greatest of the detected chains and the names are exactly those at least moderate |
| `Convergence.StrongTable` | crates/argus/src/engine.rs:843-863 | which behaviours make which strong chain |
| `Convergence.ModerateTable` | crates/argus/src/engine.rs:864-884 | which behaviours make which moderate chain |
| `Convergence.WeakTable` | crates/argus/src/engine.rs:885-892 | the weak chains need their behaviours alone |
| `Convergence.StrengthTable` | crates/argus/src/engine.rs:893-905 | strength and names follow from those tables |
| `Convergence.ChainsNeverLost` | crates/argus/src/engine.rs:824-917 | more behaviours never lose a chain that is at least moderate, nor lower its strength or the progression score |
| `Aggregation.OrderIndependence` | crates/argus/src/engine.rs:1207-1278 | raw score, score, verdict and convergence info are the same for every ordering of the findings |
| `Aggregation.AggregateNormalises` | crates/argus/src/engine.rs:1207-1278 | the list left behind is sorted, deduplicated and within every cap |
| `Aggregation.RerunIsStable` | crates/argus/src/engine.rs:1207-1278 | aggregating an aggregation's own findings with the same discounts changes no finding, score, verdict or convergence |
| `Aggregation.ScoreAndVerdict` | crates/argus/src/engine.rs:1256-1278 | in terms of the total weight left: the score is it less the larger discount, between 0 and 100; two discounts give the lower of the scores each gives alone; each verdict iff its score band, Clean iff a discount covers the total, unwanted iff the score is 26-75 and at least half the total is so tagged |
| `Aggregation.RawIsTotal` | crates/argus/src/engine.rs:1256-1258 | the raw score is the total weight of the findings left |
| `Aggregation.TotalSplits` | crates/argus/src/engine.rs:1256-1275 | every finding counts in the total with its weight, wherever it stands, and in the unwanted weight iff it is so tagged |
| `Aggregation.CapsInNumbers` | crates/argus/src/engine.rs:1220-1254 | the seven caps in numbers, on the final list |
| `Aggregation.UncappedTotals` | crates/argus/src/engine.rs:1248-1254 | a layer without a cap keeps the total deduplication left it |
| `Aggregation.DeduplicateFindings` | crates/argus/src/engine.rs:928-957 | the in-place pass with its seen set equals deduplication of the sorted list |
| `Aggregation.ApplyCap` | crates/argus/src/engine.rs:1228-1246 | the summing and the scaling loop equal the cap of that layer |
| `Aggregation.ApplyCaps` | crates/argus/src/engine.rs:1248-1254 | the seven calls equal the seven caps in order |
| `Aggregation.AggregateScore` | crates/argus/src/engine.rs:1207-1278 | the finding list, score, verdict and convergence info are those of the specified aggregation |
| `Mitigation.Evaluate` | crates/argus/src/engine.rs:1050-1160 | the in-place pass: refused without structural confidence, vetoed by a finding of weight 40 or more, else list, ledger and totals as specified |
| `Mitigation.SoftWeightMeaning` | crates/argus/src/engine.rs:1112-1140 | structural and packer weights become a third, installer-class YARA weights a half, rounded down; no other layer changes |
| `Mitigation.SoftenMeaning` | crates/argus/src/engine.rs:1109-1141 | a softened finding keeps everything but its weight, and its severity unless no weight is left |
| `Mitigation.InstallerClassMeaning` | crates/argus/src/engine.rs:1116-1131 | a detail is installer-class iff one of six words stands in it in any ASCII case |
| `Mitigation.ContainsMeaning` | crates/argus/src/engine.rs:1116-1131 | containing is being a substring |
| `Mitigation.BuildMeaning` | crates/argus/src/layers/framework/mod.rs:237-277 | no detection is better than its evidence, any other claim for a known framework stands, and it is safe to mitigate iff corroborated or structural with a structural source |
| `Mitigation.LedgerIsExact` | crates/argus/src/engine.rs:1050-1160 | the ledger has one entry per changed finding, in order, with its layer and weights before and after; score before less score after is their sum; no weight grows |
| `Mitigation.LedgerSum` | crates/argus/src/engine.rs:1112-1160 | the totals differ by exactly what the ledger records |
| `Mitigation.EvaluateThenAggregate` | crates/argus/src/engine.rs:1050-1278 | the pass and the aggregation run in place, beside the aggregation alone on a copy: with a finding of weight 40 or more, or without structural confidence, list, score, verdict and convergence agree |
| `Mitigation.HintsGrantNothing` | crates/argus/src/layers/framework/mod.rs:237-277 | text markers and file names never soften a finding, whatever confidence a detector claims for them |
| `Mitigation.NothingWithoutAuthority` | crates/argus/src/engine.rs:1050-1083 | a detection without structural confidence, or not marked safe, changes nothing and vetoes nothing |
| `Mitigation.AppliesExactly` | crates/argus/src/engine.rs:1050-1106 | the pass applies iff the framework is known, claimed Structural, backed by structural evidence, and no finding weighs 40 or more; it is vetoed iff only that last condition fails |
| `Breaker.OpenNeedsThree` | crates/amsi_provider/src/executor.rs:46-72 | after any reports the counter is the overruns since the last success (32-bit), and open implies at least three |
| `Breaker.OpenExactly` | crates/amsi_provider/src/executor.rs:59-72 | open iff at least three overruns since the last success and less than the cool-down has passed since the latest (while neither counter nor clock wraps) |
| `Breaker.CircuitBreaker.constructor` | crates/amsi_provider/src/executor.rs:53-58 | a new breaker is closed |
| `Breaker.CircuitBreaker.RecordSuccess` | crates/amsi_provider/src/executor.rs:63-66 | a success closes and resets it |
| `Breaker.CircuitBreaker.RecordTimeout` | crates/amsi_provider/src/executor.rs:67-72 | a timeout counts one overrun and opens it from the third on |
| `Executor.SoundStep` | crates/amsi_provider/src/executor.rs:88-175 | every step of callers, workers and dying workers keeps queues bounded, each job in at most one place, and verdicts with their own call |
| `Executor.AtMostFull` | crates/amsi_provider/src/executor.rs:30-35 | queues within their capacity hold, with the running jobs, at most workers times (capacity + 1) |
| `Executor.ExecutorSafety` | crates/amsi_provider/src/executor.rs:88-175 | in every interleaving with jobs that may never return: at most 20 jobs outstanding, none run twice or lost while its caller waits, a call returns nothing or its own finished job's verdict, a caller still waiting when its job has returned can receive exactly that verdict, breaker open only after three overruns since the last success |
| `Executor.ScanReturns` | crates/amsi_provider/src/executor.rs:88-175 | with the breaker closed and an idle live worker next in turn, a call returns its own job's verdict and the breaker is closed |
| `Executor.BeginMeaning` | crates/amsi_provider/src/executor.rs:120-140 | with the breaker open a call returns at once and touches nothing, otherwise it takes the next start |
| `Executor.ReportsMeaning` | crates/amsi_provider/src/executor.rs:139-175 | exactly what is reported to the breaker: replies in time, and overruns for giving up and for shedding |
| `Executor.QueueMeaning` | crates/amsi_provider/src/executor.rs:88-114 | jobs leave a queue in the order they came, only to run, unless their worker dies |
| `Executor.CallsMoveOn` | crates/amsi_provider/src/executor.rs:120-175 | what a call has returned is final, and a waiting call returns only by receiving or giving up |
| `Executor.CountsAreExact` | crates/amsi_provider/src/executor.rs:30-35 | the count of queued jobs is the sum of the queue lengths |
| `Executor.BusyIsExact` | crates/amsi_provider/src/executor.rs:30-35 | the count of running jobs is the number of busy workers |
| `Executor.DispatchAloneMeaning` | crates/amsi_provider/src/executor.rs:139-160 | a dispatch loop left alone sheds exactly when no worker has room, and otherwise loads the first that has, round robin from its start |
| `Executor.ScanPool.constructor` | crates/amsi_provider/src/executor.rs:88-100 | all queues start empty |
| `Executor.ScanPool.Dispatch` | crates/amsi_provider/src/executor.rs:139-160 | the imperative loop: dispatched iff some live worker has room; exactly one queue gains the job, the first with room |

## Left out

- Sockets, tokio tasks, TLS, NRPT, logging and the decision hook: not modelled; what arrives from a peer before a deadline is a parameter.
- Transaction-id unpredictability: the id is any 16-bit value; nothing is claimed about randomness.
- Clocks are natural numbers in ticks; adding a lifetime to a clock reading never overflows.
- Loader.IngestLines: reads interrupted by a signal and retried by the platform are not separate events; UTF-8 decoding and IP-literal parsing are parameters.
- Edns.AppendLayout: octets after the last record are excluded, because the OPT is appended after them; `EgressExactly` covers the rest.
- Replies.EgressOpts: the same exclusion of octets after the last record.
- Admission.AdmissionSafety: overflow tasks that send SERVFAIL hold no permit, so the two bounds are stated apart and not as one on all tasks.
- TcpConnection.ServeConnection: each timed wait is assumed to end within its own budget; shutdown is not modelled.
- Cache locks: each cache operation is one step; lookups, stores and purges interleave freely between them.
- Proxy.DnsProxy.constructor: the listener's refusal of empty or self-referential upstream lists and of unusable health-check names, because it is about addresses, which the model does not have.
- Proxy.DnsProxy.HandleQuery: probes marked synthetic skip the user-facing counters; only user queries are modelled.
- `self_test`, health probes and live upstream validation: plumbing around members modelled here.
- Scoring.FloorIsScale: the floating-point scaling is any function within one below w * cap / total and monotone in the weight; the binary rounding is not modelled.
- Behaviour tags are a field of a finding: the string matching that derives them from fields no pass changes is not modelled.
- Mitigation.Evaluate: lower-casing of details is ASCII, which is enough for its six keywords; texts of reasons and provenance are not modelled.
- Explanations, confidence labels, threat maturity and the framework name shown to users: derived text that feeds nothing back.
- Noise suppression and context amplification between mitigation and aggregation: two steps of the caller, not part of aggregation.
- How the score changes when a finding is added: inside a capped layer the rounding makes it irregular, and nothing is claimed.
- Breaker.OpenNeedsThree: one report is one step; the two atomic stores of a report are not interleaved with another report.
- Executor.ExecutorSafety: the 250 ms budget is the freedom of a caller to give up at any time; nothing is claimed about when.
- Scanner layers (PE parsing, YARA, Authenticode, ClamAV), COM, ETW, restricted tokens, GUI and evaluation tools: foreign calls or plumbing.

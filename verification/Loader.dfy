/** `ingest_lines` and its line parsers, on the engine itself. UTF-8 decoding and IP-literal parsing are parameters. */
module Loader {
  import opened Bytes
  import opened Filter
  import opened Engine
  import opened ListText
  import opened ListLines
  import opened ListLoads

  // ---- the line parsers ----

  method ParseHostsLine(p: Platform, engine: FilterEngine, kind: ListKind, line: string, room: nat)
    returns (added: nat, rejected: nat)
    modifies engine
    ensures var offered := OfferedTokens(p, Hosts, line, room);
      && engine.Contents() == AddAll(old(engine.Contents()), kind, offered, ExactRule)
      && added == CountAccepted(offered) && rejected == Refused(Hosts, line, offered)
    ensures engine.unnormalizableQueries == old(engine.unnormalizableQueries)
  {
    hide AddToken, TokenAccepted, Tokens, BeforeComment, Within;
    var ts := Tokens(BeforeComment(line), "");
    WithinEmpty();
    if ts == [] || !p.isIp(ts[0]) { return 0, 0; }
    ts := ts[1..];
    var i := 0;
    added, rejected := 0, 0;
    while i < |ts|
      invariant 0 <= i <= |ts| && added == CountAccepted(ts[..i]) <= room && rejected == i - added
      invariant engine.Contents() == AddAll(old(engine.Contents()), kind, ts[..i], ExactRule)
      invariant Within(ts, room) == ts[..i] + Within(ts[i..], room - added)
      invariant engine.unnormalizableQueries == old(engine.unnormalizableQueries)
    {
      if added >= room { break; }
      AddAllSnoc(old(engine.Contents()), kind, ts[..i], ts[i], ExactRule);
      assert ts[..i + 1] == ts[..i] + [ts[i]];
      WithinStep(ts, i, room - added);
      var ok := engine.AddRule(kind, ts[i], ExactRule);
      if ok { added := added + 1; } else { rejected := rejected + 1; }
      i := i + 1;
    }
    if i == |ts| { assert ts[i..] == []; }
    assert Within(ts[i..], room - added) == [] && ts[..i] + [] == ts[..i];
  }

  method ParseDomainListLine(p: Platform, engine: FilterEngine, kind: ListKind, line: string, policy: RuleKind)
    returns (added: nat, rejected: nat)
    modifies engine
    ensures var offered := RuleTokens(p, DomainList(policy), line);
      && engine.Contents() == AddAll(old(engine.Contents()), kind, offered, policy)
      && added == CountAccepted(offered) <= 1 && rejected == Refused(DomainList(policy), line, offered) <= 1
    ensures engine.unnormalizableQueries == old(engine.unnormalizableQueries)
  {
    hide AddToken, TokenAccepted, Tokens, BeforeComment;
    var ts := Tokens(BeforeComment(line), "");
    if ts == [] { return 0, 0; }
    if |ts| > 1 { return 0, 1; }
    AddAllSnoc(engine.Contents(), kind, [], ts[0], policy);
    assert [] + [ts[0]] == ts;
    var ok := engine.AddRule(kind, ts[0], policy);
    if ok { return 1, 0; } else { return 0, 1; }
  }

  // ---- the loop ----

  /** One parsed line, whichever the format. */
  method ParseLine(p: Platform, engine: FilterEngine, format: Format, kind: ListKind, line: string, room: nat)
    returns (added: nat, rejected: nat)
    modifies engine
    ensures var offered := OfferedTokens(p, format, line, room);
      && engine.Contents() == AddAll(old(engine.Contents()), kind, offered, DefaultKind(format))
      && added == CountAccepted(offered) && rejected == Refused(format, line, offered)
    ensures engine.unnormalizableQueries == old(engine.unnormalizableQueries)
  {
    match format
    case Hosts => added, rejected := ParseHostsLine(p, engine, kind, line, room);
    case DomainList(policy) => added, rejected := ParseDomainListLine(p, engine, kind, line, policy);
  }

  /**
   Parse one line into the engine and charge it. A line that leaves room, and every domain-list line, has all its
   tokens offered; only the latter can overrun a budget of zero.
   */
  method IngestLine(
    p: Platform, engine: FilterEngine, format: Format, kind: ListKind, line: string, len: nat,
    before: LoadStats, maxRules: nat)
    returns (after: LoadStats)
    modifies engine
    ensures after == Charge(p, format, line, len, before, maxRules)
    ensures engine.unnormalizableQueries == old(engine.unnormalizableQueries)
    ensures var offered := OfferedTokens(p, format, line, Room(before, maxRules));
      && engine.Contents() == AddAll(old(engine.Contents()), kind, offered, DefaultKind(format))
      && offered <= RuleTokens(p, format, line)
      && (!after.truncated || format.DomainList? ==> offered == RuleTokens(p, format, line))
      && after.rulesAdded == before.rulesAdded + CountAccepted(offered)
    ensures before.rulesAdded < maxRules ==> after.rulesAdded <= maxRules
    ensures after.rulesAdded <= before.rulesAdded + if format.Hosts? then Room(before, maxRules) else 1
    ensures maxRules == 0 ==>
      (after.rulesAdded > before.rulesAdded <==> format.DomainList? && CountAccepted(RuleTokens(p, format, line)) > 0)
  {
    hide RuleTokens, AddAll, CountAccepted, OfferedTokens, Refused;
    OfferedIsPrefix(p, format, line, Room(before, maxRules));
    var added, rejected := ParseLine(p, engine, format, kind, line, Room(before, maxRules));
    after := LoadStats(before.linesRead + 1, before.bytesRead + len + 1, before.rulesAdded + added,
      before.linesSkipped + (if added == 0 then 1 else 0), before.hostsRejected + rejected,
      before.rulesAdded + added >= maxRules);
  }

  /** The loop of `ingest_lines`. */
  method IngestLoop(
    p: Platform, engine: FilterEngine, format: Format, kind: ListKind, src: Source,
    maxLines: nat, maxBytes: nat, maxRules: nat)
    returns (result: Result<LoadStats, ReadError>, consumed: nat)
    modifies engine
    ensures var t := LoadOf(p, format, src, Limits(maxLines, maxBytes, maxRules));
      result == Report(t) && consumed == t.load.pos
      && engine.Contents() == AddAll(old(engine.Contents()), kind, t.load.used, DefaultKind(format))
    ensures engine.unnormalizableQueries == old(engine.unnormalizableQueries)
  {
    hide Seen, LinesOf, PendingOf, ReadLine, AllTokens, RuleTokens, AddAll, CountAccepted, OfferedTokens, Chomp,
      Octets, Charge, Refused, InputEndsAt, FragmentParsed, FirstLine;
    var lim := Limits(maxLines, maxBytes, maxRules);
    ghost var before := engine.Contents();
    var stats := LoadStats(0, 0, 0, 0, 0, false);
    var left: nat := Min(maxBytes + 1, U64_MAX);
    var undecodableRun: nat := 0;
    consumed := 0;
    ghost var used: seq<string> := [];
    NothingAdded(before, kind, DefaultKind(format));
    var finished := false;
    while !finished
      invariant engine.Contents() == AddAll(before, kind, used, DefaultKind(format))
      invariant engine.unnormalizableQueries == old(engine.unnormalizableQueries)
      invariant var s := Load(consumed, left, undecodableRun, stats, used);
        LoadOf(p, format, src, lim) == if finished then Over(s) else LoadFrom(p, format, src, lim, s)
      decreases !finished, left, MAX_CONSECUTIVE_UNDECODABLE - undecodableRun
    {
      ghost var s := Load(consumed, left, undecodableRun, stats, used);
      ghost var turn := TurnOf(p, format, src, lim, s);
      var read := ReadLine(src, consumed, left, []);
      consumed, left := read.pos, read.left;
      match Deliver(p, read.what)
      case Finished =>
        finished := true;
      case Failed(e) =>
        if e == InvalidData && undecodableRun < MAX_CONSECUTIVE_UNDECODABLE {
          if stats.linesRead >= maxLines {
            stats, finished := stats.(truncated := true), true;
          } else {
            undecodableRun := undecodableRun + 1;
            stats := Undecodable(stats);
          }
        } else if stats.rulesAdded == 0 {
          assert turn == Broke(Load(consumed, left, undecodableRun, stats, used), e);
          return Err(e), consumed;
        } else {
          stats, finished := stats.(truncated := true), true;
        }
      case Text(line, len) =>
        undecodableRun := 0;
        if stats.linesRead >= maxLines || stats.bytesRead + len + 1 > maxBytes {
          stats, finished := stats.(truncated := true), true;
        } else {
          ghost var offered := OfferedTokens(p, format, line, Room(stats, maxRules));
          stats := IngestLine(p, engine, format, kind, line, len, stats, maxRules);
          AddAllConcat(before, kind, used, offered, DefaultKind(format));
          used := used + offered;
          finished := stats.truncated;
        }
      assert turn == if finished then Over(Load(consumed, left, undecodableRun, stats, used))
                     else Going(Load(consumed, left, undecodableRun, stats, used));
    }
    if left == 0 { stats := stats.(truncated := true); }
    return Ok(stats), consumed;
  }

  /**
   Loads a list. It terminates on every source, even one that fails forever without delivering an octet;
   lines, octets and rules stay within their budgets (a rule budget of zero is exceeded exactly by a domain list
   whose first line in reach carries a rule); a failure is reported only with the rules unchanged; the rules added
   are those of the first tokens of the lines consumed, whole lines unless a fragment is parsed; and a load not
   reported as truncated has added exactly the rules of every decodable line of the input.
   */
  method IngestLines(
    p: Platform, engine: FilterEngine, format: Format, kind: ListKind, src: Source,
    maxLines: nat, maxBytes: nat, maxRules: nat)
    returns (result: Result<LoadStats, ReadError>, consumed: nat)
    modifies engine
    ensures var t := LoadOf(p, format, src, Limits(maxLines, maxBytes, maxRules));
      result == Report(t) && consumed == t.load.pos
      && engine.Contents() == AddAll(old(engine.Contents()), kind, t.load.used, DefaultKind(format))
    ensures result.Err? ==> engine.Contents() == old(engine.Contents())
    ensures result.Ok? ==> result.value.linesRead <= maxLines && result.value.bytesRead <= maxBytes
    ensures result.Ok? && maxRules >= 1 ==> result.value.rulesAdded <= maxRules
    ensures result.Ok? && maxRules == 0 ==> result.value.rulesAdded <= if format.Hosts? then 0 else 1
    ensures maxRules == 0 ==>
      (result.Ok? && result.value.rulesAdded > maxRules <==>
        var first := FirstLineOf(p, src, Limits(maxLines, maxBytes, maxRules));
        format.DomainList? && first.Some? && CountAccepted(RuleTokens(p, format, first.value)) > 0)
    ensures result.Ok? ==>
      var lim, used := Limits(maxLines, maxBytes, maxRules),
        LoadOf(p, format, src, Limits(maxLines, maxBytes, maxRules)).load.used;
      && result.value.rulesAdded == CountAccepted(used) && used <= AllTokens(p, format, Seen(src, consumed))
      && (used <= AllTokens(p, format, LinesOf(src, consumed)) <==>
            !(FragmentParsed(p, src, lim, consumed) && FragmentTokens(p, format, src, lim, consumed) != []))
      && (Octets(src, consumed) < OctetLimit(lim) ==> PendingOf(src, consumed) == [])
    ensures result.Ok? && !result.value.truncated ==>
      && consumed >= 1 && InputEndsAt(src, consumed - 1)
      && engine.Contents() == AddAll(old(engine.Contents()), kind,
           AllTokens(p, format, LinesOf(src, consumed)), DefaultKind(format))
    ensures engine.unnormalizableQueries == old(engine.unnormalizableQueries)
  {
    hide LoadOf, Report, Seen, LinesOf, PendingOf, AllTokens, RuleTokens, AddAll, CountAccepted, Octets, InputEndsAt,
      FragmentParsed, FragmentTokens, FirstLineOf;
    ghost var before, t := engine.Contents(), LoadOf(p, format, src, Limits(maxLines, maxBytes, maxRules));
    result, consumed := IngestLoop(p, engine, format, kind, src, maxLines, maxBytes, maxRules);
    ReportMeaning(p, format, src, Limits(maxLines, maxBytes, maxRules));
    if result.Err? { NoneAcceptedNoChange(before, kind, t.load.used, DefaultKind(format)); }
  }

  lemma NothingAdded(rules: Rules, kind: ListKind, d: RuleKind)
    ensures AddAll(rules, kind, [], d) == rules
  {
  }
}

/** The list load as a function of its source, turn by turn, and what it comes to. */
module ListLoads {
  import opened Bytes
  import opened Presentation
  import opened Filter
  import opened Engine
  import opened ListText
  import opened ListLines

  const MAX_CONSECUTIVE_UNDECODABLE: nat := 64
  const U64_MAX: nat := 0xFFFF_FFFF_FFFF_FFFF

  datatype LoadStats = LoadStats(
    linesRead: nat, bytesRead: nat, rulesAdded: nat, linesSkipped: nat, hostsRejected: nat, truncated: bool)

  // ---- ingest_lines, one turn at a time ----

  datatype Limits = Limits(lines: nat, bytes: nat, rules: nat)

  /** What the line iterator hands to the loop. */
  datatype Delivery = Finished | Failed(error: ReadError) | Text(line: string, len: nat)

  function Deliver(p: Platform, what: LineRead): (d: Delivery) {
    match what
    case NoLine => Finished
    case Broken(e) => Failed(e)
    case Line(raw) =>
      match p.decode(Chomp(raw))
      case None => Failed(InvalidData)
      case Some(line) => Text(line, |Chomp(raw)|)
  }

  /** Rules that may still be added: `max_rules.saturating_sub(rules_added)`. */
  function Room(stats: LoadStats, maxRules: nat): nat { RoomAfter(stats.rulesAdded, maxRules) }

  function RoomAfter(added: nat, maxRules: nat): nat { if added <= maxRules then maxRules - added else 0 }

  /** Accounting of one skipped line. */
  function Undecodable(s: LoadStats): LoadStats {
    s.(linesRead := s.linesRead + 1, linesSkipped := s.linesSkipped + 1, hostsRejected := s.hostsRejected + 1)
  }

  /** Accounting of one parsed line. */
  function Charge(p: Platform, format: Format, line: string, len: nat, s: LoadStats, maxRules: nat): (t: LoadStats) {
    var offered := OfferedTokens(p, format, line, Room(s, maxRules));
    var added := CountAccepted(offered);
    LoadStats(s.linesRead + 1, s.bytesRead + len + 1, s.rulesAdded + added,
              s.linesSkipped + (if added == 0 then 1 else 0), s.hostsRejected + Refused(format, line, offered),
              s.rulesAdded + added >= maxRules)
  }

  /** A line that does not decode is one line read, one skipped and one malformed entry, and costs no octets. */
  lemma UndecodableMeaning(s: LoadStats)
    ensures var t := Undecodable(s);
      && t.linesRead - s.linesRead == t.linesSkipped - s.linesSkipped == t.hostsRejected - s.hostsRejected == 1
      && t.bytesRead == s.bytesRead && t.rulesAdded == s.rulesAdded && t.truncated == s.truncated
  {
  }

  /**
   A parsed line is one line read, its octets and terminator are charged, its rules counted, and it is skipped exactly
   if it adds none; malformed are the tokens offered and refused, or the one entry that is a line of several domains.
   */
  lemma ChargeMeaning(p: Platform, format: Format, line: string, len: nat, s: LoadStats, maxRules: nat)
    ensures var t := Charge(p, format, line, len, s, maxRules);
      var offered := OfferedTokens(p, format, line, Room(s, maxRules));
      && t.linesRead == s.linesRead + 1 && t.bytesRead - s.bytesRead == len + 1
      && t.rulesAdded - s.rulesAdded == CountAccepted(offered)
      && t.linesSkipped - s.linesSkipped == (if t.rulesAdded > s.rulesAdded then 0 else 1)
      && (format.Hosts? ==> t.hostsRejected - s.hostsRejected == |offered| - CountAccepted(offered))
      && (format.DomainList? ==>
            t.hostsRejected - s.hostsRejected
            == if Tokens(BeforeComment(line), "") == [] || CountAccepted(offered) == 1 then 0 else 1)
      && (t.truncated <==> t.rulesAdded >= maxRules)
  {
    hide Tokens, BeforeComment, TokenAccepted, Within;
    OfferedIsPrefix(p, format, line, Room(s, maxRules));
  }

  /** Where a load stands: position, octets of limit left, undecodable run, accounts, and tokens offered so far. */
  datatype Load = Load(pos: nat, left: nat, run: nat, stats: LoadStats, used: seq<string>)
  datatype Turn = Going(load: Load) | Over(load: Load) | Broke(load: Load, error: ReadError)

  function Cutoff(s: Load): Load { s.(stats := s.stats.(truncated := true)) }

  /** One turn of the loop. */
  function TurnOf(p: Platform, format: Format, src: Source, lim: Limits, s: Load): (t: Turn)
    ensures t.Going? ==>
      || t.load.left < s.left
      || (t.load.left == s.left && s.run < MAX_CONSECUTIVE_UNDECODABLE && t.load.run == s.run + 1)
  {
    var r := ReadLine(src, s.pos, s.left, []);
    var at := s.(pos := r.pos, left := r.left);
    match Deliver(p, r.what)
    case Finished => Over(at)
    case Failed(e) =>
      if e == InvalidData && s.run < MAX_CONSECUTIVE_UNDECODABLE then
        if s.stats.linesRead >= lim.lines then Over(Cutoff(at))
        else Going(at.(run := s.run + 1, stats := Undecodable(s.stats)))
      else if s.stats.rulesAdded == 0 then Broke(at, e)
      else Over(Cutoff(at))
    case Text(line, len) =>
      if s.stats.linesRead >= lim.lines || s.stats.bytesRead + len + 1 > lim.bytes then Over(Cutoff(at.(run := 0)))
      else
        var next := at.(run := 0, stats := Charge(p, format, line, len, s.stats, lim.rules),
                        used := s.used + OfferedTokens(p, format, line, Room(s.stats, lim.rules)));
        if next.stats.truncated then Over(next) else Going(next)
  }

  /** The loop: it ends on every source, because each turn uses up octets or undecodable retries. */
  function LoadFrom(p: Platform, format: Format, src: Source, lim: Limits, s: Load): (t: Turn)
    ensures !t.Going?
    decreases s.left, MAX_CONSECUTIVE_UNDECODABLE - s.run
  {
    var t := TurnOf(p, format, src, lim, s);
    if t.Going? then LoadFrom(p, format, src, lim, t.load) else t
  }

  function OctetLimit(lim: Limits): nat { Min(lim.bytes + 1, U64_MAX) }

  function Start(lim: Limits): Load { Load(0, OctetLimit(lim), 0, LoadStats(0, 0, 0, 0, 0, false), []) }

  function LoadOf(p: Platform, format: Format, src: Source, lim: Limits): (t: Turn) {
    LoadFrom(p, format, src, lim, Start(lim))
  }

  /** What the caller is told; a load that used up the octet limit is reported as truncated. */
  function Report(t: Turn): (r: Result<LoadStats, ReadError>) {
    if t.Broke? then Err(t.error)
    else Ok(t.load.stats.(truncated := t.load.stats.truncated || t.load.left == 0))
  }

  // ---- what a load has done, in terms of the input ----

  /** Octets the accounts charge for the decoded lines among `lines`, one of them for each terminator. */
  function Charged(p: Platform, lines: seq<seq<byte>>): (n: nat) {
    if lines == [] then 0
    else
      var raw := lines[|lines| - 1];
      Charged(p, lines[..|lines| - 1]) + if p.decode(Chomp(raw)).Some? then |Chomp(raw)| + 1 else 0
  }

  /** A load still going: exactly the lines seen so far are accounted for and offered. */
  ghost predicate Coherent(p: Platform, format: Format, src: Source, lim: Limits, s: Load) {
    var seen := Seen(src, s.pos);
    && s.left + Octets(src, s.pos) == OctetLimit(lim)
    && (s.left > 0 ==> PendingOf(src, s.pos) == [])
    && s.used == AllTokens(p, format, seen) && s.stats.rulesAdded == CountAccepted(s.used)
    && s.stats.linesRead == |seen| + Failures(src, s.pos) <= lim.lines
    && s.stats.bytesRead == Charged(p, seen) <= lim.bytes
    && (s.stats.rulesAdded < lim.rules || s.stats.rulesAdded == s.stats.bytesRead == 0)
    && !s.stats.truncated
  }

  /** Whether the fragment the octet limit cut off at `n` is parsed as if it were a line. */
  ghost predicate FragmentParsed(p: Platform, src: Source, lim: Limits, n: nat) {
    var whole, fragment := LinesOf(src, n), PendingOf(src, n);
    && fragment != [] && p.decode(Chomp(fragment)).Some?
    && |whole| + Failures(src, n) < lim.lines
    && Charged(p, whole) + |Chomp(fragment)| + 1 <= lim.bytes
  }

  /** The tokens of that fragment that reach the engine: those that find room after all the whole lines. */
  function FragmentTokens(p: Platform, format: Format, src: Source, lim: Limits, n: nat): (ts: seq<string>) {
    match p.decode(Chomp(PendingOf(src, n)))
    case None => []
    case Some(line) =>
      var before := CountAccepted(AllTokens(p, format, LinesOf(src, n)));
      OfferedTokens(p, format, line, RoomAfter(before, lim.rules))
  }

  /**
   Where the rules came from: the tokens offered are the first ones of the whole lines; if the fragment is parsed, they
   are all of those and then the fragment's that find room.
   */
  ghost predicate Offered(p: Platform, format: Format, src: Source, lim: Limits, s: Load) {
    var whole := AllTokens(p, format, LinesOf(src, s.pos));
    if FragmentParsed(p, src, lim, s.pos) then s.used == whole + FragmentTokens(p, format, src, lim, s.pos)
    else s.used <= whole
  }

  /** A load that is over. */
  ghost predicate Settled(p: Platform, format: Format, src: Source, lim: Limits, s: Load) {
    && s.left + Octets(src, s.pos) == OctetLimit(lim)
    && (s.left > 0 ==> PendingOf(src, s.pos) == [])
    && s.stats.linesRead <= lim.lines && s.stats.bytesRead <= lim.bytes
    && s.stats.rulesAdded == CountAccepted(s.used)
    && s.stats.rulesAdded <= (if format.Hosts? || lim.rules > 0 then lim.rules else 1)
    && Offered(p, format, src, lim, s)
    && (!s.stats.truncated && s.left > 0 ==>
          s.pos >= 1 && InputEndsAt(src, s.pos - 1) && s.used == AllTokens(p, format, LinesOf(src, s.pos)))
  }

  lemma ChargedSnoc(p: Platform, lines: seq<seq<byte>>, raw: seq<byte>)
    ensures Charged(p, lines + [raw]) == Charged(p, lines) + if p.decode(Chomp(raw)).Some? then |Chomp(raw)| + 1 else 0
  {
    assert (lines + [raw])[..|lines|] == lines;
  }

  /** What one read does to everything that is counted. */
  lemma ReadCounts(p: Platform, format: Format, src: Source, s: Load)
    requires s.left > 0 ==> PendingOf(src, s.pos) == []
    ensures var r := ReadLine(src, s.pos, s.left, []);
      && r.left + Octets(src, r.pos) == s.left + Octets(src, s.pos)
      && (r.left > 0 ==> PendingOf(src, r.pos) == [])
      && |Seen(src, r.pos)| + Failures(src, r.pos)
         == |Seen(src, s.pos)| + Failures(src, s.pos) + (if r.what.NoLine? then 0 else 1)
      && AllTokens(p, format, Seen(src, r.pos))
         == AllTokens(p, format, Seen(src, s.pos)) + (if r.what.Line? then DecodedTokens(p, format, r.what.raw) else [])
      && Charged(p, Seen(src, r.pos)) == Charged(p, Seen(src, s.pos))
         + (if r.what.Line? && p.decode(Chomp(r.what.raw)).Some? then |Chomp(r.what.raw)| + 1 else 0)
      && (r.what.NoLine? && r.left > 0 ==> r.pos == s.pos + 1 && InputEndsAt(src, s.pos))
  {
    hide LinesOf, PendingOf, ReadLine, AllTokens, DecodedTokens, Charged, Chomp, Octets, Failures;
    var r := ReadLine(src, s.pos, s.left, []);
    ReadsTo(src, s);
    if r.what.Line? {
      AllTokensSnoc(p, format, Seen(src, s.pos), r.what.raw);
      ChargedSnoc(p, Seen(src, s.pos), r.what.raw);
    } else {
      assert Seen(src, s.pos) + [] == Seen(src, s.pos);
      assert AllTokens(p, format, Seen(src, s.pos)) + [] == AllTokens(p, format, Seen(src, s.pos));
    }
  }

  lemma ReadsTo(src: Source, s: Load)
    requires s.left > 0 ==> PendingOf(src, s.pos) == []
    ensures var r := ReadLine(src, s.pos, s.left, []);
      && Seen(src, r.pos) == Seen(src, s.pos) + (if r.what.Line? then [r.what.raw] else [])
      && r.left + Octets(src, r.pos) == s.left + Octets(src, s.pos)
      && Failures(src, r.pos) == Failures(src, s.pos) + (if r.what.Broken? then 1 else 0)
      && (r.left > 0 ==> PendingOf(src, r.pos) == [])
      && (r.what.NoLine? && r.left > 0 ==> r.pos == s.pos + 1 && InputEndsAt(src, s.pos))
      && (PendingOf(src, r.pos) != [] ==>
            if s.left == 0 then r.what.NoLine? && r.pos == s.pos
            else r.what == Line(PendingOf(src, r.pos)) && LinesOf(src, r.pos) == Seen(src, s.pos))
  {
    hide LinesOf, PendingOf, Octets, Failures;
    if s.left == 0 {
      assert Seen(src, s.pos) + [] == Seen(src, s.pos);
    } else {
      hide ReadLine;
      ReadLineIsNextLine(src, s.pos, s.left, []);
      assert LinesOf(src, s.pos) + [] == LinesOf(src, s.pos);
      var r := ReadLine(src, s.pos, s.left, []);
      if PendingOf(src, r.pos) != [] {
        assert Seen(src, r.pos)[|LinesOf(src, s.pos)|] == PendingOf(src, r.pos);
      }
    }
  }

  lemma TurnKeeps(p: Platform, format: Format, src: Source, lim: Limits, s: Load)
    requires Coherent(p, format, src, lim, s) && TurnOf(p, format, src, lim, s).Going?
    ensures Coherent(p, format, src, lim, TurnOf(p, format, src, lim, s).load)
  {
    hide Seen, LinesOf, PendingOf, ReadLine, AllTokens, RuleTokens, OfferedTokens, Charged, Chomp, Octets, Failures,
      Refused, CountAccepted, InputEndsAt;
    ReadCounts(p, format, src, s);
    match Deliver(p, ReadLine(src, s.pos, s.left, []).what)
    case Finished =>
    case Failed(e) =>
      assert AllTokens(p, format, Seen(src, s.pos)) + [] == AllTokens(p, format, Seen(src, s.pos));
    case Text(line, len) =>
      var offered := OfferedTokens(p, format, line, Room(s.stats, lim.rules));
      CountConcat(s.used, offered);
      OfferedIsPrefix(p, format, line, Room(s.stats, lim.rules));
      RoomRemains(format, s, lim, offered);
  }

  /** A load still going has room, and so a line that leaves room had all its tokens offered. */
  lemma RoomRemains(format: Format, s: Load, lim: Limits, offered: seq<string>)
    requires s.stats.rulesAdded < lim.rules || s.stats.rulesAdded == 0
    ensures s.stats.rulesAdded + CountAccepted(offered) < lim.rules ==>
      CountAccepted(offered) < Room(s.stats, lim.rules)
  {
    hide CountAccepted;
  }

  lemma CountConcat(a: seq<string>, b: seq<string>)
    ensures CountAccepted(a + b) == CountAccepted(a) + CountAccepted(b)
  {
    AddAllConcat(Rules({}, {}, {}, {}), BlockList, a, b, ExactRule);
  }

  /** A load that has parsed everything seen, fragment included. */
  lemma CoherentOffers(p: Platform, format: Format, src: Source, lim: Limits, s: Load)
    requires Coherent(p, format, src, lim, s)
    ensures Offered(p, format, src, lim, s)
  {
    hide LinesOf, PendingOf, AllTokens, Charged, Chomp, Octets, Failures, DecodedTokens, CountAccepted, FragmentTokens;
    var whole, fragment := LinesOf(src, s.pos), PendingOf(src, s.pos);
    if fragment == [] {
      assert whole + [] == whole;
    } else {
      AllTokensSnoc(p, format, whole, fragment);
      ChargedSnoc(p, whole, fragment);
      if p.decode(Chomp(fragment)).None? {
        NothingDecoded(p, format, whole, fragment);
      } else {
        AllFindRoom(p, format, src, lim, s.pos);
      }
    }
  }

  /** If the fragment leaves room, all its tokens found some. */
  lemma AllFindRoom(p: Platform, format: Format, src: Source, lim: Limits, n: nat)
    requires p.decode(Chomp(PendingOf(src, n))).Some?
    requires CountAccepted(AllTokens(p, format, LinesOf(src, n)) + DecodedTokens(p, format, PendingOf(src, n)))
           < lim.rules
    ensures FragmentTokens(p, format, src, lim, n) == DecodedTokens(p, format, PendingOf(src, n))
  {
    hide LinesOf, PendingOf, AllTokens, Chomp, CountAccepted, RuleTokens, Within;
    var whole := AllTokens(p, format, LinesOf(src, n));
    CountConcat(whole, DecodedTokens(p, format, PendingOf(src, n)));
    WithinAll(DecodedTokens(p, format, PendingOf(src, n)), RoomAfter(CountAccepted(whole), lim.rules));
  }

  lemma NothingDecoded(p: Platform, format: Format, whole: seq<seq<byte>>, raw: seq<byte>)
    requires p.decode(Chomp(raw)).None?
    ensures DecodedTokens(p, format, raw) == [] && AllTokens(p, format, whole) + [] == AllTokens(p, format, whole)
  {
  }

  /** The load is cut off at a read whose line, if any, is not parsed. */
  lemma CutoffOffers(p: Platform, format: Format, src: Source, lim: Limits, s: Load)
    requires Coherent(p, format, src, lim, s)
    requires var r := ReadLine(src, s.pos, s.left, []);
      !r.what.NoLine? && (Deliver(p, r.what).Text? ==>
        s.stats.linesRead >= lim.lines || s.stats.bytesRead + |Chomp(r.what.raw)| + 1 > lim.bytes)
    ensures var r := ReadLine(src, s.pos, s.left, []);
      forall t: Load :: t.pos == r.pos && t.used == s.used ==> Offered(p, format, src, lim, t)
  {
    hide LinesOf, PendingOf, AllTokens, Charged, Chomp, Octets, Failures, DecodedTokens, CountAccepted, ReadLine;
    var r := ReadLine(src, s.pos, s.left, []);
    ReadsTo(src, s);
    ReadCounts(p, format, src, s);
    if PendingOf(src, r.pos) == [] {
      assert LinesOf(src, r.pos) + [] == LinesOf(src, r.pos);
    }
  }

  /** The load ends with a parsed line. */
  lemma FullOffers(p: Platform, format: Format, src: Source, lim: Limits, s: Load, line: string)
    requires Coherent(p, format, src, lim, s)
    requires var r := ReadLine(src, s.pos, s.left, []);
      && r.what.Line? && p.decode(Chomp(r.what.raw)) == Some(line)
      && s.stats.linesRead < lim.lines && s.stats.bytesRead + |Chomp(r.what.raw)| + 1 <= lim.bytes
    ensures var r := ReadLine(src, s.pos, s.left, []);
      forall t: Load ::
        t.pos == r.pos && t.used == s.used + OfferedTokens(p, format, line, Room(s.stats, lim.rules))
        ==> Offered(p, format, src, lim, t)
  {
    hide LinesOf, PendingOf, AllTokens, Charged, Chomp, Octets, Failures, CountAccepted, ReadLine, RuleTokens,
      OfferedTokens;
    var r, room := ReadLine(src, s.pos, s.left, []), Room(s.stats, lim.rules);
    ReadsTo(src, s);
    ReadCounts(p, format, src, s);
    if PendingOf(src, r.pos) == [] {
      OfferedIsPrefix(p, format, line, room);
      PrefixOfSum(s.used, OfferedTokens(p, format, line, room), RuleTokens(p, format, line));
      assert LinesOf(src, r.pos) + [] == LinesOf(src, r.pos);
    }
  }

  lemma PrefixOfSum(a: seq<string>, b: seq<string>, c: seq<string>)
    requires b <= c
    ensures a <= a + b <= a + c
  {
  }

  /** The reader reports the end. */
  lemma EndOffers(p: Platform, format: Format, src: Source, lim: Limits, s: Load)
    requires Coherent(p, format, src, lim, s) && ReadLine(src, s.pos, s.left, []).what.NoLine?
    ensures var r := ReadLine(src, s.pos, s.left, []);
      && (forall t: Load ::
            t.pos == r.pos && t.used == s.used && t.stats == s.stats ==> Offered(p, format, src, lim, t))
      && (r.left > 0 ==> s.used == AllTokens(p, format, LinesOf(src, r.pos)))
  {
    hide LinesOf, PendingOf, AllTokens, Charged, Chomp, Octets, Failures, CountAccepted, ReadLine;
    var r := ReadLine(src, s.pos, s.left, []);
    ReadsTo(src, s);
    ReadCounts(p, format, src, s);
    CoherentOffers(p, format, src, lim, s);
    assert AllTokens(p, format, Seen(src, s.pos)) + [] == AllTokens(p, format, Seen(src, s.pos));
    if PendingOf(src, r.pos) == [] {
      assert LinesOf(src, r.pos) + [] == LinesOf(src, r.pos);
    }
  }

  lemma TurnSettles(p: Platform, format: Format, src: Source, lim: Limits, s: Load)
    requires Coherent(p, format, src, lim, s) && !TurnOf(p, format, src, lim, s).Going?
    ensures Settled(p, format, src, lim, TurnOf(p, format, src, lim, s).load)
      || TurnOf(p, format, src, lim, s).Broke?
    ensures TurnOf(p, format, src, lim, s).Broke? ==> CountAccepted(TurnOf(p, format, src, lim, s).load.used) == 0
  {
    hide Seen, LinesOf, PendingOf, ReadLine, AllTokens, RuleTokens, OfferedTokens, Charged, Chomp, Octets, Failures,
      Refused, CountAccepted, InputEndsAt, Offered;
    ReadCounts(p, format, src, s);
    var r := ReadLine(src, s.pos, s.left, []);
    match Deliver(p, r.what)
    case Finished =>
      EndOffers(p, format, src, lim, s);
    case Failed(e) =>
      CutoffOffers(p, format, src, lim, s);
    case Text(line, len) =>
      if s.stats.linesRead >= lim.lines || s.stats.bytesRead + len + 1 > lim.bytes {
        CutoffOffers(p, format, src, lim, s);
      } else {
        var offered := OfferedTokens(p, format, line, Room(s.stats, lim.rules));
        CountConcat(s.used, offered);
        OfferedIsPrefix(p, format, line, Room(s.stats, lim.rules));
        FullOffers(p, format, src, lim, s, line);
      }
  }

  lemma {:induction false} LoadSettles(p: Platform, format: Format, src: Source, lim: Limits, s: Load)
    requires Coherent(p, format, src, lim, s)
    ensures var t := LoadFrom(p, format, src, lim, s);
      if t.Broke? then CountAccepted(t.load.used) == 0 else Settled(p, format, src, lim, t.load)
    decreases s.left, MAX_CONSECUTIVE_UNDECODABLE - s.run
  {
    hide Coherent, TurnOf, CountAccepted, Settled;
    var t := TurnOf(p, format, src, lim, s);
    if t.Going? {
      TurnKeeps(p, format, src, lim, s);
      LoadSettles(p, format, src, lim, t.load);
    } else {
      TurnSettles(p, format, src, lim, s);
    }
  }

  lemma StartIsCoherent(p: Platform, format: Format, src: Source, lim: Limits)
    ensures Coherent(p, format, src, lim, Start(lim))
  {
    assert Seen(src, 0) == [];
  }

  /**
   What a load comes to, on every source. A failure leaves no accepted token; otherwise the budgets hold, the tokens
   offered are the first ones of the lines seen, and a load not reported as truncated reached the end of the input
   and offered every token of every decodable line.
   */
  lemma LoadMeaning(p: Platform, format: Format, src: Source, lim: Limits)
    ensures var t := LoadOf(p, format, src, lim);
      && (t.Broke? ==> CountAccepted(t.load.used) == 0)
      && (t.Over? ==> Settled(p, format, src, lim, t.load))
  {
    StartIsCoherent(p, format, src, lim);
    LoadSettles(p, format, src, lim, Start(lim));
  }

  /**
   Exactly when all tokens offered are those of whole lines: unless a fragment is parsed and carries a token that finds
   room. In any case they are tokens of the lines seen, the fragment last.
   */
  lemma RulesComeFromWholeLines(p: Platform, format: Format, src: Source, lim: Limits, s: Load)
    requires Offered(p, format, src, lim, s)
    ensures s.used <= AllTokens(p, format, LinesOf(src, s.pos)) <==>
      !(FragmentParsed(p, src, lim, s.pos) && FragmentTokens(p, format, src, lim, s.pos) != [])
    ensures s.used <= AllTokens(p, format, Seen(src, s.pos))
  {
    hide LinesOf, PendingOf, AllTokens, CountAccepted, RuleTokens, OfferedTokens, Chomp;
    WholeIsSeen(p, format, src, s.pos);
    if FragmentParsed(p, src, lim, s.pos) {
      AllTokensSnoc(p, format, LinesOf(src, s.pos), PendingOf(src, s.pos));
      var whole := AllTokens(p, format, LinesOf(src, s.pos));
      var line := p.decode(Chomp(PendingOf(src, s.pos))).value;
      OfferedIsPrefix(p, format, line, RoomAfter(CountAccepted(whole), lim.rules));
      PrefixOfSum(whole, FragmentTokens(p, format, src, lim, s.pos), RuleTokens(p, format, line));
    }
  }

  // ---- read failures, and input that is empty or never comes ----

  /** A read that fails for good ends the load: as an error if it added nothing yet, else as a truncated load. */
  lemma FailureEndsLoad(p: Platform, format: Format, src: Source, lim: Limits, s: Load, e: ReadError)
    requires Coherent(p, format, src, lim, s) && ReadLine(src, s.pos, s.left, []).what == Broken(e)
    requires e == OtherError || s.run >= 64
    ensures var t := LoadFrom(p, format, src, lim, s);
      && t.load.used == s.used
      && (CountAccepted(s.used) == 0 ==> Report(t) == Err(e))
      && (CountAccepted(s.used) > 0 ==> Report(t).Ok? && Report(t).value.truncated)
  {
    hide Seen, LinesOf, PendingOf, ReadLine, AllTokens, Charged, Octets, Failures, CountAccepted;
    assert TurnOf(p, format, src, lim, s).load.used == s.used;
  }

  /** Undecodable input that never advances is retried 64 times and then reported. */
  lemma {:induction false} StuckReaderFrom(p: Platform, format: Format, src: Source, lim: Limits, s: Load)
    requires (forall i :: src(i) == Fail(InvalidData)) && lim.lines >= 64
    requires s.left > 0 && s.stats.rulesAdded == 0 && s.stats.linesRead == s.run <= 64
    ensures var t := LoadFrom(p, format, src, lim, s);
      Report(t) == Err(InvalidData) && t.load.pos == s.pos + 65 - s.run
    decreases 64 - s.run
  {
    assert ReadLine(src, s.pos, s.left, []) == Read(Broken(InvalidData), s.pos + 1, s.left);
    if s.run < 64 { StuckReaderFrom(p, format, src, lim, TurnOf(p, format, src, lim, s).load); }
  }

  lemma StuckReaderEnds(p: Platform, format: Format, src: Source, lim: Limits)
    requires (forall i :: src(i) == Fail(InvalidData)) && lim.lines >= 64
    ensures var t := LoadOf(p, format, src, lim); Report(t) == Err(InvalidData) && t.load.pos == 65
  {
    hide LoadFrom;
    StuckReaderFrom(p, format, src, lim, Start(lim));
  }

  /** An empty list is loaded whole, and nothing is counted. */
  lemma EmptyInputLoads(p: Platform, format: Format, src: Source, lim: Limits)
    requires src(0) == End
    ensures Report(LoadOf(p, format, src, lim)) == Ok(LoadStats(0, 0, 0, 0, 0, false))
  {
    assert ReadLine(src, 0, OctetLimit(lim), []) == Read(NoLine, 1, OctetLimit(lim));
    assert TurnOf(p, format, src, lim, Start(lim)).Over?;
  }

  // ---- when a fragment becomes a rule ----

  lemma {:induction false} PendingIsOpen(src: Source, n: nat)
    ensures var got := PendingOf(src, n); Chomp(got) == got
    decreases n
  {
    if n > 0 {
      hide LinesOf, PendingOf;
      PendingIsOpen(src, n - 1);
      LinesGrow(src, n - 1);
      OneItem(src(n - 1), PendingOf(src, n - 1));
    } else {
      assert Items(src, 0) == [];
    }
  }

  /**
   Exactly when the fragment left by an exhausted octet limit is parsed as if it were a line: it decodes, a line is
   still allowed, and the accounts lag at least two octets behind what was read before it (one, if the octet budget
   is the largest 64-bit number, which leaves no spare octet in the limit).
   */
  lemma FragmentParsedExactly(p: Platform, src: Source, lim: Limits, n: nat)
    requires Octets(src, n) == OctetLimit(lim) && lim.bytes <= U64_MAX && PendingOf(src, n) != []
    ensures var whole, fragment := LinesOf(src, n), PendingOf(src, n);
      FragmentParsed(p, src, lim, n) <==>
        && p.decode(fragment).Some? && |whole| + Failures(src, n) < lim.lines
        && Charged(p, whole) + (if lim.bytes < U64_MAX then 2 else 1) <= Octets(src, n) - |fragment|
  {
    hide LinesOf, PendingOf, Charged, Chomp, Octets, Failures;
    PendingIsOpen(src, n);
  }

  /** A line that decodes and does not end in CR LF is charged in full. */
  predicate PlainLine(p: Platform, raw: seq<byte>) {
    p.decode(Chomp(raw)).Some? && |raw| <= |Chomp(raw)| + 1
  }

  /** Plain lines are those that decode and are not ended by CR LF. */
  lemma PlainLineMeaning(p: Platform, raw: seq<byte>)
    requires p.decode(Chomp(raw)).Some?
    ensures PlainLine(p, raw) <==> !(|raw| >= 2 && raw[|raw| - 2..] == [13, 10])
  {
  }

  /** The accounts never lag while all lines are plain and no read fails, so no fragment is then parsed. */
  lemma {:induction false} PlainLinesKeepUp(p: Platform, src: Source, n: nat)
    requires Failures(src, n) == 0 && forall raw :: raw in LinesOf(src, n) ==> PlainLine(p, raw)
    ensures Octets(src, n) <= Charged(p, LinesOf(src, n)) + |PendingOf(src, n)|
    decreases n
  {
    hide LinesOf, PendingOf, Charged, PlainLine;
    if n > 0 {
      LinesGrow(src, n - 1);
      OneItem(src(n - 1), PendingOf(src, n - 1));
      PlainLinesKeepUp(p, src, n - 1);
      var before, got := LinesOf(src, n - 1), PendingOf(src, n - 1);
      assert before + [] == before;
      var grown := Lines([src(n - 1)], got);
      if grown != [] {
        assert grown[0] in LinesOf(src, n);
        ChargedSnoc(p, before, grown[0]);
        ChargeOfPlain(p, grown[0]);
      }
    }
  }

  /** So on such input no limit ever makes a rule of a fragment: all rules are those of whole lines. */
  lemma PlainInputAddsNoFragment(p: Platform, src: Source, lim: Limits, n: nat)
    requires Failures(src, n) == 0 && forall raw :: raw in LinesOf(src, n) ==> PlainLine(p, raw)
    requires Octets(src, n) == OctetLimit(lim) && lim.bytes <= U64_MAX
    ensures !FragmentParsed(p, src, lim, n)
  {
    hide LinesOf, PendingOf, Charged, Chomp, Octets, Failures, PlainLine, FragmentParsed;
    PlainLinesKeepUp(p, src, n);
    if PendingOf(src, n) == [] {
      NoFragment(p, src, lim, n);
    } else {
      FragmentParsedExactly(p, src, lim, n);
    }
  }

  lemma NoFragment(p: Platform, src: Source, lim: Limits, n: nat)
    requires PendingOf(src, n) == []
    ensures !FragmentParsed(p, src, lim, n)
  {
  }

  lemma ChargeOfPlain(p: Platform, raw: seq<byte>)
    requires PlainLine(p, raw)
    ensures p.decode(Chomp(raw)).Some? && |Chomp(raw)| + 1 >= |raw|
  {
  }

  // ---- a rule budget of zero ----

  /** The first line to be decoded within the line and octet budgets, before any line was. */
  function FirstLine(p: Platform, src: Source, lim: Limits, pos: nat, left: nat, run: nat, linesRead: nat)
    : (line: Option<string>)
    decreases left, MAX_CONSECUTIVE_UNDECODABLE - run
  {
    var r := ReadLine(src, pos, left, []);
    match Deliver(p, r.what)
    case Finished => None
    case Failed(e) =>
      if e == InvalidData && run < MAX_CONSECUTIVE_UNDECODABLE && linesRead < lim.lines
      then FirstLine(p, src, lim, r.pos, r.left, run + 1, linesRead + 1)
      else None
    case Text(line, len) => if linesRead < lim.lines && len + 1 <= lim.bytes then Some(line) else None
  }

  /** The first decoded line of the input, if the line and octet budgets reach it. */
  function FirstLineOf(p: Platform, src: Source, lim: Limits): Option<string> {
    FirstLine(p, src, lim, 0, OctetLimit(lim), 0, 0)
  }

  lemma {:induction false} ZeroBudgetFrom(p: Platform, format: Format, src: Source, lim: Limits, s: Load)
    requires lim.rules == 0 && s.stats.rulesAdded == 0 == s.stats.bytesRead
    ensures var t := LoadFrom(p, format, src, lim, s);
      var first := FirstLine(p, src, lim, s.pos, s.left, s.run, s.stats.linesRead);
      && (t.load.stats.rulesAdded > 0 <==>
            format.DomainList? && first.Some? && CountAccepted(RuleTokens(p, format, first.value)) > 0)
      && (t.Broke? ==> t.load.stats.rulesAdded == 0)
    decreases s.left, MAX_CONSECUTIVE_UNDECODABLE - s.run
  {
    hide ReadLine, RuleTokens, Chomp, Refused;
    var r := ReadLine(src, s.pos, s.left, []);
    var t := TurnOf(p, format, src, lim, s);
    match Deliver(p, r.what)
    case Finished =>
    case Failed(e) =>
      if t.Going? { ZeroBudgetFrom(p, format, src, lim, t.load); }
    case Text(line, len) =>
  }

  /**
   With a rule budget of zero, the budget is exceeded if and only if the list is a domain list and its first decoded
   line within the line and octet budgets carries an acceptable rule.
   */
  lemma ZeroBudgetExceeded(p: Platform, format: Format, src: Source, lim: Limits)
    requires lim.rules == 0
    ensures var t, first := LoadOf(p, format, src, lim), FirstLineOf(p, src, lim);
      && (t.load.stats.rulesAdded > 0 <==>
            format.DomainList? && first.Some? && CountAccepted(RuleTokens(p, format, first.value)) > 0)
      && (t.Broke? ==> t.load.stats.rulesAdded == 0)
  {
    hide LoadFrom, FirstLine, RuleTokens, CountAccepted;
    ZeroBudgetFrom(p, format, src, lim, Start(lim));
  }

  /** `LoadMeaning` in terms of what the caller is told. */
  lemma ReportMeaning(p: Platform, format: Format, src: Source, lim: Limits)
    ensures var t := LoadOf(p, format, src, lim);
      var r, s := Report(t), t.load;
      && (r.Err? ==> CountAccepted(s.used) == 0)
      && (r.Ok? ==>
            && r.value.linesRead <= lim.lines && r.value.bytesRead <= lim.bytes
            && r.value.rulesAdded == CountAccepted(s.used)
            && r.value.rulesAdded <= (if format.Hosts? || lim.rules > 0 then lim.rules else 1)
            && s.used <= AllTokens(p, format, Seen(src, s.pos))
            && (s.used <= AllTokens(p, format, LinesOf(src, s.pos)) <==>
                  !(FragmentParsed(p, src, lim, s.pos) && FragmentTokens(p, format, src, lim, s.pos) != []))
            && (Octets(src, s.pos) < OctetLimit(lim) ==> PendingOf(src, s.pos) == [])
            && (!r.value.truncated ==>
                  s.pos >= 1 && InputEndsAt(src, s.pos - 1) && s.used == AllTokens(p, format, LinesOf(src, s.pos))))
      && (lim.rules == 0 ==>
           (r.Ok? && r.value.rulesAdded > 0 <==>
             format.DomainList? && FirstLineOf(p, src, lim).Some?
             && CountAccepted(RuleTokens(p, format, FirstLineOf(p, src, lim).value)) > 0))
  {
    hide Seen, LinesOf, PendingOf, AllTokens, RuleTokens, CountAccepted, Octets, InputEndsAt, FragmentParsed,
      FragmentTokens, FirstLine, LoadFrom, Offered;
    LoadMeaning(p, format, src, lim);
    if lim.rules == 0 { ZeroBudgetExceeded(p, format, src, lim); }
    var t := LoadOf(p, format, src, lim);
    if t.Over? { RulesComeFromWholeLines(p, format, src, lim, t.load); }
  }

  lemma WholeIsSeen(p: Platform, format: Format, src: Source, n: nat)
    ensures AllTokens(p, format, LinesOf(src, n)) <= AllTokens(p, format, Seen(src, n))
  {
    hide LinesOf, PendingOf, DecodedTokens, AllTokens;
    if PendingOf(src, n) == [] {
      assert LinesOf(src, n) + [] == LinesOf(src, n);
    } else {
      AllTokensSnoc(p, format, LinesOf(src, n), PendingOf(src, n));
    }
  }

  // ---- two loads ----

  lemma OneToken(policy: RuleKind, p: Platform, s: string)
    requires |s| == 1 && 'a' <= s[0] <= 'z'
    ensures RuleTokens(p, DomainList(policy), s) == [s] && CountAccepted([s]) == 1 && Normalize(s) == Some(s)
  {
    assert s[1..] == "" && BeforeComment("") == "" && [s[0]] + "" == s && "" + [s[0]] == s;
    assert BeforeComment(s) == s && Tokens(s, "") == Tokens("", s);
    assert RuleName(s) == s && TrimRootDot(s) == s && LowerText(s) == s;
    assert Scan(s, 0, 1) == Scan("", 1, 1);
    assert TokenAccepted(s) && CountAccepted([s][1..]) == 0;
  }

  /** The one-line domain list `a`, loaded with a rule budget of zero, adds its rule. */
  lemma ZeroBudgetOverrun(p: Platform, policy: RuleKind, src: Source)
    requires p.decode([0x61]) == Some("a")
    requires src(0) == Octet(0x61) && src(1) == Octet(10)
    ensures var r := Report(LoadOf(p, DomainList(policy), src, Limits(1, 2, 0)));
      r.Ok? && r.value.rulesAdded == 1
    ensures LoadOf(p, DomainList(policy), src, Limits(1, 2, 0)).load.used == ["a"]
  {
    hide RuleTokens, CountAccepted, Normalize;
    var lim := Limits(1, 2, 0);
    OneToken(policy, p, "a");
    assert [] + [0x61 as byte] == [0x61] && [0x61 as byte] + [10] == [0x61, 10];
    assert ReadLine(src, 0, 3, []) == ReadLine(src, 1, 2, [0x61]) == Read(Line([0x61, 10]), 2, 1);
    assert Chomp([0x61, 10]) == [0x61];
    assert TurnOf(p, DomainList(policy), src, lim, Start(lim)).Over?;
  }

  lemma NoTokens(p: Platform, policy: RuleKind)
    ensures RuleTokens(p, DomainList(policy), "") == [] && CountAccepted([]) == 0
  {
  }

  lemma TwoLetters(p: Platform, policy: RuleKind)
    ensures RuleTokens(p, DomainList(policy), "cd") == ["cd"]
  {
    var s := "cd";
    assert s[1..] == "d" && "d"[1..] == "";
    assert BeforeComment("") == "" && BeforeComment("d") == "d" && BeforeComment(s) == s;
    assert "" + ['c'] == "c" && "c" + ['d'] == s;
    assert Tokens(s, "") == Tokens("d", "c") == Tokens("", s);
  }

  /**
   A fragment can become a rule no line contains. The input is two empty lines ending in CR LF and the line `cd`;
   with four octets allowed, the limit cuts that line after `c`, the accounts lag two octets, and `c` is added.
   */
  lemma FragmentBecomesRule(p: Platform, policy: RuleKind, src: Source)
    requires p.decode([]) == Some("") && p.decode([0x63]) == Some("c") && p.decode([0x63, 0x64]) == Some("cd")
    requires src(0) == src(2) == Octet(13) && src(1) == src(3) == src(6) == Octet(10)
    requires src(4) == Octet(0x63) && src(5) == Octet(0x64) && src(7) == End
    ensures LoadOf(p, DomainList(policy), src, Limits(3, 4, 3)).load.used == ["c"]
    ensures AllTokens(p, DomainList(policy), LinesOf(src, 7)) == ["cd"] && InputEndsAt(src, 7)
  {
    FragmentIsRead(p, policy, src);
    InputOfFragment(p, policy, src);
  }

  lemma FragmentIsRead(p: Platform, policy: RuleKind, src: Source)
    requires p.decode([]) == Some("") && p.decode([0x63]) == Some("c")
    requires src(0) == src(2) == Octet(13) && src(1) == src(3) == Octet(10) && src(4) == Octet(0x63)
    ensures LoadOf(p, DomainList(policy), src, Limits(3, 4, 3)).load.used == ["c"]
  {
    hide RuleTokens, CountAccepted, ReadLine, Chomp;
    var format, lim := DomainList(policy), Limits(3, 4, 3);
    NoTokens(p, policy);
    OneToken(policy, p, "c");
    EmptyLineRead(src, 0, 5);
    EmptyLineRead(src, 2, 3);
    LastOctetRead(src);
    var s1 := TurnOf(p, format, src, lim, Start(lim)).load;
    assert s1.pos == 2 && s1.left == 3 && s1.used == [] && s1.stats.bytesRead == 1 && s1.stats.rulesAdded == 0;
    var s2 := TurnOf(p, format, src, lim, s1).load;
    assert s2.pos == 4 && s2.left == 1 && s2.used == [] && s2.stats.bytesRead == 2 && s2.stats.rulesAdded == 0;
    var s3 := TurnOf(p, format, src, lim, s2).load;
    assert s3.pos == 5 && s3.left == 0 && s3.used == ["c"];
    assert TurnOf(p, format, src, lim, s3).load.used == ["c"];
  }

  lemma EmptyLineRead(src: Source, pos: nat, left: nat)
    requires src(pos) == Octet(13) && src(pos + 1) == Octet(10) && left >= 2
    ensures ReadLine(src, pos, left, []) == Read(Line([13, 10]), pos + 2, left - 2) && Chomp([13, 10]) == []
  {
    assert [] + [13 as byte] == [13] && [13 as byte] + [10] == [13, 10];
    assert ReadLine(src, pos, left, []) == ReadLine(src, pos + 1, left - 1, [13]);
  }

  lemma LastOctetRead(src: Source)
    requires src(4) == Octet(0x63)
    ensures ReadLine(src, 4, 1, []) == Read(Line([0x63]), 5, 0) && Chomp([0x63]) == [0x63]
    ensures ReadLine(src, 5, 0, []) == Read(NoLine, 5, 0)
  {
    assert [] + [0x63 as byte] == [0x63];
    assert ReadLine(src, 4, 1, []) == ReadLine(src, 5, 0, [0x63]);
  }

  lemma InputOfFragment(p: Platform, policy: RuleKind, src: Source)
    requires p.decode([]) == Some("") && p.decode([0x63, 0x64]) == Some("cd")
    requires src(0) == src(2) == Octet(13) && src(1) == src(3) == src(6) == Octet(10)
    requires src(4) == Octet(0x63) && src(5) == Octet(0x64) && src(7) == End
    ensures AllTokens(p, DomainList(policy), LinesOf(src, 7)) == ["cd"] && InputEndsAt(src, 7)
  {
    hide RuleTokens, CountAccepted, ReadLine;
    var format := DomainList(policy);
    NoTokens(p, policy);
    TwoLetters(p, policy);
    var start: Load := Load(0, 9, 0, LoadStats(0, 0, 0, 0, 0, false), []);
    assert Items(src, 0) == [];
    EmptyLineRead(src, 0, 9);
    ReadsTo(src, start);
    ReadCounts(p, format, src, start);
    EmptyLineRead(src, 2, 7);
    ReadsTo(src, start.(pos := 2, left := 7));
    ReadCounts(p, format, src, start.(pos := 2, left := 7));
    TwoLettersRead(src);
    ReadsTo(src, start.(pos := 4, left := 5));
    ReadCounts(p, format, src, start.(pos := 4, left := 5));
    assert LinesOf(src, 7) + [] == LinesOf(src, 7);
  }

  lemma TwoLettersRead(src: Source)
    requires src(4) == Octet(0x63) && src(5) == Octet(0x64) && src(6) == Octet(10)
    ensures ReadLine(src, 4, 5, []) == Read(Line([0x63, 0x64, 10]), 7, 2) && Chomp([0x63, 0x64, 10]) == [0x63, 0x64]
  {
    assert [] + [0x63 as byte] == [0x63] && [0x63 as byte] + [0x64] == [0x63, 0x64];
    assert [0x63 as byte, 0x64] + [10] == [0x63, 0x64, 10];
    assert ReadLine(src, 4, 5, []) == ReadLine(src, 5, 4, [0x63]) == ReadLine(src, 6, 3, [0x63, 0x64]);
  }

  // ---- a list within its budgets is loaded whole ----

  /** The input is `n` octets and then its end, with no failures. */
  ghost predicate PlainInput(src: Source, n: nat) {
    && (forall i :: 0 <= i < n ==> src(i).Octet?)
    && (forall i :: i >= n ==> src(i) == End)
  }

  /** How many lines at the end of `lines` do not decode. */
  function Undecoded(p: Platform, lines: seq<seq<byte>>): (k: nat) {
    if lines == [] || p.decode(Chomp(lines[|lines| - 1])).Some? then 0 else Undecoded(p, lines[..|lines| - 1]) + 1
  }

  /** Nothing in the whole input passes a budget, and no 65 lines in a row fail to decode. */
  ghost predicate Ample(p: Platform, format: Format, lines: seq<seq<byte>>, lim: Limits, n: nat) {
    && |lines| <= lim.lines && Charged(p, lines) <= lim.bytes && n <= lim.bytes && n < U64_MAX
    && CountAccepted(AllTokens(p, format, lines)) < lim.rules
    && (forall k :: 0 <= k <= |lines| ==> Undecoded(p, lines[..k]) <= 64)
  }

  lemma {:induction false} PlainCounts(src: Source, n: nat, k: nat)
    requires PlainInput(src, n)
    ensures Failures(src, k) == 0 && Octets(src, k) == Min(k, n)
    decreases k
  {
    if k > 0 { PlainCounts(src, n, k - 1); }
  }

  lemma {:induction false} LinesPrefix(src: Source, k: nat, m: nat)
    requires k <= m
    ensures LinesOf(src, k) <= LinesOf(src, m)
    decreases m - k
  {
    hide LinesOf, PendingOf, Lines, Pending;
    if k < m {
      LinesPrefix(src, k, m - 1);
      LinesGrow(src, m - 1);
    }
  }

  /** A longer stretch has no fewer lines, charges or tokens. */
  lemma {:induction false} CountsGrow(p: Platform, format: Format, a: seq<seq<byte>>, b: seq<seq<byte>>)
    requires a <= b
    ensures |a| <= |b| && Charged(p, a) <= Charged(p, b)
    ensures CountAccepted(AllTokens(p, format, a)) <= CountAccepted(AllTokens(p, format, b))
    decreases |b|
  {
    if a != b {
      hide Charged, AllTokens, CountAccepted, DecodedTokens, Chomp;
      var c, raw := b[..|b| - 1], b[|b| - 1];
      assert b == c + [raw];
      CountsGrow(p, format, a, c);
      ChargedSnoc(p, c, raw);
      AllTokensSnoc(p, format, c, raw);
      CountConcat(AllTokens(p, format, c), DecodedTokens(p, format, raw));
    }
  }

  lemma UndecodedSnoc(p: Platform, lines: seq<seq<byte>>, raw: seq<byte>)
    ensures Undecoded(p, lines + [raw]) == if p.decode(Chomp(raw)).None? then Undecoded(p, lines) + 1 else 0
  {
    assert (lines + [raw])[..|lines|] == lines;
  }

  /** Reading plain input below the limit yields a line or the end, and never runs out. */
  lemma {:induction false} PlainRead(src: Source, n: nat, pos: nat, left: nat, got: seq<byte>)
    requires PlainInput(src, n) && left > n - pos && left > 0
    ensures var r := ReadLine(src, pos, left, got);
      && !r.what.Broken? && r.left > 0 && r.pos <= Max(pos, n) + 1
    decreases left
  {
    if src(pos).Octet? && src(pos).b != 10 { PlainRead(src, n, pos + 1, left - 1, got + [src(pos).b]); }
  }

  /** One turn on such an input: it goes on, or reaches the end with everything parsed. */
  lemma AmpleTurn(p: Platform, format: Format, src: Source, lim: Limits, s: Load, n: nat)
    requires PlainInput(src, n) && Ample(p, format, LinesOf(src, n + 2), lim, n)
    requires Coherent(p, format, src, lim, s) && s.pos <= n + 1 && s.run == Undecoded(p, Seen(src, s.pos))
    ensures var t := TurnOf(p, format, src, lim, s);
      && t.load.pos <= n + 2 && t.load.left > 0
      && (t.Going? ==> t.load.run == Undecoded(p, Seen(src, t.load.pos)))
      && (!t.Going? ==> t == Over(t.load) && !t.load.stats.truncated)
  {
    hide Seen, LinesOf, PendingOf, ReadLine, AllTokens, RuleTokens, OfferedTokens, Charged, Chomp, Octets, Failures,
      Refused, CountAccepted, InputEndsAt, Undecoded;
    var r := ReadLine(src, s.pos, s.left, []);
    PlainCounts(src, n, s.pos);
    PlainRead(src, n, s.pos, s.left, []);
    PlainCounts(src, n, r.pos);
    ReadCounts(p, format, src, s);
    ReadSees(p, src, s);
    LinesPrefix(src, r.pos, n + 2);
    WholeSeen(src, r.pos);
    CountsGrow(p, format, Seen(src, r.pos), LinesOf(src, n + 2));
    assert Seen(src, r.pos) == LinesOf(src, n + 2)[..|Seen(src, r.pos)|];
    match Deliver(p, r.what)
    case Finished =>
    case Failed(e) =>
    case Text(line, len) =>
      RoomForAll(p, format, s.used, line, s.stats.rulesAdded, lim.rules);
  }

  lemma WholeSeen(src: Source, n: nat)
    ensures PendingOf(src, n) == [] ==> Seen(src, n) == LinesOf(src, n)
  {
    hide LinesOf, PendingOf;
    assert LinesOf(src, n) + [] == LinesOf(src, n);
  }

  lemma ReadSees(p: Platform, src: Source, s: Load)
    requires s.left > 0 ==> PendingOf(src, s.pos) == []
    ensures var r := ReadLine(src, s.pos, s.left, []);
      Undecoded(p, Seen(src, r.pos))
      == if !r.what.Line? then Undecoded(p, Seen(src, s.pos))
         else if p.decode(Chomp(r.what.raw)).None? then Undecoded(p, Seen(src, s.pos)) + 1 else 0
  {
    hide LinesOf, PendingOf, Seen, ReadLine, Chomp, Octets, Failures, InputEndsAt, Undecoded;
    var r := ReadLine(src, s.pos, s.left, []);
    ReadsTo(src, s);
    if r.what.Line? { UndecodedSnoc(p, Seen(src, s.pos), r.what.raw); }
    assert Seen(src, s.pos) + [] == Seen(src, s.pos);
  }

  /** Tokens that leave room do not fill the rule budget. */
  lemma RoomForAll(p: Platform, format: Format, used: seq<string>, line: string, added: nat, rules: nat)
    requires added == CountAccepted(used) && CountAccepted(used + RuleTokens(p, format, line)) < rules
    ensures added + CountAccepted(OfferedTokens(p, format, line, RoomAfter(added, rules))) < rules
  {
    hide RuleTokens, CountAccepted, Within;
    CountConcat(used, RuleTokens(p, format, line));
    WithinAll(RuleTokens(p, format, line), RoomAfter(added, rules));
  }

  lemma {:induction false} AmpleLoad(p: Platform, format: Format, src: Source, lim: Limits, s: Load, n: nat)
    requires PlainInput(src, n) && Ample(p, format, LinesOf(src, n + 2), lim, n)
    requires Coherent(p, format, src, lim, s) && s.pos <= n + 1 && s.run == Undecoded(p, Seen(src, s.pos))
    ensures var t := LoadFrom(p, format, src, lim, s);
      t.Over? && t.load.left > 0 && !t.load.stats.truncated && t.load.pos <= n + 2
    decreases s.left, MAX_CONSECUTIVE_UNDECODABLE - s.run
  {
    hide Coherent, TurnOf, Ample, PlainInput, Seen, LinesOf, Undecoded;
    AmpleTurn(p, format, src, lim, s, n);
    AmpleLimit(p, format, src, lim, n);
    if s.pos <= n { PlainTurnEnds(p, format, src, lim, s, n); } else { OverAtEnd(p, format, src, lim, s, n); }
    var t := TurnOf(p, format, src, lim, s);
    if t.Going? {
      TurnKeeps(p, format, src, lim, s);
      AmpleLoad(p, format, src, lim, t.load, n);
    }
  }

  lemma AmpleLimit(p: Platform, format: Format, src: Source, lim: Limits, n: nat)
    requires Ample(p, format, LinesOf(src, n + 2), lim, n)
    ensures n < OctetLimit(lim)
  {
  }

  lemma PlainTurnEnds(p: Platform, format: Format, src: Source, lim: Limits, s: Load, n: nat)
    requires PlainInput(src, n) && n < OctetLimit(lim) && Coherent(p, format, src, lim, s) && s.pos <= n
    ensures TurnOf(p, format, src, lim, s).load.pos <= n + 1
  {
    hide Seen, LinesOf, PendingOf, AllTokens, RuleTokens, OfferedTokens, Charged, Chomp, Octets, Failures, Refused,
      CountAccepted, ReadLine;
    PlainCounts(src, n, s.pos);
    PlainRead(src, n, s.pos, s.left, []);
  }

  /** The read that reports the end is the last. */
  lemma OverAtEnd(p: Platform, format: Format, src: Source, lim: Limits, s: Load, n: nat)
    requires PlainInput(src, n) && s.pos == n + 1
    ensures !TurnOf(p, format, src, lim, s).Going?
  {
    assert ReadLine(src, s.pos, s.left, []).what == NoLine;
  }

  lemma EndAddsNothing(src: Source, n: nat)
    requires PlainInput(src, n)
    ensures LinesOf(src, n + 2) == LinesOf(src, n + 1) && PendingOf(src, n + 1) == []
  {
    hide LinesOf, PendingOf, Lines, Pending;
    LinesGrow(src, n);
    OneItem(src(n), PendingOf(src, n));
    LinesGrow(src, n + 1);
    OneItem(src(n + 1), []);
    assert LinesOf(src, n + 1) + [] == LinesOf(src, n + 1);
  }

  /** The input ends exactly where its octets do. */
  lemma EndsAfter(src: Source, n: nat, k: nat)
    requires PlainInput(src, n) && k >= 1 && InputEndsAt(src, k - 1)
    ensures k >= n + 1
  {
  }

  /** A list without read failures that passes no budget is loaded whole, and reported as such. */
  lemma AmpleBudgetsLoadAll(p: Platform, format: Format, src: Source, lim: Limits, n: nat)
    requires PlainInput(src, n) && Ample(p, format, LinesOf(src, n + 1), lim, n)
    ensures var t := LoadOf(p, format, src, lim);
      Report(t).Ok? && !Report(t).value.truncated && t.load.used == AllTokens(p, format, LinesOf(src, n + 1))
  {
    hide LinesOf, PendingOf, AllTokens, Ample, PlainInput, Seen, LoadFrom, Settled, InputEndsAt;
    StartIsCoherent(p, format, src, lim);
    EndAddsNothing(src, n);
    AmpleLoad(p, format, src, lim, Start(lim), n);
    ReportMeaning(p, format, src, lim);
    EndsAfter(src, n, LoadOf(p, format, src, lim).load.pos);
  }
}

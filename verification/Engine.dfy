/** Rules, the decision, and the engine object that holds them. */
module Engine {
  import opened Bytes
  import opened Names
  import opened Presentation
  import opened Filter

  datatype Rules = Rules(
    allowExact: set<string>, allowSuffix: set<string>, blockExact: set<string>, blockSuffix: set<string>)

  /** Allow rules win; a name that does not normalize is allowed. */
  function Decide(rules: Rules, qname: string): (d: Decision) {
    match Normalize(qname)
    case None => Allow
    case Some(n) =>
      if n in rules.allowExact || SuffixMatch(rules.allowSuffix, n) then Allow
      else if n in rules.blockExact || SuffixMatch(rules.blockSuffix, n) then Block
      else Allow
  }

  // ---- the same decision on label lists ----

  predicate IsTail(a: seq<Label>, b: seq<Label>) {
    |a| <= |b| && b[|b| - |a|..] == a
  }

  /** The rule for the name `rl` is in the set. */
  predicate InForce(rules: set<string>, rl: seq<Label>) {
    rl != [] && LegalName(rl) && Present(LowerLabels(rl)) in rules
  }

  ghost predicate ExactHit(rules: set<string>, ls: seq<Label>) {
    exists rl: seq<Label> :: InForce(rules, rl) && LowerLabels(rl) == LowerLabels(ls)
  }

  ghost predicate SuffixHit(rules: set<string>, ls: seq<Label>) {
    exists rl: seq<Label> :: InForce(rules, rl) && IsTail(LowerLabels(rl), LowerLabels(ls))
  }

  lemma {:induction false} TailLegal(ls: seq<Label>, k: nat)
    requires LegalName(ls) && k < |ls|
    ensures LegalName(ls[k..])
    decreases k
  {
    if k > 0 {
      assert LegalName(ls[1..]);
      TailLegal(ls[1..], k - 1);
      assert ls[1..][k - 1..] == ls[k..];
    } else {
      assert ls[0..] == ls;
    }
  }

  /** A non-empty suffix of lower-cased labels is a legal name equal to its own lower-casing. */
  lemma LowerTailIsRule(ls: seq<Label>, k: nat)
    requires LegalName(ls) && k < |ls|
    ensures var t := LowerLabels(ls)[k..];
      t != [] && LegalName(t) && LowerLabels(t) == t && IsTail(t, LowerLabels(ls))
  {
    hide WireLen, LowerLabels, LegalLabels;
    var low := LowerLabels(ls);
    LowerLabelsShape(ls);
    LowerLabelsIdempotent(ls);
    LowerLabelsTail(low, k);
    TailLegal(low, k);
  }

  lemma ExactIsHit(rules: set<string>, ls: seq<Label>)
    requires LegalName(ls) && ls != []
    ensures Present(LowerLabels(ls)) in rules <==> ExactHit(rules, ls)
  {
    hide Present, LowerLabels, LegalName;
    if Present(LowerLabels(ls)) in rules { assert InForce(rules, ls); }
  }

  lemma SuffixIsHit(rules: set<string>, ls: seq<Label>)
    requires LegalName(ls) && ls != []
    ensures SuffixMatch(rules, Present(LowerLabels(ls))) <==> SuffixHit(rules, ls)
  {
    hide Present, LowerLabels, LegalName, SuffixMatch;
    var low := LowerLabels(ls);
    SuffixPresent(rules, low);
    if SomeTailIn(rules, low, 0) {
      var k :| 0 <= k < |low| && Present(low[k..]) in rules;
      LowerTailIsRule(ls, k);
      assert InForce(rules, low[k..]);
    }
    if SuffixHit(rules, ls) {
      var rl: seq<Label> :| InForce(rules, rl) && IsTail(LowerLabels(rl), low);
      assert Present(low[|low| - |rl|..]) in rules;
    }
  }

  /**
   The decision on a parsed wire name: Block exactly when no allow rule and some block rule matches,
   where an exact rule matches equal label lists and a suffix rule a label-list suffix, up to ASCII case.
   */
  lemma DecideIsLabelMatching(rules: Rules, ls: seq<Label>)
    requires LegalName(ls) && ls != []
    ensures Decide(rules, Present(ls)) == Block <==>
      && !ExactHit(rules.allowExact, ls) && !SuffixHit(rules.allowSuffix, ls)
      && (ExactHit(rules.blockExact, ls) || SuffixHit(rules.blockSuffix, ls))
  {
    hide Present, LowerLabels, LegalName, SuffixMatch, ExactHit, SuffixHit, Normalize;
    NormalizePresent(ls);
    ExactIsHit(rules.allowExact, ls);
    SuffixIsHit(rules.allowSuffix, ls);
    ExactIsHit(rules.blockExact, ls);
    SuffixIsHit(rules.blockSuffix, ls);
  }

  /** The root name is always allowed. */
  lemma RootIsAllowed(rules: Rules)
    ensures Decide(rules, Present([])) == Allow
  {
    RootDoesNotNormalize();
  }

  // ---- rules as operators write them ----

  function RuleName(token: string): string {
    if token != "" && token[0] == '.' then token[1..] else token
  }

  predicate RuleIsSuffix(token: string, byDefault: RuleKind) {
    (token != "" && token[0] == '.') || byDefault == SuffixRule
  }

  function Insert(rules: Rules, kind: ListKind, suffix: bool, n: string): Rules {
    match (kind, suffix)
    case (AllowList, true) => rules.(allowSuffix := rules.allowSuffix + {n})
    case (AllowList, false) => rules.(allowExact := rules.allowExact + {n})
    case (BlockList, true) => rules.(blockSuffix := rules.blockSuffix + {n})
    case (BlockList, false) => rules.(blockExact := rules.blockExact + {n})
  }

  /** One rule in configuration syntax: a leading dot always asks for a suffix rule. */
  function AddToken(rules: Rules, kind: ListKind, token: string, byDefault: RuleKind): (r: Rules) {
    match Normalize(RuleName(token))
    case None => rules
    case Some(n) => Insert(rules, kind, RuleIsSuffix(token, byDefault), n)
  }

  predicate TokenAccepted(token: string) {
    Normalize(RuleName(token)).Some?
  }

  function RuleSet(rules: Rules, kind: ListKind, suffix: bool): set<string> {
    match (kind, suffix)
    case (AllowList, true) => rules.allowSuffix
    case (AllowList, false) => rules.allowExact
    case (BlockList, true) => rules.blockSuffix
    case (BlockList, false) => rules.blockExact
  }

  /** A token spelling a legal name puts exactly that name's rule in force in exactly one set. */
  lemma AddedRuleIsInForce(rules: Rules, kind: ListKind, token: string, byDefault: RuleKind, rl: seq<Label>)
    requires LegalName(rl) && rl != [] && RuleName(token) == Present(rl)
    ensures TokenAccepted(token)
    ensures var suffix, after := RuleIsSuffix(token, byDefault), AddToken(rules, kind, token, byDefault);
      && InForce(RuleSet(after, kind, suffix), rl)
      && RuleSet(after, kind, suffix) == RuleSet(rules, kind, suffix) + {Present(LowerLabels(rl))}
      && forall k, s :: (k, s) != (kind, suffix) ==> RuleSet(after, k, s) == RuleSet(rules, k, s)
  {
    hide Present, LowerLabels, LegalName, Normalize;
    NormalizePresent(rl);
  }

  /** A leading dot makes a suffix rule of what follows it; any other token is its own name and of the default kind. */
  lemma LeadingDotMeaning(n: string, byDefault: RuleKind)
    ensures RuleName("." + n) == n && RuleIsSuffix("." + n, byDefault)
    ensures n == "" || n[0] != '.' ==> RuleName(n) == n && (RuleIsSuffix(n, byDefault) <==> byDefault == SuffixRule)
  {
    assert ("." + n)[1..] == n;
  }

  // ---- rules that are not in presentation form ----

  /** What the engine asks of one stored rule when the name `ls` is looked up. */
  predicate RuleMatches(r: string, suffix: bool, ls: seq<Label>) {
    if suffix then SuffixMatch({r}, Present(LowerLabels(ls))) else Present(LowerLabels(ls)) == r
  }

  /** What the labels `rl` of a rule ask for. */
  predicate RuleMeans(rl: seq<Label>, suffix: bool, ls: seq<Label>) {
    if suffix then IsTail(LowerLabels(rl), LowerLabels(ls)) else LowerLabels(rl) == LowerLabels(ls)
  }

  /** The text denotes octets and is spelled as the wire layer would spell them, in lower case. */
  predicate WellSpelled(r: string) {
    Denote(r, []).Some? && r == Present(LowerLabels(Denote(r, []).value))
  }

  /**
   A stored rule, exact or suffix, matches any wire name at all if and only if it is well spelled, which can be
   checked on its text. Then it matches exactly the names its labels ask for.
   */
  lemma StoredRuleMeaning(r: string, suffix: bool)
    requires Normalize(r) == Some(r)
    ensures WellSpelled(r) <==> exists ls: seq<Label> :: LegalName(ls) && ls != [] && RuleMatches(r, suffix, ls)
    ensures WellSpelled(r) ==> forall ls: seq<Label> | LegalName(ls) && ls != [] ::
      RuleMatches(r, suffix, ls) <==> RuleMeans(Denote(r, []).value, suffix, ls)
  {
    hide WellSpelled, RuleMatches, RuleMeans, LegalName, Normalize, Denote, Present, LowerLabels;
    if WellSpelled(r) {
      SpellingOf(r);
      var rl := Denote(r, []).value;
      StoredIsLegal(r, rl);
      forall ls: seq<Label> | LegalName(ls) && ls != []
        ensures RuleMatches(r, suffix, ls) <==> RuleMeans(rl, suffix, ls)
      {
        CanonicalMatches(r, rl, suffix, ls);
      }
      MeansItself(rl, suffix);
    }
    forall ls: seq<Label> | LegalName(ls) && ls != [] && RuleMatches(r, suffix, ls) ensures WellSpelled(r) {
      if !WellSpelled(r) { MisspelledNeverMatches(r, suffix, ls); }
    }
  }

  lemma SpellingOf(r: string)
    requires WellSpelled(r)
    ensures Denote(r, []).Some? && r == Present(LowerLabels(Denote(r, []).value))
  {
  }

  lemma StoredIsLegal(r: string, rl: seq<Label>)
    requires Normalize(r) == Some(r) && Denote(r, []) == Some(rl)
    ensures LegalName(rl) && rl != []
  {
    hide Scan, Denote;
    assert |TrimRootDot(r)| == |r|;
    assert TrimRootDot(r) == r;
    ScanIsLegality(r, [], 1);
    DenoteNonEmpty(r, []);
  }

  lemma {:induction false} DenoteNonEmpty(s: string, cur: Label)
    ensures Denote(s, cur).Some? ==> Denote(s, cur).value != []
    decreases |s|
  {
    if s != "" {
      if s[0] == '\\' {
        if DecimalEscape(s) {
          if DecimalValue(s) < 0x100 { DenoteNonEmpty(s[4..], cur + [DecimalValue(s) as byte]); }
        } else if |s| >= 2 && s[1] as nat < 0x100 {
          DenoteNonEmpty(s[2..], cur + [s[1] as byte]);
        }
      } else if s[0] != '.' && s[0] as nat < 0x100 {
        DenoteNonEmpty(s[1..], cur + [s[0] as byte]);
      }
    }
  }

  lemma MeansItself(rl: seq<Label>, suffix: bool)
    ensures RuleMeans(rl, suffix, rl)
  {
  }

  lemma CanonicalMatches(r: string, rl: seq<Label>, suffix: bool, ls: seq<Label>)
    requires r == Present(LowerLabels(rl)) && LegalName(rl) && rl != [] && LegalName(ls) && ls != []
    ensures RuleMatches(r, suffix, ls) <==> RuleMeans(rl, suffix, ls)
  {
    hide Present, LowerLabels, WireLen, SuffixMatch, LegalLabels;
    var low, rlow := LowerLabels(ls), LowerLabels(rl);
    SuffixPresent({r}, low);
    LowerLabelsShape(rl);
    LowerLabelsShape(ls);
    if SomeTailIn({r}, low, 0) {
      var k :| 0 <= k < |low| && Present(low[k..]) in {r};
      LowerTailIsRule(ls, k);
      PresentInjective(low[k..], rlow);
    }
    if IsTail(rlow, low) {
      assert Present(low[|low| - |rlow|..]) in {r};
    }
    if Present(low) == r {
      PresentInjective(low, rlow);
    }
  }

  /** A rule in any other spelling, denoting octets or not, matches no wire name. */
  lemma MisspelledNeverMatches(r: string, suffix: bool, ls: seq<Label>)
    requires !WellSpelled(r) && LegalName(ls) && ls != []
    ensures !RuleMatches(r, suffix, ls)
  {
    hide Present, LowerLabels, WireLen, SuffixMatch, LegalLabels, Denote;
    var low := LowerLabels(ls);
    assert low[0..] == low;
    SuffixPresent({r}, low);
    if RuleMatches(r, suffix, ls) {
      var k := 0;
      if suffix {
        k :| 0 <= k < |low| && Present(low[k..]) in {r};
      }
      LowerTailIsRule(ls, k);
      DenotePresent(low[k..]);
      assert false;
    }
  }

  /** For instance the rule `\a` is accepted and denotes the label `a`, yet never matches it. */
  lemma EscapedLetterRuleIsDead()
    ensures Normalize("\\a") == Some("\\a") && Denote("\\a", []) == Some([[0x61]]) && !WellSpelled("\\a")
    ensures Present([[0x61]]) == "a" && !SuffixMatch({"\\a"}, "a") && SuffixMatch({"a"}, "a")
  {
    var s := "\\a";
    assert s[2..] == "" && [] + [0x61 as byte] == [0x61];
    assert Denote(s, []) == Denote("", [0x61]);
    assert s[..1] == "\\";
    assert LowerText(s) == s;
    assert Scan(s, 0, 1) == Scan("", 1, 1);
    EscapeCons(0x61, []);
    EscapeNil();
    assert Escape([0x61]) == ['a'] + "" == "a";
    assert "a"[1..] == "" && !TailMatch({s}, "", false);
    var ls: seq<Label> := [[0x61]];
    assert Lower([0x61]) == [0x61] && ls[1..] == [];
    assert LowerLabels(ls) == ls;
  }

  /** And the rule `\999` is accepted although it denotes no octet at all. */
  lemma OutOfRangeRuleIsDead()
    ensures Normalize("\\999") == Some("\\999") && Denote("\\999", []) == None && !WellSpelled("\\999")
  {
    var s := "\\999";
    assert s[4..] == "" && LowerText(s) == s;
    assert DecimalEscape(s) && DecimalValue(s) == 999;
    assert Scan(s, 0, 1) == Scan("", 1, 1);
  }

  // ---- the engine ----

  class FilterEngine {
    var allowExact: set<string>
    var allowSuffix: set<string>
    var blockExact: set<string>
    var blockSuffix: set<string>
    var unnormalizableQueries: nat

    ghost function Contents(): Rules
      reads this
    {
      Rules(allowExact, allowSuffix, blockExact, blockSuffix)
    }

    constructor ()
      ensures Contents() == Rules({}, {}, {CANARY_DOMAIN}, {}) && unnormalizableQueries == 0
    {
      allowExact, allowSuffix, blockSuffix := {}, {}, {};
      blockExact := {CANARY_DOMAIN};
      unnormalizableQueries := 0;
    }

    method AddAllow(name: string) returns (ok: bool)
      modifies this
      ensures ok == Normalize(name).Some? && unnormalizableQueries == old(unnormalizableQueries)
      ensures Contents()
           == if ok then Insert(old(Contents()), AllowList, true, Normalize(name).value) else old(Contents())
    {
      var n := NormalizeName(name);
      if n.None? { return false; }
      allowSuffix := allowSuffix + {n.value};
      return true;
    }

    method AddAllowExact(name: string) returns (ok: bool)
      modifies this
      ensures ok == Normalize(name).Some? && unnormalizableQueries == old(unnormalizableQueries)
      ensures Contents()
           == if ok then Insert(old(Contents()), AllowList, false, Normalize(name).value) else old(Contents())
    {
      var n := NormalizeName(name);
      if n.None? { return false; }
      allowExact := allowExact + {n.value};
      return true;
    }

    method AddBlock(name: string) returns (ok: bool)
      modifies this
      ensures ok == Normalize(name).Some? && unnormalizableQueries == old(unnormalizableQueries)
      ensures Contents()
           == if ok then Insert(old(Contents()), BlockList, true, Normalize(name).value) else old(Contents())
    {
      var n := NormalizeName(name);
      if n.None? { return false; }
      blockSuffix := blockSuffix + {n.value};
      return true;
    }

    method AddBlockExact(name: string) returns (ok: bool)
      modifies this
      ensures ok == Normalize(name).Some? && unnormalizableQueries == old(unnormalizableQueries)
      ensures Contents()
           == if ok then Insert(old(Contents()), BlockList, false, Normalize(name).value) else old(Contents())
    {
      var n := NormalizeName(name);
      if n.None? { return false; }
      blockExact := blockExact + {n.value};
      return true;
    }

    method AddRule(kind: ListKind, token: string, byDefault: RuleKind) returns (ok: bool)
      modifies this
      ensures ok == TokenAccepted(token) && unnormalizableQueries == old(unnormalizableQueries)
      ensures Contents() == AddToken(old(Contents()), kind, token, byDefault)
    {
      hide Normalize;
      var name, suffix := token, byDefault == SuffixRule;
      if token != "" && token[0] == '.' {
        name, suffix := token[1..], true;
      }
      match (kind, suffix)
      case (AllowList, true) => ok := AddAllow(name);
      case (AllowList, false) => ok := AddAllowExact(name);
      case (BlockList, true) => ok := AddBlock(name);
      case (BlockList, false) => ok := AddBlockExact(name);
    }

    method DecideName(qname: string) returns (d: Decision)
      modifies this`unnormalizableQueries
      ensures d == Decide(Contents(), qname)
      ensures unnormalizableQueries == old(unnormalizableQueries) + if Normalize(qname).None? then 1 else 0
    {
      hide Normalize, SuffixMatch;
      var n := NormalizeName(qname);
      if n.None? {
        unnormalizableQueries := unnormalizableQueries + 1;
        return Allow;
      }
      var bySuffix := SuffixMatchLoop(allowSuffix, n.value);
      if n.value in allowExact || bySuffix { return Allow; }
      bySuffix := SuffixMatchLoop(blockSuffix, n.value);
      if n.value in blockExact || bySuffix { return Block; }
      return Allow;
    }
  }
}

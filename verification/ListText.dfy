/** Block and allow lists as text: the tokens of a line, and what adding them to the rules does. */
module ListText {
  import opened Bytes
  import opened Filter
  import opened Engine

  /** Text decoding and IP-literal recognition, supplied by the platform. */
  datatype Platform = Platform(decode: seq<byte> -> Option<string>, isIp: string -> bool)

  datatype Format = Hosts | DomainList(policy: RuleKind)

  // ---- one line: comment, tokens, rule tokens ----

  /** Unicode White_Space. */
  predicate IsWhitespace(c: char) {
    var n := c as nat;
    9 <= n <= 13 || n == 32 || n == 0x85 || n == 0xA0 || n == 0x1680 || 0x2000 <= n <= 0x200A
    || n == 0x2028 || n == 0x2029 || n == 0x202F || n == 0x205F || n == 0x3000
  }

  /** The 25 whitespace characters: tab to carriage return, space, next line, no-break space, and the wide spaces. */
  lemma WhitespaceTable(c: char)
    ensures IsWhitespace(c) <==> c as nat in {
      9, 10, 11, 12, 13, 32, 133, 160, 5760, 8192, 8193, 8194, 8195, 8196, 8197, 8198, 8199, 8200, 8201, 8202,
      8232, 8233, 8239, 8287, 12288}
  {
  }

  function BeforeComment(line: string): (s: string) {
    if line == "" || line[0] == '#' then "" else [line[0]] + BeforeComment(line[1..])
  }

  function Tokens(s: string, current: string): (ts: seq<string>) {
    if s == "" then (if current == "" then [] else [current])
    else if IsWhitespace(s[0]) then (if current == "" then [] else [current]) + Tokens(s[1..], "")
    else Tokens(s[1..], current + [s[0]])
  }

  /** A comment runs from the first number sign to the end of the line. */
  lemma {:induction false} CommentIsCut(a: string, b: string)
    ensures BeforeComment(a + "#" + b) == BeforeComment(a)
    ensures '#' !in a ==> BeforeComment(a) == a
    decreases |a|
  {
    if a == "" {
      assert ("" + "#" + b)[0] == '#';
    } else {
      assert (a + "#" + b)[1..] == a[1..] + "#" + b && a == [a[0]] + a[1..];
      CommentIsCut(a[1..], b);
    }
  }

  predicate IsWord(s: string) { s != "" && forall i :: 0 <= i < |s| ==> !IsWhitespace(s[i]) }

  /** The text without its whitespace. */
  function Inked(s: string): (r: string) {
    if s == "" then "" else (if IsWhitespace(s[0]) then "" else [s[0]]) + Inked(s[1..])
  }

  function JoinWords(ts: seq<string>): (r: string) {
    if ts == [] then "" else ts[0] + JoinWords(ts[1..])
  }

  /** Tokens are words, and in order they are all of the text but its whitespace. */
  lemma {:induction false} TokensAreWords(s: string, current: string)
    requires current == "" || IsWord(current)
    ensures forall t :: t in Tokens(s, current) ==> IsWord(t)
    ensures JoinWords(Tokens(s, current)) == current + Inked(s)
    decreases |s|
  {
    hide IsWhitespace;
    if s == "" {
      assert [current][1..] == [] && current + "" == current;
    } else if IsWhitespace(s[0]) {
      TokensAreWords(s[1..], "");
      var rest := Tokens(s[1..], "");
      assert "" + Inked(s[1..]) == Inked(s[1..]);
      if current != "" { assert ([current] + rest)[1..] == rest; } else { assert [] + rest == rest; }
    } else {
      TokensAreWords(s[1..], current + [s[0]]);
      assert current + [s[0]] + Inked(s[1..]) == current + ([s[0]] + Inked(s[1..]));
    }
  }

  /** A word is one token; whitespace ends it, and leading whitespace is nothing. */
  lemma {:induction false} TokensSplit(w: string, current: string, c: char, rest: string)
    requires (w == "" || IsWord(w)) && IsWhitespace(c)
    ensures var whole := current + w;
      && Tokens(w, current) == (if whole == "" then [] else [whole])
      && Tokens(w + [c] + rest, current) == (if whole == "" then [] else [whole]) + Tokens(rest, "")
    decreases |w|
  {
    hide IsWhitespace;
    if w == "" {
      assert current + "" == current && ("" + [c] + rest)[1..] == rest;
    } else {
      assert (w + [c] + rest)[1..] == w[1..] + [c] + rest;
      assert w[1..] == "" || IsWord(w[1..]);
      TokensSplit(w[1..], current + [w[0]], c, rest);
      assert current + [w[0]] + w[1..] == current + w;
    }
  }

  /** The tokens of a line that are offered as rules. */
  function RuleTokens(p: Platform, format: Format, line: string): (ts: seq<string>) {
    var ts := Tokens(BeforeComment(line), "");
    match format
    case Hosts => if ts == [] || !p.isIp(ts[0]) then [] else ts[1..]
    case DomainList(_) => if |ts| == 1 then ts else []
  }

  /** A comment never changes what a line offers. */
  lemma CommentOffersNothing(p: Platform, format: Format, a: string, b: string)
    ensures RuleTokens(p, format, a + "#" + b) == RuleTokens(p, format, a)
  {
    hide Tokens;
    CommentIsCut(a, b);
  }

  /**
   What a line without a comment offers. Hosts: nothing unless the first word is an address, then the words after it.
   Domain list: its only word, or nothing if there is none or more than one.
   */
  lemma LineOffers(p: Platform, w: string, c: char, rest: string)
    requires IsWord(w) && IsWhitespace(c) && '#' !in w && '#' !in rest && c != '#'
    ensures RuleTokens(p, Hosts, w + [c] + rest) == (if p.isIp(w) then Tokens(rest, "") else [])
    ensures RuleTokens(p, Hosts, w) == []
    ensures forall policy ::
      && RuleTokens(p, DomainList(policy), w) == [w]
      && RuleTokens(p, DomainList(policy), w + [c] + rest) == (if Tokens(rest, "") == [] then [w] else [])
  {
    hide Tokens, IsWhitespace;
    CommentIsCut(w, "");
    CommentIsCut(w + [c] + rest, "");
    TokensSplit(w, "", c, rest);
    assert "" + w == w;
  }

  function DefaultKind(format: Format): RuleKind {
    match format case Hosts => ExactRule case DomainList(policy) => policy
  }

  /** Hosts files hold exact rules; domain lists what their policy says. */
  lemma DefaultKindMeaning(policy: RuleKind)
    ensures DefaultKind(Hosts) == ExactRule && DefaultKind(DomainList(policy)) == policy
  {
  }

  // ---- adding many tokens ----

  function AddAll(rules: Rules, kind: ListKind, ts: seq<string>, byDefault: RuleKind): (r: Rules)
    decreases |ts|
  {
    if ts == [] then rules else AddAll(AddToken(rules, kind, ts[0], byDefault), kind, ts[1..], byDefault)
  }

  function CountAccepted(ts: seq<string>): (n: nat)
    ensures n <= |ts|
  {
    if ts == [] then 0 else (if TokenAccepted(ts[0]) then 1 else 0) + CountAccepted(ts[1..])
  }

  lemma {:induction false} AddAllConcat(rules: Rules, kind: ListKind, a: seq<string>, b: seq<string>, d: RuleKind)
    ensures AddAll(rules, kind, a + b, d) == AddAll(AddAll(rules, kind, a, d), kind, b, d)
    ensures CountAccepted(a + b) == CountAccepted(a) + CountAccepted(b)
    decreases |a|
  {
    hide AddToken, TokenAccepted;
    if a == [] {
      assert a + b == b;
    } else {
      assert (a + b)[1..] == a[1..] + b;
      AddAllConcat(AddToken(rules, kind, a[0], d), kind, a[1..], b, d);
    }
  }

  lemma AddAllSnoc(rules: Rules, kind: ListKind, a: seq<string>, t: string, d: RuleKind)
    ensures AddAll(rules, kind, a + [t], d) == AddToken(AddAll(rules, kind, a, d), kind, t, d)
    ensures CountAccepted(a + [t]) == CountAccepted(a) + if TokenAccepted(t) then 1 else 0
  {
    hide AddToken, TokenAccepted;
    AddAllConcat(rules, kind, a, [t], d);
  }

  /** Tokens that are all refused leave the rules alone. */
  lemma {:induction false} NoneAcceptedNoChange(rules: Rules, kind: ListKind, ts: seq<string>, d: RuleKind)
    requires CountAccepted(ts) == 0
    ensures AddAll(rules, kind, ts, d) == rules
    decreases |ts|
  {
    if ts != [] { NoneAcceptedNoChange(rules, kind, ts[1..], d); }
  }

  /** A loaded list is a union: its order and repetitions do not matter. */
  lemma {:induction false} AddAllIsUnion(
    rules: Rules, kind: ListKind, ts: seq<string>, d: RuleKind, suffix: bool, n: string)
    ensures n in RuleSet(AddAll(rules, kind, ts, d), kind, suffix) <==>
      n in RuleSet(rules, kind, suffix)
      || exists t :: t in ts && RuleIsSuffix(t, d) == suffix && Normalize(RuleName(t)) == Some(n)
    ensures forall k, s :: k != kind ==> RuleSet(AddAll(rules, kind, ts, d), k, s) == RuleSet(rules, k, s)
    decreases |ts|
  {
    if ts != [] {
      hide Normalize;
      AddAllIsUnion(AddToken(rules, kind, ts[0], d), kind, ts[1..], d, suffix, n);
      assert ts == [ts[0]] + ts[1..];
    }
  }

  // ---- the tokens of one line that reach the engine ----

  /** The tokens a hosts line has room for: its parser stops at the first token that finds none. */
  function Within(ts: seq<string>, room: nat): (r: seq<string>) {
    if ts == [] || room == 0 then []
    else [ts[0]] + Within(ts[1..], if TokenAccepted(ts[0]) then room - 1 else room)
  }

  lemma {:induction false} WithinIsPrefix(ts: seq<string>, room: nat)
    ensures var r := Within(ts, room);
      r <= ts && CountAccepted(r) <= room && (CountAccepted(r) < room ==> r == ts)
    decreases |ts|
  {
    hide TokenAccepted;
    if ts != [] && room > 0 {
      var rest := if TokenAccepted(ts[0]) then room - 1 else room;
      WithinIsPrefix(ts[1..], rest);
      assert ts == [ts[0]] + ts[1..];
      assert Within(ts, room)[1..] == Within(ts[1..], rest);
    }
  }

  /** Tokens that leave room have all found some. */
  lemma {:induction false} WithinAll(ts: seq<string>, room: nat)
    requires CountAccepted(ts) < room
    ensures Within(ts, room) == ts
    decreases |ts|
  {
    if ts != [] {
      WithinAll(ts[1..], if TokenAccepted(ts[0]) then room - 1 else room);
      assert ts == [ts[0]] + ts[1..];
    }
  }

  /** The tokens of a line that reach the engine. */
  function OfferedTokens(p: Platform, format: Format, line: string, room: nat): (ts: seq<string>) {
    match format
    case Hosts => Within(RuleTokens(p, format, line), room)
    case DomainList(_) => RuleTokens(p, format, line)
  }

  /** A prefix of the line's tokens: all of them for a domain list, and for a hosts line while there is room. */
  lemma OfferedIsPrefix(p: Platform, format: Format, line: string, room: nat)
    ensures var ts := OfferedTokens(p, format, line, room);
      && ts <= RuleTokens(p, format, line)
      && (format.DomainList? || CountAccepted(ts) < room ==> ts == RuleTokens(p, format, line))
      && CountAccepted(ts) <= if format.Hosts? then room else 1
  {
    hide Tokens, BeforeComment;
    WithinIsPrefix(RuleTokens(p, format, line), room);
  }

  /** What a line adds to the malformed entries: a domain-list line of several tokens is one. */
  function Refused(format: Format, line: string, offered: seq<string>): (n: nat) {
    if format.DomainList? && |Tokens(BeforeComment(line), "")| > 1 then 1 else |offered| - CountAccepted(offered)
  }

  lemma WithinStep(ts: seq<string>, i: nat, left: nat)
    requires i < |ts| && left > 0
    ensures ts[..i] + Within(ts[i..], left)
         == ts[..i + 1] + Within(ts[i + 1..], if TokenAccepted(ts[i]) then left - 1 else left)
  {
    hide TokenAccepted;
    assert ts[i..] == [ts[i]] + ts[i + 1..] && ts[..i + 1] == ts[..i] + [ts[i]];
    Assoc(ts[..i], [ts[i]], Within(ts[i + 1..], if TokenAccepted(ts[i]) then left - 1 else left));
  }

  lemma WithinEmpty()
    ensures forall room :: Within([], room) == []
    ensures forall ts :: Within(ts, 0) == []
  {
  }
}

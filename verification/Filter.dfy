/**
 The domain filter: escape-aware normalization, exact and suffix rules held as normalized text, and the
 decision, which the byte walk at unescaped dots makes without ever building a label list.
 */
module Filter {
  import opened Bytes
  import opened Names
  import opened Presentation

  const CANARY_DOMAIN := "webguard-test.sentinella.invalid"

  datatype Decision = Allow | Block
  datatype ListKind = AllowList | BlockList
  datatype RuleKind = ExactRule | SuffixRule

  // ---- normalize_name ----

  /** Length of the run of backslashes that ends `s`. */
  function BackslashRun(s: string): (n: nat)
    ensures n <= |s|
  {
    if s != "" && s[|s| - 1] == '\\' then BackslashRun(s[..|s| - 1]) + 1 else 0
  }

  /** Strip one trailing root dot, but only an unescaped one. */
  function TrimRootDot(s: string): (t: string) {
    if s != "" && s[|s| - 1] == '.' && BackslashRun(s[..|s| - 1]) % 2 == 0 then s[..|s| - 1] else s
  }

  predicate IsAscii(s: string) { forall i :: 0 <= i < |s| ==> s[i] as nat < 128 }

  predicate LabelFits(octets: nat, wireLen: nat) {
    0 < octets <= MAX_LABEL_LEN && wireLen + 1 + octets <= MAX_NAME_WIRE_LEN
  }

  /** The accounting scan: one wire octet per character or escape, a label boundary per unescaped dot. */
  predicate Scan(t: string, octets: nat, wireLen: nat)
    decreases |t|
  {
    if t == "" then LabelFits(octets, wireLen)
    else if t[0] == '\\' then
      if DecimalEscape(t) then Scan(t[4..], octets + 1, wireLen)
      else |t| >= 2 && Scan(t[2..], octets + 1, wireLen)
    else if t[0] == '.' then LabelFits(octets, wireLen) && Scan(t[1..], 0, wireLen + 1 + octets)
    else Scan(t[1..], octets + 1, wireLen)
  }

  function Normalize(name: string): (r: Option<string>) {
    var t := TrimRootDot(name);
    if t == "" || !IsAscii(t) || !Scan(t, 0, 1) then None else Some(LowerText(t))
  }

  method EndsWithRootDot(name: string) returns (r: bool)
    ensures r <==> TrimRootDot(name) != name
    ensures r ==> name != "" && TrimRootDot(name) == name[..|name| - 1]
  {
    if |name| == 0 || name[|name| - 1] != '.' { return false; }
    var backslashes, i := 0, |name| - 1;
    while i > 0 && name[i - 1] == '\\'
      invariant 0 <= i <= |name| - 1
      invariant BackslashRun(name[..|name| - 1]) == backslashes + BackslashRun(name[..i])
    {
      assert name[..i][..i - 1] == name[..i - 1];
      backslashes := backslashes + 1;
      i := i - 1;
    }
    return backslashes % 2 == 0;
  }

  method NormalizeName(name: string) returns (r: Option<string>)
    ensures r == Normalize(name)
  {
    var rooted := EndsWithRootDot(name);
    var t := if rooted then name[..|name| - 1] else name;
    hide TrimRootDot, LowerText, Scan;
    if t == "" || !IsAscii(t) { return None; }
    var ok := ScanLoop(t);
    return if ok then Some(LowerText(t)) else None;
  }

  /** The accounting loop. */
  method ScanLoop(t: string) returns (ok: bool)
    ensures ok == Scan(t, 0, 1)
  {
    var wireLen: nat, octets: nat, i: nat := 1, 0, 0;
    assert t[0..] == t;
    while i < |t|
      invariant i <= |t| && Scan(t, 0, 1) == Scan(t[i..], octets, wireLen)
      decreases |t| - i
    {
      TailAt(t, i);
      if t[i] == '\\' {
        var isDecimal := i + 3 < |t| && IsDigit(t[i + 1]) && IsDigit(t[i + 2]) && IsDigit(t[i + 3]);
        i := i + if isDecimal then 4 else 2;
        octets := octets + 1;
        if i > |t| { return false; } // dangling escape: the source leaves its loop and then rejects
      } else if t[i] == '.' {
        if octets == 0 || octets > MAX_LABEL_LEN { return false; }
        wireLen := wireLen + 1 + octets;
        if wireLen > MAX_NAME_WIRE_LEN { return false; }
        octets := 0;
        i := i + 1;
      } else {
        octets := octets + 1;
        i := i + 1;
      }
    }
    assert t[i..] == "";
    return octets != 0 && octets <= MAX_LABEL_LEN && wireLen + 1 + octets <= MAX_NAME_WIRE_LEN;
  }

  lemma TailAt(t: string, i: nat)
    requires i < |t|
    ensures t[i..][0] == t[i] && t[i..][1..] == t[i + 1..] && t[i..] != ""
    ensures i + 2 <= |t| ==> t[i..][2..] == t[i + 2..]
    ensures i + 4 <= |t| ==> t[i..][4..] == t[i + 4..]
    ensures DecimalEscape(t[i..]) <==>
      t[i] == '\\' && i + 3 < |t| && IsDigit(t[i + 1]) && IsDigit(t[i + 2]) && IsDigit(t[i + 3])
  {
  }

  // ---- backward parity agrees with the forward scanner ----

  /** Whether, reading forward, the character after `s` is escaped. */
  predicate EscapedAfter(s: string, escaped: bool)
    decreases |s|
  {
    if s == "" then escaped else EscapedAfter(s[1..], !escaped && s[0] == '\\')
  }

  lemma {:induction false} EscapedAfterSnoc(s: string, c: char, escaped: bool)
    ensures EscapedAfter(s + [c], escaped) == (!EscapedAfter(s, escaped) && c == '\\')
    decreases |s|
  {
    if s == "" {
      assert s + [c] == [c] && [c][1..] == "";
    } else {
      assert (s + [c])[1..] == s[1..] + [c];
      EscapedAfterSnoc(s[1..], c, !escaped && s[0] == '\\');
    }
  }

  /** Counting backslashes backward from a position tells the same as scanning forward to it. */
  lemma {:induction false} ParityIsForwardScan(s: string)
    ensures EscapedAfter(s, false) <==> BackslashRun(s) % 2 == 1
    decreases |s|
  {
    if s != "" {
      var init := s[..|s| - 1];
      assert s == init + [s[|s| - 1]];
      EscapedAfterSnoc(init, s[|s| - 1], false);
      ParityIsForwardScan(init);
    }
  }

  lemma EscapedAfterDecimal(s: string)
    requires DecimalEscape(s)
    ensures EscapedAfter(s, false) == EscapedAfter(s[4..], false)
  {
    var a, b, c := s[1..], s[2..], s[3..];
    assert a[1..] == b && b[1..] == c && c[1..] == s[4..];
    assert EscapedAfter(a, true) == EscapedAfter(b, false);
    assert EscapedAfter(b, false) == EscapedAfter(c, false);
  }

  /** A text the scan accepts never ends with an unescaped dot. */
  lemma {:induction false} ScanRejectsRootDot(t: string, octets: nat, wireLen: nat)
    requires t != "" && t[|t| - 1] == '.' && !EscapedAfter(t[..|t| - 1], false)
    ensures !Scan(t, octets, wireLen)
    decreases |t|
  {
    var init := t[..|t| - 1];
    if t[0] == '\\' {
      assert |t| >= 2;
      assert init[1..] == t[1..|t| - 1];
      if DecimalEscape(t) {
        assert |t| > 4 && DecimalEscape(init) && init[4..] == t[4..][..|t[4..]| - 1];
        EscapedAfterDecimal(init);
        ScanRejectsRootDot(t[4..], octets + 1, wireLen);
      } else if |t| > 2 {
        assert init[1..][1..] == t[2..|t| - 1] == t[2..][..|t[2..]| - 1];
        ScanRejectsRootDot(t[2..], octets + 1, wireLen);
      }
    } else if |t| == 1 {
      assert t[1..] == "";
    } else {
      assert init[1..] == t[1..|t| - 1] == t[1..][..|t[1..]| - 1];
      if t[0] == '.' { ScanRejectsRootDot(t[1..], 0, wireLen + 1 + octets); }
      else { ScanRejectsRootDot(t[1..], octets + 1, wireLen); }
    }
  }

  lemma ScannedIsTrimmed(t: string)
    requires Scan(t, 0, 1)
    ensures TrimRootDot(t) == t
  {
    if t != "" && t[|t| - 1] == '.' {
      hide Scan;
      ParityIsForwardScan(t[..|t| - 1]);
      if !EscapedAfter(t[..|t| - 1], false) { ScanRejectsRootDot(t, 0, 1); }
    }
  }

  // ---- what normalization accepts ----

  /** The scan accepts a text exactly when the labels it denotes make a legal name. */
  lemma {:induction false} ScanIsLegality(t: string, cur: Label, wireLen: nat)
    requires Denote(t, cur).Some? && wireLen >= 1
    ensures var ls := Denote(t, cur).value;
      Scan(t, |cur|, wireLen) <==> LegalLabels(ls) && wireLen - 1 + WireLen(ls) <= MAX_NAME_WIRE_LEN
    decreases |t|
  {
    if t == "" {
      assert WireLen([cur]) == 1 + |cur| + WireLen([]);
      OneLabel(cur);
    } else if t[0] == '\\' {
      if DecimalEscape(t) { ScanIsLegality(t[4..], cur + [DecimalValue(t) as byte], wireLen); }
      else { ScanIsLegality(t[2..], cur + [t[1] as byte], wireLen); }
    } else if t[0] == '.' {
      var rest := Denote(t[1..], []).value;
      ScanIsLegality(t[1..], [], wireLen + 1 + |cur|);
      hide Denote;
      ConsLabel(cur, rest);
    } else {
      ScanIsLegality(t[1..], cur + [t[0] as byte], wireLen);
    }
  }

  lemma OneLabel(l: Label)
    ensures LegalLabels([l]) <==> 1 <= |l| <= MAX_LABEL_LEN
  {
    if LegalLabels([l]) { assert [l][0] == l; }
  }

  lemma ConsLabel(l: Label, ls: seq<Label>)
    ensures LegalLabels([l] + ls) <==> 1 <= |l| <= MAX_LABEL_LEN && LegalLabels(ls)
    ensures WireLen([l] + ls) == 1 + |l| + WireLen(ls)
  {
    assert ([l] + ls)[1..] == ls;
    if LegalLabels([l] + ls) {
      assert ([l] + ls)[0] == l;
      forall i | 0 <= i < |ls| ensures 1 <= |ls[i]| <= MAX_LABEL_LEN { assert ([l] + ls)[i + 1] == ls[i]; }
    }
  }

  /** A text denoting octets is accepted iff, less one root dot, it is an ASCII spelling of a legal non-root name. */
  lemma NormalizeAcceptsLegalNames(name: string)
    requires Denote(TrimRootDot(name), []).Some?
    ensures Normalize(name).Some? <==>
      TrimRootDot(name) != "" && IsAscii(TrimRootDot(name)) && LegalName(Denote(TrimRootDot(name), []).value)
  {
    hide Scan, Denote, TrimRootDot;
    ScanIsLegality(TrimRootDot(name), [], 1);
  }

  lemma AsciiOctet(b: byte)
    ensures IsAscii(EscapeOctet(b))
  {
  }

  lemma AsciiConcat(a: string, b: string)
    ensures IsAscii(a + b) <==> IsAscii(a) && IsAscii(b)
  {
    if IsAscii(a + b) {
      assert forall i :: 0 <= i < |a| ==> a[i] == (a + b)[i];
      assert forall i :: 0 <= i < |b| ==> b[i] == (a + b)[|a| + i];
    }
  }

  lemma {:induction false} AsciiEscape(l: Label)
    ensures IsAscii(Escape(l))
    decreases |l|
  {
    if l != [] {
      hide EscapeOctet, IsAscii;
      AsciiEscape(l[1..]);
      AsciiOctet(l[0]);
      AsciiConcat(EscapeOctet(l[0]), Escape(l[1..]));
    }
  }

  lemma {:induction false} AsciiPresent(ls: seq<Label>)
    ensures IsAscii(Present(ls))
    decreases |ls|
  {
    if ls != [] {
      hide Escape;
      AsciiEscape(ls[0]);
      AsciiPresent(ls[1..]);
      AsciiConcat(Escape(ls[0]), ".");
      AsciiConcat(Escape(ls[0]) + ".", Present(ls[1..]));
    }
  }

  /** Every wire-legal name but the root normalizes, to the presentation of its lower-cased labels. */
  lemma NormalizePresent(ls: seq<Label>)
    requires LegalName(ls) && ls != []
    ensures Normalize(Present(ls)) == Some(Present(LowerLabels(ls)))
  {
    hide Scan, Denote, TrimRootDot, Present, IsAscii, LowerText, LowerLabels;
    DenotePresent(ls);
    ScanIsLegality(Present(ls), [], 1);
    ScannedIsTrimmed(Present(ls));
    AsciiPresent(ls);
    PresentNonEmpty(ls);
    LowerPresent(ls);
  }

  /** An accepted text never ends inside an escape. */
  lemma {:induction false} ScannedEndsWhole(t: string, octets: nat, wireLen: nat)
    requires Scan(t, octets, wireLen)
    ensures !EscapedAfter(t, false)
    decreases |t|
  {
    if t != "" {
      if t[0] == '\\' {
        if DecimalEscape(t) {
          EscapedAfterDecimal(t);
          ScannedEndsWhole(t[4..], octets + 1, wireLen);
        } else {
          assert t[1..][1..] == t[2..];
          ScannedEndsWhole(t[2..], octets + 1, wireLen);
        }
      } else if t[0] == '.' {
        ScannedEndsWhole(t[1..], 0, wireLen + 1 + octets);
      } else {
        ScannedEndsWhole(t[1..], octets + 1, wireLen);
      }
    }
  }

  /** The root dot is optional: a name with it and without it normalize alike. */
  lemma RootDotIsDropped(ls: seq<Label>)
    requires LegalName(ls) && ls != []
    ensures Normalize(Present(ls) + ".") == Some(Present(LowerLabels(ls)))
  {
    hide Scan, Denote, Present, IsAscii, LowerText, LowerLabels, EscapedAfter, BackslashRun;
    var s := Present(ls);
    NormalizePresent(ls);
    DenotePresent(ls);
    ScanIsLegality(s, [], 1);
    ScannedEndsWhole(s, 0, 1);
    ParityIsForwardScan(s);
    ScannedIsTrimmed(s);
    assert (s + ".")[..|s|] == s && TrimRootDot(s + ".") == s;
  }

  /** A text with a character beyond ASCII is never accepted. */
  lemma NonAsciiIsRefused(name: string, i: nat)
    requires i < |name| && name[i] as nat > 127
    ensures Normalize(name).None?
  {
    hide Scan, BackslashRun;
    var t := TrimRootDot(name);
    assert i < |t| && t[i] == name[i];
  }

  /** The root, alone among wire-legal names, does not normalize. */
  lemma RootDoesNotNormalize()
    ensures Normalize(Present([])).None?
  {
  }

  /** Two wire-legal names normalize alike exactly when their label lists are equal up to ASCII case. */
  lemma NormalizeAlike(a: seq<Label>, b: seq<Label>)
    requires LegalName(a) && LegalName(b) && a != [] && b != []
    ensures Normalize(Present(a)) == Normalize(Present(b)) <==> LowerLabels(a) == LowerLabels(b)
  {
    hide Normalize, Present, LowerLabels, WireLen;
    NormalizePresent(a);
    NormalizePresent(b);
    LowerLabelsShape(a);
    LowerLabelsShape(b);
    if Normalize(Present(a)) == Normalize(Present(b)) {
      PresentInjective(LowerLabels(a), LowerLabels(b));
    }
  }

  lemma {:induction false} ScanLower(t: string, octets: nat, wireLen: nat)
    ensures Scan(LowerText(t), octets, wireLen) == Scan(t, octets, wireLen)
    decreases |t|
  {
    if t != "" {
      LowerTail(t, 1);
      if t[0] == '\\' {
        if DecimalEscape(t) {
          LowerTail(t, 4);
          ScanLower(t[4..], octets + 1, wireLen);
        } else if |t| >= 2 {
          LowerTail(t, 2);
          ScanLower(t[2..], octets + 1, wireLen);
        }
      } else if t[0] == '.' {
        ScanLower(t[1..], 0, wireLen + 1 + octets);
      } else {
        ScanLower(t[1..], octets + 1, wireLen);
      }
    }
  }

  lemma LowerTail(t: string, k: nat)
    requires k <= |t|
    ensures LowerText(t)[k..] == LowerText(t[k..])
    ensures DecimalEscape(LowerText(t)) <==> DecimalEscape(t)
  {
  }

  lemma LowerTextTwice(t: string)
    ensures LowerText(LowerText(t)) == LowerText(t) && (IsAscii(t) ==> IsAscii(LowerText(t)))
  {
  }

  /** Normalizing what normalization returned changes nothing. */
  lemma NormalizeIdempotent(name: string)
    requires Normalize(name).Some?
    ensures Normalize(Normalize(name).value) == Normalize(name)
  {
    hide Scan, TrimRootDot, LowerText, IsAscii;
    var t := TrimRootDot(name);
    ScanLower(t, 0, 1);
    LowerTextTwice(t);
    ScannedIsTrimmed(LowerText(t));
  }

  // ---- suffix_match ----

  /** Reference form of the walk: some unescaped dot in `s` is followed by a rule of the set. */
  predicate TailMatch(rules: set<string>, s: string, escaped: bool)
    decreases |s|
  {
    s != "" &&
    if escaped then TailMatch(rules, s[1..], false)
    else if s[0] == '\\' then TailMatch(rules, s[1..], true)
    else (s[0] == '.' && s[1..] in rules) || TailMatch(rules, s[1..], false)
  }

  predicate SuffixMatch(rules: set<string>, name: string) {
    name in rules || TailMatch(rules, name, false)
  }

  method SuffixMatchLoop(rules: set<string>, name: string) returns (r: bool)
    ensures r == SuffixMatch(rules, name)
  {
    if name in rules { return true; }
    var escaped, i := false, 0;
    assert name[0..] == name;
    while i < |name|
      invariant 0 <= i <= |name|
      invariant TailMatch(rules, name, false) == TailMatch(rules, name[i..], escaped)
    {
      assert name[i..][1..] == name[i + 1..];
      if escaped {
        escaped := false;
      } else if name[i] == '\\' {
        escaped := true;
      } else if name[i] == '.' && name[i + 1..] in rules {
        return true;
      }
      i := i + 1;
    }
    return false;
  }

  lemma TailOctet(rules: set<string>, b: byte, rest: string)
    ensures TailMatch(rules, EscapeOctet(b) + rest, false) == TailMatch(rules, rest, false)
  {
    hide TailMatch;
    if b == 0x2E || b == 0x5C {
      TailEscape(rules, b as char, rest);
    } else if 0x20 <= b <= 0x7E {
      TailPlain(rules, b as char, rest);
    } else {
      var x, y, z := Digit(b as nat / 100), Digit(b as nat / 10 % 10), Digit(b as nat % 10);
      TailEscape(rules, x, [y, z] + rest);
      TailPlain(rules, y, [z] + rest);
      TailPlain(rules, z, rest);
      assert EscapeOctet(b) + rest == ['\\', x] + ([y, z] + rest) && [y, z] + rest == [y] + ([z] + rest);
    }
  }

  lemma TailEscape(rules: set<string>, c: char, rest: string)
    ensures TailMatch(rules, ['\\', c] + rest, false) == TailMatch(rules, rest, false)
  {
    assert (['\\', c] + rest)[1..] == [c] + rest && ([c] + rest)[1..] == rest;
  }

  lemma TailPlain(rules: set<string>, c: char, rest: string)
    requires c != '.' && c != '\\'
    ensures TailMatch(rules, [c] + rest, false) == TailMatch(rules, rest, false)
  {
    assert ([c] + rest)[1..] == rest;
  }

  lemma {:induction false} TailLabel(rules: set<string>, l: Label, rest: string)
    ensures TailMatch(rules, Escape(l) + rest, false) == TailMatch(rules, rest, false)
    decreases |l|
  {
    hide TailMatch, Escape, EscapeOctet;
    EscapeNil();
    if l == [] {
      assert "" + rest == rest;
    } else {
      var x, r := l[0], l[1..];
      assert l == [x] + r;
      EscapeCons(x, r);
      Assoc(EscapeOctet(x), Escape(r), rest);
      TailOctet(rules, x, Escape(r) + rest);
      TailLabel(rules, r, rest);
    }
  }

  lemma TailDot(rules: set<string>, rest: string)
    ensures TailMatch(rules, "." + rest, false) <==> rest in rules || TailMatch(rules, rest, false)
    ensures !TailMatch(rules, "", false)
  {
    assert ("." + rest)[1..] == rest;
  }

  /** Some proper tail of the label list is the presentation of a rule. */
  ghost predicate SomeTailIn(rules: set<string>, ls: seq<Label>, from: nat) {
    exists k :: from <= k < |ls| && Present(ls[k..]) in rules
  }

  lemma {:induction false} TailPresent(rules: set<string>, ls: seq<Label>)
    requires ls != []
    ensures TailMatch(rules, Present(ls), false) <==> SomeTailIn(rules, ls, 1)
    decreases |ls|
  {
    hide TailMatch, Present, Escape;
    var x, r := ls[0], ls[1..];
    assert ls == [x] + r;
    TailDot(rules, Present(r));
    if r == [] {
      PresentOne(x);
      TailLabel(rules, x, "");
      assert Escape(x) + "" == Escape(x) && ls == [x];
    } else {
      PresentCons(x, r);
      Assoc(Escape(x), ".", Present(r));
      TailLabel(rules, x, "." + Present(r));
      TailPresent(rules, r);
      TailsShift(rules, ls);
    }
  }

  lemma TailsShift(rules: set<string>, ls: seq<Label>)
    requires |ls| > 1
    ensures SomeTailIn(rules, ls, 1) <==> Present(ls[1..]) in rules || SomeTailIn(rules, ls[1..], 1)
  {
    hide Present;
    var r := ls[1..];
    if SomeTailIn(rules, ls, 1) {
      var k :| 1 <= k < |ls| && Present(ls[k..]) in rules;
      assert ls[k..] == r[k - 1..];
      assert r[0..] == r;
    }
    if SomeTailIn(rules, r, 1) {
      var k :| 1 <= k < |r| && Present(r[k..]) in rules;
      assert r[k..] == ls[k + 1..];
    }
  }

  /** On a wire name the byte walk finds a rule exactly when some non-empty label-list suffix is that rule. */
  lemma SuffixPresent(rules: set<string>, ls: seq<Label>)
    requires ls != []
    ensures SuffixMatch(rules, Present(ls)) <==> SomeTailIn(rules, ls, 0)
  {
    hide TailMatch, Present;
    TailPresent(rules, ls);
    assert ls[0..] == ls;
  }
}

/**
 Presentation form of names (RFC 4343 section 2.1): labels joined by dots, with the octets that would
 be ambiguous escaped. `Denote` reads an escaped text back; it is the left inverse that makes the
 form unambiguous.
 */
module Presentation {
  import opened Bytes
  import opened Names

  // ---- octets and labels to text ----

  function Digit(d: nat): (c: char)
    requires d < 10
    ensures '0' <= c <= '9'
  {
    (48 + d) as char
  }

  function EscapeOctet(b: byte): (s: string)
    ensures |s| >= 1
  {
    if b == 0x2E then ['\\', '.']
    else if b == 0x5C then ['\\', '\\']
    else if 0x20 <= b <= 0x7E then [b as char]
    else ['\\', Digit(b as nat / 100), Digit(b as nat / 10 % 10), Digit(b as nat % 10)]
  }

  function Escape(l: Label): (s: string)
    ensures |s| >= |l|
  {
    if l == [] then "" else EscapeOctet(l[0]) + Escape(l[1..])
  }

  lemma EscapeNil()
    ensures Escape([]) == ""
  {
  }

  lemma EscapeCons(b: byte, l: Label)
    ensures Escape([b] + l) == EscapeOctet(b) + Escape(l)
  {
    assert ([b] + l)[1..] == l;
  }

  lemma {:induction false} EscapeSnoc(l: Label, b: byte)
    ensures Escape(l + [b]) == Escape(l) + EscapeOctet(b)
    decreases |l|
  {
    hide Escape, EscapeOctet;
    EscapeNil();
    if l == [] {
      EscapeCons(b, []);
      assert [b] + [] == [b] && [] + [b] == [b];
      assert EscapeOctet(b) + "" == EscapeOctet(b);
    } else {
      var x, r := l[0], l[1..];
      assert l == [x] + r;
      EscapeSnoc(r, b);
      EscapeCons(x, r);
      EscapeCons(x, r + [b]);
      Assoc([x], r, [b]);
      Assoc(EscapeOctet(x), Escape(r), EscapeOctet(b));
    }
  }

  /** `push_label_escaped`: append one label to a presentation string. */
  method PushLabelEscaped(out: string, octets: Label) returns (r: string)
    ensures r == out + Escape(octets)
  {
    hide EscapeOctet, Escape;
    EscapeNil();
    r := out;
    var i := 0;
    while i < |octets|
      invariant 0 <= i <= |octets| && r == out + Escape(octets[..i])
    {
      assert octets[..i + 1] == octets[..i] + [octets[i]];
      EscapeSnoc(octets[..i], octets[i]);
      Assoc(out, Escape(octets[..i]), EscapeOctet(octets[i]));
      r := r + EscapeOctet(octets[i]);
      i := i + 1;
    }
    assert octets[..i] == octets;
  }

  function Present(ls: seq<Label>): (s: string) {
    if ls == [] then ""
    else if |ls| == 1 then Escape(ls[0])
    else Escape(ls[0]) + "." + Present(ls[1..])
  }

  lemma PresentOne(l: Label)
    ensures Present([l]) == Escape(l)
  {
  }

  lemma PresentCons(l: Label, ls: seq<Label>)
    requires ls != []
    ensures Present([l] + ls) == Escape(l) + "." + Present(ls)
  {
    assert ([l] + ls)[1..] == ls;
  }

  lemma {:induction false} PresentSnoc(ls: seq<Label>, l: Label)
    requires ls != []
    ensures Present(ls + [l]) == Present(ls) + "." + Escape(l)
    decreases |ls|
  {
    hide Present, Escape;
    var x, r := ls[0], ls[1..];
    assert ls == [x] + r;
    PresentOne(x);
    PresentOne(l);
    if r == [] {
      PresentCons(x, [l]);
      assert ls == [x] && ls + [l] == [x] + [l];
    } else {
      PresentSnoc(r, l);
      PresentCons(x, r);
      PresentCons(x, r + [l]);
      Assoc([x], r, [l]);
      Assoc(Escape(x) + ".", Present(r), "." + Escape(l));
      Assoc(Present(r), ".", Escape(l));
      Assoc(Present(ls), ".", Escape(l));
    }
  }

  // ---- text back to labels ----

  predicate IsDigit(c: char) { '0' <= c <= '9' }

  /** A backslash followed by exactly three decimal digits. */
  predicate DecimalEscape(s: string) {
    |s| >= 4 && s[0] == '\\' && IsDigit(s[1]) && IsDigit(s[2]) && IsDigit(s[3])
  }

  function DecimalValue(s: string): (v: nat)
    requires DecimalEscape(s)
  {
    (s[1] as nat - 48) * 100 + (s[2] as nat - 48) * 10 + (s[3] as nat - 48)
  }

  /** The labels a text denotes, `cur` being the label read so far; `None` if it denotes no octets. */
  function Denote(s: string, cur: Label): (r: Option<seq<Label>>)
    decreases |s|
  {
    if s == "" then Some([cur])
    else if s[0] == '\\' then
      if DecimalEscape(s) then
        if DecimalValue(s) < 0x100 then Denote(s[4..], cur + [DecimalValue(s) as byte]) else None
      else if |s| >= 2 && s[1] as nat < 0x100 then Denote(s[2..], cur + [s[1] as byte])
      else None
    else if s[0] == '.' then
      match Denote(s[1..], [])
      case None => None
      case Some(ls) => Some([cur] + ls)
    else if s[0] as nat < 0x100 then Denote(s[1..], cur + [s[0] as byte])
    else None
  }

  lemma DecimalDigits(b: byte)
    ensures (b as nat / 100) * 100 + (b as nat / 10 % 10) * 10 + b as nat % 10 == b as nat
    ensures b as nat / 100 < 10
  {
  }

  lemma DenoteOctet(b: byte, rest: string, cur: Label)
    ensures Denote(EscapeOctet(b) + rest, cur) == Denote(rest, cur + [b])
  {
    var s := EscapeOctet(b) + rest;
    DecimalDigits(b);
    assert s[|EscapeOctet(b)|..] == rest;
    if b == 0x2E || b == 0x5C {
      assert s[1] == b as char;
    } else if 0x20 <= b <= 0x7E {
    } else {
      assert DecimalEscape(s) && DecimalValue(s) == b as nat;
    }
  }

  lemma {:induction false} DenoteLabel(l: Label, rest: string, cur: Label)
    ensures Denote(Escape(l) + rest, cur) == Denote(rest, cur + l)
    decreases |l|
  {
    hide Denote, Escape, EscapeOctet;
    EscapeNil();
    if l == [] {
      assert Escape([]) + rest == rest && cur + [] == cur;
    } else {
      var x, r := l[0], l[1..];
      assert l == [x] + r;
      EscapeCons(x, r);
      Assoc(EscapeOctet(x), Escape(r), rest);
      DenoteOctet(x, Escape(r) + rest, cur);
      DenoteLabel(r, rest, cur + [x]);
      Assoc(cur, [x], r);
    }
  }

  lemma DenoteDot(rest: string, cur: Label)
    ensures Denote("." + rest, cur) == match Denote(rest, []) case None => None case Some(ls) => Some([cur] + ls)
  {
    assert ("." + rest)[1..] == rest;
  }

  /** Reading back the presentation of a label list gives that list: the form is unambiguous. */
  lemma {:induction false} DenotePresent(ls: seq<Label>)
    requires ls != []
    ensures Denote(Present(ls), []) == Some(ls)
    decreases |ls|
  {
    hide Denote, Present, Escape;
    var x, r := ls[0], ls[1..];
    assert ls == [x] + r && [] + x == x;
    DenoteEnd(x);
    if r == [] {
      PresentOne(x);
      DenoteLabel(x, "", []);
      assert Escape(x) + "" == Escape(x) && ls == [x];
    } else {
      PresentCons(x, r);
      Assoc(Escape(x), ".", Present(r));
      DenoteLabel(x, "." + Present(r), []);
      DenoteDot(Present(r), x);
      DenotePresent(r);
    }
  }

  lemma DenoteEnd(cur: Label)
    ensures Denote("", cur) == Some([cur])
  {
  }

  /** Two label lists with the same presentation are the same list; a presentation is empty only for the root. */
  lemma PresentInjective(a: seq<Label>, b: seq<Label>)
    requires LegalLabels(a) && LegalLabels(b) && Present(a) == Present(b)
    ensures a == b
  {
    hide Denote, Escape;
    if a != [] { DenotePresent(a); PresentNonEmpty(a); }
    if b != [] { DenotePresent(b); PresentNonEmpty(b); }
  }

  lemma PresentNonEmpty(ls: seq<Label>)
    requires LegalLabels(ls) && ls != []
    ensures |Present(ls)| >= 1
  {
    assert |Escape(ls[0])| >= 1;
  }

  // ---- ASCII case on text ----

  function LowerChar(c: char): (r: char) {
    if 'A' <= c <= 'Z' then (c as int + 32) as char else c
  }

  function LowerText(s: string): (r: string)
    ensures |r| == |s|
  {
    seq(|s|, i requires 0 <= i < |s| => LowerChar(s[i]))
  }

  lemma LowerTextConcat(a: string, b: string)
    ensures LowerText(a + b) == LowerText(a) + LowerText(b)
  {
  }

  lemma LowerOctet(b: byte)
    ensures LowerText(EscapeOctet(b)) == EscapeOctet(LowerByte(b))
  {
  }

  lemma {:induction false} LowerEscape(l: Label)
    ensures LowerText(Escape(l)) == Escape(Lower(l))
    decreases |l|
  {
    if l == [] {
      assert Lower(l) == [] && LowerText("") == "";
    } else {
      var x, r := l[0], l[1..];
      assert l == [x] + r;
      LowerCons(x, r);
      hide Escape, EscapeOctet, LowerText, Lower;
      LowerEscape(r);
      EscapeCons(x, r);
      EscapeCons(LowerByte(x), Lower(r));
      LowerTextConcat(EscapeOctet(x), Escape(r));
      LowerOctet(x);
    }
  }

  lemma LowerCons(x: byte, r: seq<byte>)
    ensures Lower([x] + r) == [LowerByte(x)] + Lower(r)
  {
  }

  /** Lower-casing the presentation is presenting the lower-cased labels. */
  lemma {:induction false} LowerPresent(ls: seq<Label>)
    ensures LowerText(Present(ls)) == Present(LowerLabels(ls))
    decreases |ls|
  {
    if ls == [] {
    } else {
      var x, r := ls[0], ls[1..];
      assert ls == [x] + r && LowerText(".") == ".";
      hide Present, Escape, LowerText, Lower, LowerLabels;
      LowerLabelsCons(x, r);
      LowerEscape(x);
      if r == [] {
        PresentOne(x);
        PresentOne(Lower(x));
        LowerLabelsNil();
        assert [Lower(x)] + [] == [Lower(x)] && ls == [x];
      } else {
        LowerPresent(r);
        PresentCons(x, r);
        PresentCons(Lower(x), LowerLabels(r));
        LowerTextConcat(Escape(x) + ".", Present(r));
        LowerTextConcat(Escape(x), ".");
      }
    }
  }

  lemma LowerLabelsNil()
    ensures LowerLabels([]) == []
  {
  }
}

/**
 Domain names: label lists, their wire encoding (RFC 1035 section 3.1) and the question-name
 parser, which never follows a compression pointer.
 */
module Names {
  import opened Bytes

  const MAX_NAME_WIRE_LEN := 255
  const MAX_LABEL_LEN := 63

  type Label = seq<byte>

  datatype WireError =
    | Truncated
    | NotAQuery
    | BadQuestionCount(count: u16)
    | CompressionInQuestion
    | InvalidLabelType
    | NameTooLong

  /** Octets of the wire form, root octet included. */
  function WireLen(ls: seq<Label>): (n: nat)
    ensures n >= 1
    ensures n == 1 <==> ls == []
  {
    if ls == [] then 1 else 1 + |ls[0]| + WireLen(ls[1..])
  }

  predicate LegalLabels(ls: seq<Label>) {
    forall i :: 0 <= i < |ls| ==> 1 <= |ls[i]| <= MAX_LABEL_LEN
  }

  /** What RFC 1035 lets a packet carry: labels of 1 to 63 octets, 255 octets in all. */
  predicate LegalName(ls: seq<Label>) {
    LegalLabels(ls) && WireLen(ls) <= MAX_NAME_WIRE_LEN
  }

  function Encode(ls: seq<Label>): (b: seq<byte>)
    requires LegalLabels(ls)
    ensures |b| == WireLen(ls)
  {
    if ls == [] then [0] else [|ls[0]| as byte] + ls[0] + Encode(ls[1..])
  }

  datatype ParsedName = ParsedName(labels: seq<Label>, end: nat)

  /** Reference form of the question-name parser: labels read from `o`, `used` wire octets charged so far. */
  function ParseName(b: seq<byte>, o: nat, used: nat): (r: Result<ParsedName, WireError>)
    ensures r.Ok? ==> o < r.value.end <= |b|
    decreases |b| - o
  {
    if o >= |b| then Err(Truncated)
    else if b[o] == 0 then Ok(ParsedName([], o + 1))
    else if b[o] >= 0xC0 then Err(CompressionInQuestion)
    else if b[o] >= 0x40 then Err(InvalidLabelType)
    else if o + 1 + b[o] as nat > |b| then Err(Truncated)
    else if used + 1 + b[o] as nat > MAX_NAME_WIRE_LEN then Err(NameTooLong)
    else
      match ParseName(b, o + 1 + b[o] as nat, used + 1 + b[o] as nat)
      case Err(e) => Err(e)
      case Ok(p) => Ok(ParsedName([b[o + 1..o + 1 + b[o] as nat]] + p.labels, p.end))
  }

  /** Which error a name gets: that of the first octet that is no length, or whose label does not fit. */
  lemma NameErrors(b: seq<byte>, o: nat, used: nat)
    ensures o >= |b| ==> ParseName(b, o, used) == Err(Truncated)
    ensures o < |b| && b[o] as nat > 191 ==> ParseName(b, o, used) == Err(CompressionInQuestion)
    ensures o < |b| && 63 < b[o] as nat <= 191 ==> ParseName(b, o, used) == Err(InvalidLabelType)
    ensures o < |b| && 0 < b[o] as nat <= 63 ==>
      var n := b[o] as nat;
      && (|b| - o <= n ==> ParseName(b, o, used) == Err(Truncated))
      && (|b| - o > n && used + 1 + n > 255 ==> ParseName(b, o, used) == Err(NameTooLong))
      && (|b| - o > n && used + 1 + n <= 255 ==>
            var rest := ParseName(b, o + 1 + n, used + 1 + n);
            (rest.Ok? <==> ParseName(b, o, used).Ok?) && (rest.Err? ==> ParseName(b, o, used) == rest))
  {
  }

  /** One length-prefixed label followed by `tail`, in place. */
  lemma AtLabel(b: seq<byte>, o: nat, l: Label, tail: seq<byte>)
    requires |l| <= MAX_LABEL_LEN
    ensures At(b, o, [|l| as byte] + l + tail) <==>
      o < |b| && b[o] as nat == |l| && At(b, o + 1, l) && At(b, o + 1 + |l|, tail)
  {
    AtConcat(b, o, [|l| as byte] + l, tail);
    AtConcat(b, o, [|l| as byte], l);
    AtSingle(b, o, |l| as byte);
  }

  lemma ParseStep(b: seq<byte>, o: nat, used: nat, l: Label, rest: ParsedName)
    requires o < |b| && b[o] as nat == |l| && 1 <= |l| <= MAX_LABEL_LEN && At(b, o + 1, l)
    requires used + 1 + |l| <= MAX_NAME_WIRE_LEN
    requires ParseName(b, o + 1 + |l|, used + 1 + |l|) == Ok(rest)
    ensures ParseName(b, o, used) == Ok(ParsedName([l] + rest.labels, rest.end))
  {
  }

  lemma ParseUnstep(b: seq<byte>, o: nat, used: nat) returns (l: Label, rest: ParsedName)
    requires ParseName(b, o, used).Ok? && b[o] != 0
    ensures b[o] as nat == |l| && 1 <= |l| <= MAX_LABEL_LEN && At(b, o + 1, l)
    ensures used + 1 + |l| <= MAX_NAME_WIRE_LEN
    ensures ParseName(b, o + 1 + |l|, used + 1 + |l|) == Ok(rest)
    ensures ParseName(b, o, used) == Ok(ParsedName([l] + rest.labels, rest.end))
  {
    l := b[o + 1..o + 1 + b[o] as nat];
    rest := ParseName(b, o + 1 + |l|, used + 1 + |l|).value;
  }

  lemma ParseRoot(b: seq<byte>, o: nat, used: nat)
    ensures At(b, o, Encode([])) <==> o < |b| && b[o] == 0
    ensures o < |b| && b[o] == 0 ==> ParseName(b, o, used) == Ok(ParsedName([], o + 1))
  {
    AtSingle(b, o, 0);
  }

  lemma EncodeCons(l: Label, rest: seq<Label>)
    requires 1 <= |l| <= MAX_LABEL_LEN && LegalLabels(rest)
    ensures LegalLabels([l] + rest) && WireLen([l] + rest) == 1 + |l| + WireLen(rest)
    ensures Encode([l] + rest) == [|l| as byte] + l + Encode(rest)
  {
    assert ([l] + rest)[1..] == rest;
  }

  lemma Uncons(ls: seq<Label>) returns (l: Label, rest: seq<Label>)
    requires LegalLabels(ls) && ls != []
    ensures ls == [l] + rest && LegalLabels(rest) && 1 <= |l| <= MAX_LABEL_LEN
    ensures WireLen(ls) == 1 + |l| + WireLen(rest)
    ensures Encode(ls) == [|l| as byte] + l + Encode(rest)
  {
    l, rest := ls[0], ls[1..];
  }

  /** Every name the parser accepts is legal and stands in the packet as the encoding of its labels. */
  lemma {:induction false} ParsedNameIsEncoding(b: seq<byte>, o: nat, used: nat)
    requires ParseName(b, o, used).Ok? && 1 <= used <= MAX_NAME_WIRE_LEN
    ensures var p := ParseName(b, o, used).value;
      && LegalLabels(p.labels) && used - 1 + WireLen(p.labels) <= MAX_NAME_WIRE_LEN
      && p.end == o + WireLen(p.labels) && At(b, o, Encode(p.labels))
    decreases |b| - o
  {
    hide At, ParseName, Encode;
    ParseRoot(b, o, used);
    if b[o] != 0 {
      var l, rest := ParseUnstep(b, o, used);
      ParsedNameIsEncoding(b, o + 1 + |l|, used + 1 + |l|);
      EncodeCons(l, rest.labels);
      AtLabel(b, o, l, Encode(rest.labels));
    }
  }

  /** Conversely, the encoding of a legal name parses to that name wherever it stands. */
  lemma {:induction false} EncodingParses(b: seq<byte>, o: nat, used: nat, ls: seq<Label>)
    requires LegalLabels(ls) && used - 1 + WireLen(ls) <= MAX_NAME_WIRE_LEN
    requires At(b, o, Encode(ls))
    ensures ParseName(b, o, used) == Ok(ParsedName(ls, o + WireLen(ls)))
    decreases |ls|
  {
    hide At, ParseName, Encode;
    if ls == [] {
      ParseRoot(b, o, used);
    } else {
      var l, rest := Uncons(ls);
      AtLabel(b, o, l, Encode(rest));
      EncodingParses(b, o + 1 + |l|, used + 1 + |l|, rest);
      ParseStep(b, o, used, l, ParsedName(rest, o + WireLen(ls)));
    }
  }

  /** The parser reads its own span only: what follows the name does not matter. */
  lemma ParseNameAtSpan(b: seq<byte>, o: nat, r: ParsedName, c: seq<byte>, p: nat)
    requires ParseName(b, o, 1) == Ok(r) && At(c, p, b[o..r.end])
    ensures ParseName(c, p, 1) == Ok(ParsedName(r.labels, p + (r.end - o)))
  {
    hide ParseName, Encode;
    ParsedNameIsEncoding(b, o, 1);
    EncodingParses(c, p, 1, r.labels);
  }

  // ---- ASCII case on label lists ----

  function LowerLabels(ls: seq<Label>): (r: seq<Label>)
    ensures |r| == |ls|
  {
    if ls == [] then [] else [Lower(ls[0])] + LowerLabels(ls[1..])
  }

  lemma {:induction false} LowerLabelsAt(ls: seq<Label>, i: nat)
    requires i < |ls|
    ensures LowerLabels(ls)[i] == Lower(ls[i])
  {
    if i > 0 { LowerLabelsAt(ls[1..], i - 1); }
  }

  lemma {:induction false} LowerLabelsTail(ls: seq<Label>, k: nat)
    requires k <= |ls|
    ensures LowerLabels(ls)[k..] == LowerLabels(ls[k..])
  {
    if k > 0 {
      LowerLabelsTail(ls[1..], k - 1);
      assert ls[k..] == ls[1..][k - 1..];
      assert LowerLabels(ls)[k..] == LowerLabels(ls[1..])[k - 1..];
    } else {
      assert ls[0..] == ls;
    }
  }

  lemma {:induction false} LowerLabelsShape(ls: seq<Label>)
    ensures WireLen(LowerLabels(ls)) == WireLen(ls)
    ensures LegalLabels(ls) ==> LegalLabels(LowerLabels(ls))
  {
    if ls != [] {
      LowerLabelsShape(ls[1..]);
      assert LowerLabels(ls)[1..] == LowerLabels(ls[1..]);
      if LegalLabels(ls) {
        assert LegalLabels(ls[1..]);
        forall i | 0 <= i < |ls| ensures 1 <= |LowerLabels(ls)[i]| <= MAX_LABEL_LEN {
          LowerLabelsAt(ls, i);
        }
      }
    }
  }

  lemma LowerIdempotent(l: Label)
    ensures Lower(Lower(l)) == Lower(l)
  {
    assert forall i :: 0 <= i < |l| ==> Lower(Lower(l))[i] == Lower(l)[i];
  }

  lemma {:induction false} LowerLabelsIdempotent(ls: seq<Label>)
    ensures LowerLabels(LowerLabels(ls)) == LowerLabels(ls)
  {
    if ls != [] {
      LowerIdempotent(ls[0]);
      LowerLabelsIdempotent(ls[1..]);
      assert LowerLabels(ls)[1..] == LowerLabels(ls[1..]);
    }
  }

  /**
   Case folding cannot weaken label structure: length octets are at most 63 and letters at least 65,
   so octets equal up to case to a legal encoding parse to the same boundaries and case-equal labels.
   */
  lemma {:induction false} FoldedEncodingParses(b: seq<byte>, o: nat, used: nat, ls: seq<Label>)
    requires LegalLabels(ls) && used - 1 + WireLen(ls) <= MAX_NAME_WIRE_LEN
    requires AtFold(b, o, Encode(ls))
    ensures var r := ParseName(b, o, used);
      r.Ok? && r.value.end == o + WireLen(ls) && LowerLabels(r.value.labels) == LowerLabels(ls)
    decreases |ls|
  {
    hide AtFold, At, ParseName, Encode, LowerLabels, Lower;
    if ls == [] {
      FoldedRoot(b, o, used);
    } else {
      var l, rest := Uncons(ls);
      var s := AtFoldLabel(b, o, l, Encode(rest));
      FoldedEncodingParses(b, o + 1 + |l|, used + 1 + |l|, rest);
      var p := ParseName(b, o + 1 + |l|, used + 1 + |l|).value;
      ParseStep(b, o, used, s, p);
      LowerLabelsCons(s, p.labels);
      LowerLabelsCons(l, rest);
    }
  }

  lemma FoldedRoot(b: seq<byte>, o: nat, used: nat)
    requires AtFold(b, o, Encode([]))
    ensures ParseName(b, o, used) == Ok(ParsedName([], o + 1))
  {
    AtFoldLength(b, o, 0);
  }

  lemma LowerLabelsCons(l: Label, ls: seq<Label>)
    ensures LowerLabels([l] + ls) == [Lower(l)] + LowerLabels(ls)
  {
    assert ([l] + ls)[1..] == ls;
  }

  /** A length octet is never a letter, so it survives case folding. */
  lemma AtFoldLength(b: seq<byte>, o: nat, n: byte)
    requires AtFold(b, o, [n]) && n <= MAX_LABEL_LEN as byte
    ensures b[o] == n
  {
    assert LowerByte(b[o]) == Lower(b[o..o + 1])[0] == Lower([n])[0] == LowerByte(n);
  }

  lemma AtFoldLabel(b: seq<byte>, o: nat, l: Label, tail: seq<byte>) returns (s: Label)
    requires |l| <= MAX_LABEL_LEN && AtFold(b, o, [|l| as byte] + l + tail)
    ensures b[o] as nat == |l| == |s| && At(b, o + 1, s) && Lower(s) == Lower(l)
    ensures AtFold(b, o + 1 + |l|, tail)
  {
    AtFoldConcat(b, o, [|l| as byte] + l, tail);
    AtFoldConcat(b, o, [|l| as byte], l);
    AtFoldLength(b, o, |l| as byte);
    s := b[o + 1..o + 1 + |l|];
  }

  /** Equal encodings are encodings of the same name. */
  lemma EncodeInjective(a: seq<Label>, b: seq<Label>)
    requires LegalName(a) && LegalName(b) && Encode(a) == Encode(b)
    ensures a == b
  {
    var e := Encode(a);
    assert At(e, 0, e);
    EncodingParses(e, 0, 1, a);
    EncodingParses(e, 0, 1, b);
  }
}

/** `build_query`: encoding an operator-supplied name, and exactly when it parses back to that name. */
module ProbeQuery {
  import opened Bytes
  import opened Names
  import opened Presentation
  import opened Queries

  const DOT: byte := 0x2E
  const BACKSLASH: byte := 0x5C

  /** `trim_end_matches('.')`. */
  function TrimDots(name: seq<byte>): (t: seq<byte>)
    ensures |t| <= |name| && t == name[..|t|]
    decreases |name|
  {
    if name != [] && name[|name| - 1] == DOT then TrimDots(name[..|name| - 1]) else name
  }

  /** Trailing dots go, however many, and nothing else. */
  lemma TrimDotsMeaning(t: seq<byte>)
    ensures TrimDots(t + [DOT]) == TrimDots(t)
    ensures t == [] || t[|t| - 1] != DOT ==> TrimDots(t) == t
  {
    assert (t + [DOT])[..|t|] == t;
  }

  function SplitDots(t: seq<byte>): (ls: seq<Label>)
    ensures ls != []
  {
    if t == [] then [[]]
    else if t[0] == DOT then [[]] + SplitDots(t[1..])
    else
      var rest := SplitDots(t[1..]);
      [[t[0]] + rest[0]] + rest[1..]
  }

  function JoinDots(ls: seq<Label>): (t: seq<byte>)
    requires ls != []
  {
    if |ls| == 1 then ls[0] else ls[0] + [DOT] + JoinDots(ls[1..])
  }

  predicate DotFree(l: Label) { DOT !in l }

  lemma {:induction false} SplitJoins(t: seq<byte>)
    ensures JoinDots(SplitDots(t)) == t
  {
    if t != [] {
      var rest := SplitDots(t[1..]);
      SplitJoins(t[1..]);
      hide JoinDots;
      if t[0] == DOT { JoinDot(rest); } else { JoinOctet(t[0], rest); }
      assert [t[0]] + t[1..] == t;
    }
  }

  lemma JoinDot(ls: seq<Label>)
    requires ls != []
    ensures JoinDots([[]] + ls) == [DOT] + JoinDots(ls)
  {
    assert ([[]] + ls)[1..] == ls && [] + [DOT] == [DOT];
  }

  lemma JoinOctet(c: byte, ls: seq<Label>)
    requires ls != []
    ensures JoinDots([[c] + ls[0]] + ls[1..]) == [c] + JoinDots(ls)
  {
    assert ([[c] + ls[0]] + ls[1..])[1..] == ls[1..];
    if |ls| > 1 {
      Assoc([c], ls[0] + [DOT], JoinDots(ls[1..]));
      Assoc([c], ls[0], [DOT]);
    }
  }

  lemma {:induction false} SplitDotFree(t: seq<byte>)
    ensures forall i :: 0 <= i < |SplitDots(t)| ==> DotFree(SplitDots(t)[i])
  {
    if t != [] { SplitDotFree(t[1..]); }
  }

  /** The labels a name encodes; the empty name is the root. */
  function NameLabels(name: seq<byte>): (ls: seq<Label>) {
    var t := TrimDots(name);
    if t == [] then [] else SplitDots(t)
  }

  function ProbeBytes(id: u16, ls: seq<Label>, qtype: u16, qclass: u16): (b: seq<byte>)
    requires LegalLabels(ls)
  {
    BuildUpstreamQuery(id, QuestionBytes(ls, qtype, qclass), false, NoEdns)
  }

  /** `None` exactly for names with an empty or overlong label or more than 255 wire octets. */
  function BuildQuery(id: u16, name: seq<byte>, qtype: u16, qclass: u16): (r: Option<seq<byte>>) {
    if LegalName(NameLabels(name)) then Some(ProbeBytes(id, NameLabels(name), qtype, qclass)) else None
  }

  /** The source's loop: check and emit one label at a time. */
  method BuildQueryLoop(id: u16, name: seq<byte>, qtype: u16, qclass: u16) returns (r: Option<seq<byte>>)
    ensures r == BuildQuery(id, name, qtype, qclass)
  {
    hide Encode, UpstreamHeader, SplitDots;
    var header := UpstreamHeader(id, false, 0);
    var out := header;
    var labels := NameLabels(name);
    var wireLen: nat, i: nat := 1, 0;
    PrefixNothing();
    while i < |labels|
      invariant 0 <= i <= |labels|
      invariant LegalLabels(labels[..i]) && wireLen == WireLen(labels[..i]) <= MAX_NAME_WIRE_LEN
      invariant out == header + Prefix(labels[..i])
    {
      var l := labels[i];
      if |l| == 0 || |l| > MAX_LABEL_LEN {
        assert !LegalLabels(labels);
        return None;
      }
      wireLen := wireLen + 1 + |l|;
      PrefixGrows(labels, i);
      if wireLen > MAX_NAME_WIRE_LEN {
        WireLenPrefix(labels, i + 1);
        return None;
      }
      Assoc(header, Prefix(labels[..i]), [|l| as byte] + l);
      out := out + ([|l| as byte] + l);
      i := i + 1;
    }
    assert labels[..i] == labels;
    PrefixEncodes(labels);
    out := out + [0];
    Assoc(header, Prefix(labels), [0]);
    Assoc(header, Encode(labels), U16Bytes(qtype) + U16Bytes(qclass));
    assert header + (Encode(labels) + (U16Bytes(qtype) + U16Bytes(qclass))) + []
        == header + (Encode(labels) + (U16Bytes(qtype) + U16Bytes(qclass)));
    return Some(out + (U16Bytes(qtype) + U16Bytes(qclass)));
  }

  /** The encoding without its root octet. */
  function Prefix(ls: seq<Label>): (b: seq<byte>)
    requires LegalLabels(ls)
  {
    if ls == [] then [] else [|ls[0]| as byte] + ls[0] + Prefix(ls[1..])
  }

  lemma PrefixNothing()
    ensures forall ls: seq<Label> :: ls == [] ==> LegalLabels(ls) && Prefix(ls) == [] && WireLen(ls) == 1
  {
  }

  lemma {:induction false} PrefixEncodes(ls: seq<Label>)
    requires LegalLabels(ls)
    ensures Encode(ls) == Prefix(ls) + [0]
    decreases |ls|
  {
    if ls != [] {
      PrefixEncodes(ls[1..]);
      Assoc([|ls[0]| as byte] + ls[0], Prefix(ls[1..]), [0]);
    }
  }

  lemma {:induction false} PrefixSnoc(ls: seq<Label>, l: Label)
    requires LegalLabels(ls) && 1 <= |l| <= MAX_LABEL_LEN
    ensures LegalLabels(ls + [l]) && WireLen(ls + [l]) == WireLen(ls) + 1 + |l|
    ensures Prefix(ls + [l]) == Prefix(ls) + ([|l| as byte] + l)
    decreases |ls|
  {
    if ls == [] {
      assert ls + [l] == [l] && [l][1..] == [];
    } else {
      PrefixSnoc(ls[1..], l);
      assert (ls + [l])[1..] == ls[1..] + [l];
      Assoc([|ls[0]| as byte] + ls[0], Prefix(ls[1..]), [|l| as byte] + l);
    }
  }

  lemma PrefixGrows(labels: seq<Label>, i: nat)
    requires i < |labels| && LegalLabels(labels[..i]) && 1 <= |labels[i]| <= MAX_LABEL_LEN
    ensures LegalLabels(labels[..i + 1]) && WireLen(labels[..i + 1]) == WireLen(labels[..i]) + 1 + |labels[i]|
    ensures Prefix(labels[..i + 1]) == Prefix(labels[..i]) + ([|labels[i]| as byte] + labels[i])
  {
    assert labels[..i + 1] == labels[..i] + [labels[i]];
    PrefixSnoc(labels[..i], labels[i]);
  }

  lemma {:induction false} WireLenPrefix(ls: seq<Label>, i: nat)
    requires i <= |ls|
    ensures WireLen(ls[..i]) <= WireLen(ls)
    decreases |ls|
  {
    if i > 0 {
      WireLenPrefix(ls[1..], i - 1);
      assert ls[..i][1..] == ls[1..][..i - 1];
    }
  }

  // ---- when the name survives ----

  /** Printable and not the escape character itself. */
  predicate PlainOctet(b: byte) { 0x20 <= b <= 0x7E && b != BACKSLASH }
  predicate PlainOctets(t: seq<byte>) { forall i :: 0 <= i < |t| ==> PlainOctet(t[i]) }

  function AsText(t: seq<byte>): (s: string)
    ensures |s| == |t|
  {
    seq(|t|, i requires 0 <= i < |t| => t[i] as char)
  }

  lemma {:induction false} EscapePlain(l: Label)
    requires DotFree(l)
    ensures PlainOctets(l) ==> Escape(l) == AsText(l)
    ensures !PlainOctets(l) ==> |Escape(l)| > |l|
    decreases |l|
  {
    if l != [] {
      EscapePlain(l[1..]);
      assert l == [l[0]] + l[1..];
    }
  }

  lemma {:induction false} PresentPlain(ls: seq<Label>)
    requires ls != [] && forall i :: 0 <= i < |ls| ==> DotFree(ls[i])
    ensures PlainOctets(JoinDots(ls)) ==> Present(ls) == AsText(JoinDots(ls))
    ensures !PlainOctets(JoinDots(ls)) ==> |Present(ls)| > |JoinDots(ls)|
    ensures |Present(ls)| >= |JoinDots(ls)|
    decreases |ls|
  {
    hide Escape;
    EscapePlain(ls[0]);
    if |ls| > 1 {
      var rest := JoinDots(ls[1..]);
      PresentPlain(ls[1..]);
      PlainConcat(ls[0] + [DOT], rest);
      PlainConcat(ls[0], [DOT]);
      assert AsText([DOT]) == ".";
    }
  }

  lemma PlainConcat(a: seq<byte>, b: seq<byte>)
    ensures PlainOctets(a + b) <==> PlainOctets(a) && PlainOctets(b)
    ensures AsText(a + b) == AsText(a) + AsText(b)
  {
    if PlainOctets(a + b) {
      assert forall i :: 0 <= i < |a| ==> a[i] == (a + b)[i];
      assert forall i :: 0 <= i < |b| ==> b[i] == (a + b)[|a| + i];
    }
  }

  /**
   A built query always parses, with RD and no OPT; the parsed name is the given one
   without its trailing dots if and only if every octet is printable and none is a backslash.
   */
  lemma BuildQueryRoundTrip(id: u16, name: seq<byte>, qtype: u16, qclass: u16)
    requires BuildQuery(id, name, qtype, qclass).Some?
    ensures var b := BuildQuery(id, name, qtype, qclass).value;
      && ParseQuery(b).Ok?
      && var q := ParseQuery(b).value;
      && q.id == id && q.qtype == qtype && q.qclass == qclass && q.recursionDesired && q.edns == NoEdns
      && QuestionLabels(b) == NameLabels(name)
      && (q.qname == AsText(TrimDots(name)) <==> PlainOctets(TrimDots(name)))
  {
    var ls, t := NameLabels(name), TrimDots(name);
    hide Present, ParseQuery, Encode, ParseName, JoinDots, SplitDots, QuestionBytes, TrimDots;
    BuiltQueryParses(id, ls, qtype, qclass, false, NoEdns);
    ProbeLabels(id, ls, qtype, qclass);
    if t == [] {
      PresentNothing();
      assert AsText(t) == "";
    } else {
      SplitJoins(t);
      SplitDotFree(t);
      PresentPlain(ls);
    }
  }

  lemma ProbeLabels(id: u16, ls: seq<Label>, qtype: u16, qclass: u16)
    requires LegalName(ls)
    ensures ParseQuery(ProbeBytes(id, ls, qtype, qclass)).Ok?
    ensures QuestionLabels(ProbeBytes(id, ls, qtype, qclass)) == ls
  {
    hide ParseQuery, FindOpt, Present, Encode, ParseName, QuestionBytes, At;
    var b := ProbeBytes(id, ls, qtype, qclass);
    BuiltQueryParses(id, ls, qtype, qclass, false, NoEdns);
    QueryMeaning(b);
    EncodeInjective(QuestionLabels(b), ls);
  }

  /** For instance a single backslash: it is built and parsed, but the parsed text is not the name given. */
  lemma BackslashIsNotRoundTripped(id: u16, qtype: u16, qclass: u16)
    ensures BuildQuery(id, [0x5C], qtype, qclass).Some?
    ensures var b := BuildQuery(id, [0x5C], qtype, qclass).value;
      ParseQuery(b).Ok? && ParseQuery(b).value.qname != AsText([0x5C])
  {
    hide ParseQuery;
    var name: seq<byte> := [0x5C];
    assert TrimDots(name) == name;
    assert name[1..] == [] && [name[0]] + [] == name && SplitDots(name) == [name];
    assert NameLabels(name) == [name];
    assert BuildQuery(id, name, qtype, qclass).Some?;
    BuildQueryRoundTrip(id, name, qtype, qclass);
    assert name[0] == 0x5C && !PlainOctets(name);
  }
}

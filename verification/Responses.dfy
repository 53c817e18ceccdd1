/** Reading and validating an upstream response before it is answered or cached. */
module Responses {
  import opened Bytes
  import opened Names
  import opened Header
  import opened Records
  import opened Edns
  import opened Queries

  datatype ResponseInfo = ResponseInfo(rcode: byte, minTtl: Option<u32>)

  // ---- answer TTLs ----

  function RecTtl(r: Rec): (t: u32)
    requires IsRecord(r)
  {
    U32At(r.bytes, SkipName(r.bytes, 0).value + 4)
  }

  function TtlsOf(rs: seq<Rec>): (ts: seq<u32>)
    requires AllRecords(rs)
    ensures |ts| == |rs|
    decreases |rs|
  {
    if rs == [] then [] else [RecTtl(rs[0])] + TtlsOf(rs[1..])
  }

  function MinOf(ts: seq<u32>): (m: Option<u32>)
    ensures m.None? <==> ts == []
  {
    if ts == [] then None
    else
      match MinOf(ts[1..])
      case None => Some(ts[0])
      case Some(t) => Some(Min(ts[0], t))
  }

  /** `MinOf` is the least element. */
  lemma {:induction false} MinOfIsLeast(ts: seq<u32>)
    requires ts != []
    ensures MinOf(ts).value in ts && forall t :: t in ts ==> MinOf(ts).value <= t
  {
    if |ts| > 1 {
      MinOfIsLeast(ts[1..]);
      assert ts == [ts[0]] + ts[1..];
    }
  }

  lemma {:induction false} MinOfSnoc(ts: seq<u32>, t: u32)
    ensures MinOf(ts + [t]) == Some(if ts == [] then t else Min(MinOf(ts).value, t))
    decreases |ts|
  {
    if ts != [] {
      assert (ts + [t])[1..] == ts[1..] + [t];
      MinOfSnoc(ts[1..], t);
    }
  }

  lemma {:induction false} TtlsSnoc(rs: seq<Rec>, r: Rec)
    requires AllRecords(rs) && IsRecord(r)
    ensures AllRecords(rs + [r]) && TtlsOf(rs + [r]) == TtlsOf(rs) + [RecTtl(r)]
    decreases |rs|
  {
    hide RecTtl, IsRecord;
    if rs == [] {
      assert rs + [r] == [r];
    } else {
      TtlsSnoc(rs[1..], r);
      assert (rs + [r])[1..] == rs[1..] + [r];
      Assoc([RecTtl(rs[0])], TtlsOf(rs[1..]), [RecTtl(r)]);
    }
  }

  /** The TTL octets read in place are those of the record. */
  lemma TtlInPlace(b: seq<byte>, o: nat, s: Span)
    requires RecordSpan(b, o) == Some(s)
    ensures var r := Rec(b[o..s.end], s.isOpt);
      IsRecord(r) && RecTtl(r) == U32At(b, SkipName(b, o).value + 4)
  {
    hide SkipName, U16At;
    var x := b[o..s.end];
    assert x[0..|x|] == x;
    RecordMoves(b, o, s, x, 0);
    var n := SkipName(b, o).value;
    SkipNamePart(b, o, s, x);
    SameU16(b, o, s.end, x, 0, n + 4);
    SameU16(b, o, s.end, x, 0, n + 6);
  }

  lemma SkipNamePart(b: seq<byte>, o: nat, s: Span, x: seq<byte>)
    requires RecordSpan(b, o) == Some(s) && Same(b, o, s.end, x, 0)
    ensures SkipName(x, 0) == Some(SkipName(b, o).value - o)
  {
    hide SkipName, Same, At;
    SamePart(b, o, s.end, x, 0, SkipName(b, o).value);
    SkipNameMoves(b, o, SkipName(b, o).value, x, 0);
  }

  /** Reference form of the answer walk. */
  function AnswerInfo(b: seq<byte>, o: nat, ancount: nat, rcode: byte): (r: Option<ResponseInfo>)
    requires o <= |b|
  {
    match Walk(b, o, ancount)
    case None => None
    case Some(w) =>
      WalkTiles(b, o, ancount);
      Some(ResponseInfo(rcode, MinOf(TtlsOf(w.records))))
  }

  /** `walk_answers`: one pass keeping the running minimum. */
  method WalkAnswers(b: seq<byte>, start: nat, ancount: nat, rcode: byte) returns (r: Option<ResponseInfo>)
    requires start <= |b|
    ensures r == AnswerInfo(b, start, ancount, rcode)
  {
    hide SkipName, U16At, U32At, Walk, Walking, RecordSpan, AllRecords, TtlsOf, MinOf;
    var offset: nat, i: nat, minTtl: Option<u32> := start, 0, None;
    ghost var done: seq<Rec> := [];
    WalkingStarts(b, start, ancount);
    NoTtls();
    while i < ancount
      invariant 0 <= i <= ancount && offset <= |b|
      invariant Walking(b, start, ancount, done, offset, ancount - i)
      invariant AllRecords(done) && minTtl == MinOf(TtlsOf(done))
    {
      var span := AnswerAt(b, offset);
      if span.None? {
        WalkingStuck(b, start, ancount, done, offset, ancount - i);
        return None;
      }
      var (ttl, end) := span.value;
      ghost var s := RecordSpan(b, offset).value;
      ghost var rec := Rec(b[offset..end], s.isOpt);
      WalkingSteps(b, start, ancount, done, offset, ancount - i, s);
      RunningMin(done, rec, minTtl);
      minTtl := match minTtl case None => Some(ttl) case Some(t) => Some(Min(t, ttl));
      done := done + [rec];
      offset := end;
      i := i + 1;
    }
    WalkingEnds(b, start, ancount, done, offset);
    return Some(ResponseInfo(rcode, minTtl));
  }

  /** One step of the walk: the record's TTL and end. */
  method AnswerAt(b: seq<byte>, offset: nat) returns (r: Option<(u32, nat)>)
    ensures r.None? <==> RecordSpan(b, offset).None?
    ensures r.Some? ==>
      var s := RecordSpan(b, offset).value;
      var rec := Rec(b[offset..s.end], s.isOpt);
      r.value.1 == s.end && IsRecord(rec) && r.value.0 == RecTtl(rec)
  {
    var name := SkipNameLoop(b, offset);
    if name.None? || name.value + 10 > |b| { return None; }
    var end := name.value + 10 + U16At(b, name.value + 8);
    if end > |b| { return None; }
    TtlInPlace(b, offset, RecordSpan(b, offset).value);
    return Some((U32At(b, name.value + 4), end));
  }

  lemma NoTtls()
    ensures AllRecords([]) && MinOf(TtlsOf([])).None?
  {
  }

  lemma RunningMin(done: seq<Rec>, rec: Rec, minTtl: Option<u32>)
    requires AllRecords(done) && IsRecord(rec) && minTtl == MinOf(TtlsOf(done))
    ensures AllRecords(done + [rec])
    ensures MinOf(TtlsOf(done + [rec]))
      == match minTtl case None => Some(RecTtl(rec)) case Some(t) => Some(Min(t, RecTtl(rec)))
  {
    hide MinOf, TtlsOf, RecTtl, AllRecords, IsRecord;
    TtlsSnoc(done, rec);
    MinOfSnoc(TtlsOf(done), RecTtl(rec));
  }

  // ---- response_info ----

  function ResponseInfoOf(b: seq<byte>): (r: Option<ResponseInfo>) {
    if !HasHeader(b) then None
    else
      match QuestionsEnd(b, HEADER_LEN, U16At(b, 4))
      case None => None
      case Some(q) => AnswerInfo(b, q, U16At(b, 6), Rcode(b))
  }

  /** The summary depends on the two counts, the rcode and the octets up to the last answer only. */
  lemma InfoMoves(b: seq<byte>, q: nat, w: Walked, c: seq<byte>)
    requires HasHeader(b) && HasHeader(c) && Rcode(c) == Rcode(b)
    requires U16At(c, 4) == U16At(b, 4) && U16At(c, 6) == U16At(b, 6)
    requires QuestionsEnd(b, HEADER_LEN, U16At(b, 4)) == Some(q) && Walk(b, q, U16At(b, 6)) == Some(w)
    requires Same(b, HEADER_LEN, w.end, c, HEADER_LEN)
    ensures ResponseInfoOf(b).Some? && ResponseInfoOf(c) == ResponseInfoOf(b)
  {
    hide Walk, QuestionsEnd, U16At, Same, At, Rcode, TtlsOf, MinOf;
    WalkTiles(b, q, U16At(b, 6));
    SamePart(b, HEADER_LEN, w.end, c, HEADER_LEN, q);
    SameFits(b, HEADER_LEN, w.end, c, HEADER_LEN);
    QuestionsMove(b, HEADER_LEN, U16At(b, 4), q, c, HEADER_LEN);
    WalkMoves(b, q, U16At(b, 6), w, c, q);
  }

  lemma InfoParts(b: seq<byte>) returns (q: nat, w: Walked)
    requires ResponseInfoOf(b).Some?
    ensures HasHeader(b) && QuestionsEnd(b, HEADER_LEN, U16At(b, 4)) == Some(q)
    ensures Walk(b, q, U16At(b, 6)) == Some(w) && HEADER_LEN <= q <= w.end <= |b|
  {
    q := QuestionsEnd(b, HEADER_LEN, U16At(b, 4)).value;
    w := Walk(b, q, U16At(b, 6)).value;
    WalkTiles(b, q, U16At(b, 6));
    hide Walk, QuestionsEnd;
  }

  /** Patching the header for a client does not change what the answer says. */
  lemma InfoForClient(b: seq<byte>, id: u16, rd: bool, cd: bool)
    requires ResponseInfoOf(b).Some?
    ensures ResponseInfoOf(ForClient(b, id, rd, cd)) == ResponseInfoOf(b)
  {
    hide ResponseInfoOf, Walk, QuestionsEnd, ForClient, U16At, Rcode, Same, At;
    var q, w := InfoParts(b);
    var c := ForClient(b, id, rd, cd);
    ForClientMeaning(b, id, rd, cd);
    TailSame(b, c, HEADER_LEN, w.end);
    TailU16(b, c, 4);
    TailU16(b, c, 6);
    InfoMoves(b, q, w, c);
  }

  /** Neither does stripping OPT records. */
  lemma InfoStrip(b: seq<byte>)
    requires ResponseInfoOf(b).Some?
    ensures ResponseInfoOf(Strip(b)) == ResponseInfoOf(b)
  {
    hide ResponseInfoOf, Walk, Strip, QuestionsEnd, U16At, Rcode, Same, At, LayoutOf, RecBytes, Keep;
    if LayoutOf(b).None? {
      StripUnwalkable(b);
    } else {
      var q, w := InfoParts(b);
      var l := LayoutOf(b).value;
      LayoutShape(b, l);
      StartAfterAnswers(b, l.start, |l.records|, q, w);
      StripKeepsTheRest(b, l);
      SamePart(b, HEADER_LEN, l.start, Strip(b), HEADER_LEN, w.end);
      HeadPrefix(b, Strip(b));
      InfoMoves(b, q, w, Strip(b));
    }
  }

  lemma StartAfterAnswers(b: seq<byte>, start: nat, count: nat, q: nat, w: Walked)
    requires AdditionalStart(b) == Some(Start(start, count))
    requires QuestionsEnd(b, HEADER_LEN, U16At(b, 4)) == Some(q) && Walk(b, q, U16At(b, 6)) == Some(w)
    ensures w.end <= start
  {
    hide Walk, QuestionsEnd, U16At;
    WalkPrefix(b, q, U16At(b, 6), U16At(b, 8));
  }

  lemma HeadPrefix(b: seq<byte>, c: seq<byte>)
    requires |b| >= 12 && |c| >= 12 && c[..10] == b[..10]
    ensures U16At(c, 4) == U16At(b, 4) && U16At(c, 6) == U16At(b, 6) && U16At(c, 8) == U16At(b, 8)
    ensures Rcode(c) == Rcode(b) && Tc(c) == Tc(b) && c[..4] == b[..4]
  {
    assert forall i :: 0 <= i < 10 ==> c[i] == c[..10][i] == b[..10][i] == b[i];
  }

  predicate IsTruncatedResponse(b: seq<byte>) { HasHeader(b) && Tc(b) }

  // ---- validate_response ----

  function ValidateResponse(b: seq<byte>, expectedId: u16, question: seq<byte>): (r: Option<ResponseInfo>) {
    if !HasHeader(b) || Id(b) != expectedId || !Qr(b) || U16At(b, 4) != 1 || |question| < 4 then None
    else if HEADER_LEN + |question| > |b| then None
    else
      var n := |question| - 4;
      if !EqFold(b[HEADER_LEN..HEADER_LEN + n], question[..n]) then None
      else if b[HEADER_LEN + n..HEADER_LEN + n + 4] != question[n..] then None
      else AnswerInfo(b, HEADER_LEN + |question|, U16At(b, 6), Rcode(b))
  }

  lemma {:induction false} ParsedNameSkips(b: seq<byte>, o: nat, used: nat)
    requires ParseName(b, o, used).Ok?
    ensures SkipName(b, o) == Some(ParseName(b, o, used).value.end)
    decreases |b| - o
  {
    if b[o] != 0 {
      ParsedNameSkips(b, o + 1 + b[o] as nat, used + 1 + b[o] as nat);
    }
  }

  /**
   An accepted answer is a response to the exchange's id whose question has the same label boundaries,
   case-equal labels, and exactly the type and class asked; re-walking it gives the same summary.
   */
  lemma ValidatedEchoesQuestion(b: seq<byte>, id: u16, ls: seq<Label>, qtype: u16, qclass: u16)
    requires LegalName(ls) && ValidateResponse(b, id, QuestionBytes(ls, qtype, qclass)).Some?
    ensures HasHeader(b) && Qr(b) && Id(b) == id
    ensures var end := HEADER_LEN + WireLen(ls);
      && ParseName(b, HEADER_LEN, 1).Ok? && ParseName(b, HEADER_LEN, 1).value.end == end
      && LowerLabels(ParseName(b, HEADER_LEN, 1).value.labels) == LowerLabels(ls)
      && end + 4 <= |b| && U16At(b, end) == qtype && U16At(b, end + 2) == qclass
    ensures ResponseInfoOf(b) == ValidateResponse(b, id, QuestionBytes(ls, qtype, qclass))
  {
    hide ParseName, AnswerInfo, SkipName, EqFold, Rcode, Encode;
    var question, n := QuestionBytes(ls, qtype, qclass), WireLen(ls);
    assert question[..n] == Encode(ls) && question[n..] == U16Bytes(qtype) + U16Bytes(qclass);
    FoldedEncodingParses(b, HEADER_LEN, 1, ls);
    ParsedNameSkips(b, HEADER_LEN, 1);
    AtConcat(b, HEADER_LEN + n, U16Bytes(qtype), U16Bytes(qclass));
    AtU16(b, HEADER_LEN + n, qtype);
    AtU16(b, HEADER_LEN + n + 2, qclass);
    OneQuestion(b, HEADER_LEN + n);
  }

  lemma OneQuestion(b: seq<byte>, end: nat)
    requires SkipName(b, HEADER_LEN) == Some(end) && end + 4 <= |b|
    ensures QuestionsEnd(b, HEADER_LEN, 1) == Some(end + 4)
  {
  }
}

/**
 EDNS0 OPT handling (RFC 6891 section 6.1.1): OPT is hop-by-hop, so every inherited one is stripped
 from a response and one is appended for the requester that sent one.
 */
module Edns {
  import opened Bytes
  import opened Records

  // ---- where the additional section is, and what is in it ----

  datatype Start = Start(offset: nat, count: nat)
  datatype Layout = Layout(start: nat, records: seq<Rec>, end: nat)

  function AdditionalStart(b: seq<byte>): (r: Option<Start>) {
    if |b| < HEADER_LEN then None
    else
      match QuestionsEnd(b, HEADER_LEN, U16At(b, 4))
      case None => None
      case Some(q) =>
        match Walk(b, q, U16At(b, 6) + U16At(b, 8))
        case None => None
        case Some(w) => Some(Start(w.end, U16At(b, 10)))
  }

  /** The additional section as a list of records; `None` when the message cannot be walked. */
  function LayoutOf(b: seq<byte>): (r: Option<Layout>) {
    match AdditionalStart(b)
    case None => None
    case Some(s) =>
      match Walk(b, s.offset, s.count)
      case None => None
      case Some(w) => Some(Layout(s.offset, w.records, w.end))
  }

  lemma StartBounds(b: seq<byte>, s: Start)
    requires AdditionalStart(b) == Some(s)
    ensures HEADER_LEN <= s.offset <= |b| && s.count == U16At(b, 10)
  {
    var q := QuestionsEnd(b, HEADER_LEN, U16At(b, 4)).value;
    WalkTiles(b, q, U16At(b, 6) + U16At(b, 8));
    hide At, Walk, QuestionsEnd;
  }

  /** The sections before the additional one depend on their own octets and the counts at 4, 6 and 8. */
  lemma StartMoves(b: seq<byte>, s: Start, c: seq<byte>)
    requires AdditionalStart(b) == Some(s) && |c| >= HEADER_LEN
    requires Same(b, HEADER_LEN, s.offset, c, HEADER_LEN)
    requires U16At(c, 4) == U16At(b, 4) && U16At(c, 6) == U16At(b, 6) && U16At(c, 8) == U16At(b, 8)
    ensures AdditionalStart(c) == Some(Start(s.offset, U16At(c, 10)))
  {
    hide At, Same, Walk, QuestionsEnd, U16At;
    var q := QuestionsEnd(b, HEADER_LEN, U16At(b, 4)).value;
    var w := Walk(b, q, U16At(b, 6) + U16At(b, 8)).value;
    WalkTiles(b, q, U16At(b, 6) + U16At(b, 8));
    SamePart(b, HEADER_LEN, s.offset, c, HEADER_LEN, q);
    QuestionsMove(b, HEADER_LEN, U16At(b, 4), q, c, HEADER_LEN);
    WalkMoves(b, q, U16At(b, 6) + U16At(b, 8), w, c, q);
  }

  lemma LayoutShape(b: seq<byte>, l: Layout)
    requires LayoutOf(b) == Some(l)
    ensures AdditionalStart(b) == Some(Start(l.start, |l.records|))
    ensures HEADER_LEN <= l.start <= l.end <= |b|
    ensures |l.records| == U16At(b, 10) && 11 * |l.records| <= l.end - l.start
    ensures AllRecords(l.records) && l.end == l.start + |RecBytes(l.records)|
    ensures At(b, l.start, RecBytes(l.records))
  {
    hide Walk, AdditionalStart, RecBytes, AllRecords, U16At;
    var s := AdditionalStart(b).value;
    StartBounds(b, s);
    WalkTiles(b, s.offset, s.count);
  }

  // ---- composing a message around an additional section ----

  /** `b`'s head up to `start`, then exactly `records`, counted in ARCOUNT, then `tail`. */
  function Compose(b: seq<byte>, start: nat, records: seq<Rec>, tail: seq<byte>): (c: seq<byte>)
    requires HEADER_LEN <= start <= |b| && |records| < 0x1_0000
  {
    PutU16(b[..start], 10, |records|) + RecBytes(records) + tail
  }

  lemma ComposeHead(b: seq<byte>, start: nat, records: seq<Rec>, tail: seq<byte>)
    requires HEADER_LEN <= start <= |b| && |records| < 0x1_0000
    ensures var c := Compose(b, start, records, tail);
      && |c| == start + |RecBytes(records)| + |tail|
      && U16At(c, 4) == U16At(b, 4) && U16At(c, 6) == U16At(b, 6) && U16At(c, 8) == U16At(b, 8)
      && U16At(c, 10) == |records|
      && Same(b, HEADER_LEN, start, c, HEADER_LEN)
      && c[..10] == b[..10]
  {
    var head := PutU16(b[..start], 10, |records|);
    var c := Compose(b, start, records, tail);
    assert forall i :: 0 <= i < start ==> c[i] == head[i];
    assert c[..10] == b[..10];
    assert U16At(head, 10) == |records|;
    assert c[HEADER_LEN..start] == b[HEADER_LEN..start];
  }

  lemma ComposeBody(b: seq<byte>, start: nat, records: seq<Rec>, tail: seq<byte>)
    requires HEADER_LEN <= start <= |b| && |records| < 0x1_0000
    ensures var c := Compose(b, start, records, tail);
      At(c, start, RecBytes(records)) && At(c, start + |RecBytes(records)|, tail)
  {
    hide RecBytes;
    var head, body := PutU16(b[..start], 10, |records|), RecBytes(records);
    assert (head + body + tail)[start..start + |body|] == body;
    assert (head + body + tail)[start + |body|..] == tail;
  }

  /** A composed message is walked as exactly the records it was composed from. */
  lemma ComposeLayout(b: seq<byte>, l: Layout, records: seq<Rec>, tail: seq<byte>)
    requires LayoutOf(b) == Some(l) && AllRecords(records) && |records| < 0x1_0000
    requires HEADER_LEN <= l.start <= |b|
    ensures LayoutOf(Compose(b, l.start, records, tail))
         == Some(Layout(l.start, records, l.start + |RecBytes(records)|))
  {
    hide Compose, At, Same, Walk, RecBytes, AllRecords, AdditionalStart, U16At, LayoutOf;
    LayoutShape(b, l);
    var c := Compose(b, l.start, records, tail);
    ComposeHead(b, l.start, records, tail);
    ComposeBody(b, l.start, records, tail);
    StartMoves(b, Start(l.start, |l.records|), c);
    TilesWalk(c, l.start, records);
    LayoutIs(c, Start(l.start, |records|), Walked(records, l.start + |RecBytes(records)|));
  }

  lemma LayoutIs(c: seq<byte>, s: Start, w: Walked)
    requires AdditionalStart(c) == Some(s) && Walk(c, s.offset, s.count) == Some(w)
    ensures LayoutOf(c) == Some(Layout(s.offset, w.records, w.end))
  {
  }

  /** Every walkable message is its own composition. */
  lemma DecomposeCompose(b: seq<byte>, l: Layout)
    requires LayoutOf(b) == Some(l)
    ensures HEADER_LEN <= l.start <= l.end <= |b| && |l.records| < 0x1_0000
    ensures b == Compose(b, l.start, l.records, b[l.end..])
  {
    hide LayoutOf, AllRecords, RecBytes, U16At, PutU16, At;
    LayoutShape(b, l);
    HeadCount(b, l.start);
    PutBack(b[..l.start], 10);
    AtIs(b, l.start, RecBytes(l.records));
    Cut3(b, l.start, l.end);
  }

  lemma AtIs(b: seq<byte>, o: nat, x: seq<byte>)
    requires At(b, o, x)
    ensures o + |x| <= |b| && b[o..o + |x|] == x
  {
  }

  lemma HeadCount(b: seq<byte>, start: nat)
    requires HEADER_LEN <= start <= |b|
    ensures U16At(b[..start], 10) == U16At(b, 10)
  {
  }

  // ---- strip_opt_records ----

  function Keep(rs: seq<Rec>): (r: seq<Rec>)
    ensures |r| <= |rs|
  {
    if rs == [] then []
    else if rs[0].isOpt then Keep(rs[1..])
    else [rs[0]] + Keep(rs[1..])
  }

  /** Reference form: the OPT-free message, or the input itself when it cannot be walked. */
  function Strip(b: seq<byte>): (r: seq<byte>) {
    match LayoutOf(b)
    case None => b
    case Some(l) =>
      LayoutShape(b, l);
      Compose(b, l.start, Keep(l.records), b[l.end..])
  }

  lemma {:induction false} KeepWellFormed(rs: seq<Rec>)
    requires AllRecords(rs)
    ensures AllRecords(Keep(rs))
    decreases |rs|
  {
    if rs != [] {
      KeepWellFormed(rs[1..]);
      RecCons(rs[0], Keep(rs[1..]));
    }
  }

  /** Nothing but OPT is dropped, and no OPT survives. */
  lemma {:induction false} KeepIsFilter(rs: seq<Rec>)
    ensures multiset(Keep(rs)) == multiset(rs) - multiset(OptsOf(rs))
    ensures forall r :: r in Keep(rs) <==> r in rs && !r.isOpt
    ensures |Keep(rs)| + |OptsOf(rs)| == |rs|
    decreases |rs|
  {
    if rs != [] {
      KeepIsFilter(rs[1..]);
      assert rs == [rs[0]] + rs[1..];
      OptsInside(rs[1..]);
    }
  }

  lemma OptsInside(rs: seq<Rec>)
    ensures multiset(OptsOf(rs)) <= multiset(rs)
    decreases |rs|
  {
    if rs != [] {
      OptsInside(rs[1..]);
      assert rs == [rs[0]] + rs[1..];
    }
  }

  function OptsOf(rs: seq<Rec>): (r: seq<Rec>) {
    if rs == [] then []
    else if rs[0].isOpt then [rs[0]] + OptsOf(rs[1..])
    else OptsOf(rs[1..])
  }

  lemma KeepCons(r: Rec, rs: seq<Rec>)
    ensures Keep([r] + rs) == if r.isOpt then Keep(rs) else [r] + Keep(rs)
    ensures OptsOf([r] + rs) == if r.isOpt then [r] + OptsOf(rs) else OptsOf(rs)
  {
    assert ([r] + rs)[1..] == rs;
  }

  lemma {:induction false} KeepConcat(a: seq<Rec>, b: seq<Rec>)
    ensures Keep(a + b) == Keep(a) + Keep(b)
    decreases |a|
  {
    hide Keep, OptsOf;
    if a == [] {
      KeepNil();
      assert a + b == b;
    } else {
      var r, rest := RecUncons(a);
      KeepConcat(rest, b);
      KeepCons(r, rest);
      KeepCons(r, rest + b);
      Assoc([r], rest, b);
      Assoc([r], Keep(rest), Keep(b));
    }
  }

  lemma {:induction false} OptsOfConcat(a: seq<Rec>, b: seq<Rec>)
    ensures OptsOf(a + b) == OptsOf(a) + OptsOf(b)
    decreases |a|
  {
    hide Keep, OptsOf;
    if a == [] {
      KeepNil();
      assert a + b == b;
    } else {
      var r, rest := RecUncons(a);
      OptsOfConcat(rest, b);
      KeepCons(r, rest);
      KeepCons(r, rest + b);
      Assoc([r], rest, b);
      Assoc([r], OptsOf(rest), OptsOf(b));
    }
  }

  lemma KeepNil()
    ensures Keep([]) == [] && OptsOf([]) == []
  {
  }

  lemma KeepSnoc(rs: seq<Rec>, r: Rec)
    ensures Keep(rs + [r]) == Keep(rs) + if r.isOpt then [] else [r]
  {
    KeepConcat(rs, [r]);
  }

  lemma {:induction false} KeepTwice(rs: seq<Rec>)
    ensures Keep(Keep(rs)) == Keep(rs) && OptsOf(Keep(rs)) == []
    decreases |rs|
  {
    if rs != [] {
      KeepTwice(rs[1..]);
      KeepCons(rs[0], Keep(rs[1..]));
    }
  }

  /** The additional section of the stripped message is that of the original without its OPT records. */
  lemma StripLayout(b: seq<byte>, l: Layout)
    requires LayoutOf(b) == Some(l)
    ensures var kept := Keep(l.records);
      && LayoutOf(Strip(b)) == Some(Layout(l.start, kept, l.start + |RecBytes(kept)|))
      && |Strip(b)| == l.start + |RecBytes(kept)| + (|b| - l.end)
  {
    hide Strip, LayoutOf, RecBytes, Keep, Compose, U16At, AllRecords, At, Same, AdditionalStart;
    StripIs(b, l);
    LayoutShape(b, l);
    KeepWellFormed(l.records);
    ComposeLayout(b, l, Keep(l.records), b[l.end..]);
    ComposeHead(b, l.start, Keep(l.records), b[l.end..]);
  }

  /**
   Only the additional section and its count change: the header before ARCOUNT, the sections before
   it and the bytes after it are kept verbatim, and ARCOUNT is the number of records kept.
   */
  lemma StripKeepsTheRest(b: seq<byte>, l: Layout)
    requires LayoutOf(b) == Some(l)
    ensures var s, end := Strip(b), l.start + |RecBytes(Keep(l.records))|;
      && HEADER_LEN <= l.start <= |s| && l.end <= |b|
      && s[..10] == b[..10] && U16At(s, 10) == |Keep(l.records)|
      && Same(b, HEADER_LEN, l.start, s, HEADER_LEN)
      && At(s, l.start, RecBytes(Keep(l.records))) && At(s, end, b[l.end..])
  {
    hide Strip, LayoutOf, RecBytes, Keep, AllRecords, Compose, At, Same, AdditionalStart, U16At;
    StripIs(b, l);
    ComposeHead(b, l.start, Keep(l.records), b[l.end..]);
    ComposeBody(b, l.start, Keep(l.records), b[l.end..]);
  }

  lemma StripIs(b: seq<byte>, l: Layout)
    requires LayoutOf(b) == Some(l)
    ensures HEADER_LEN <= l.start <= l.end <= |b| && |l.records| < 0x1_0000
    ensures Strip(b) == Compose(b, l.start, Keep(l.records), b[l.end..])
  {
    hide LayoutOf, RecBytes, Keep, Compose, AllRecords, At, AdditionalStart;
    LayoutShape(b, l);
  }

  lemma StripUnwalkable(b: seq<byte>)
    requires LayoutOf(b).None?
    ensures Strip(b) == b
  {
  }

  /** A message without OPT records is its own stripped form. */
  lemma StripIdle(b: seq<byte>, l: Layout)
    requires LayoutOf(b) == Some(l) && Keep(l.records) == l.records
    ensures Strip(b) == b
  {
    hide LayoutOf, Compose, Keep, Strip;
    DecomposeCompose(b, l);
    StripIs(b, l);
  }

  lemma StripIdempotent(b: seq<byte>)
    ensures Strip(Strip(b)) == Strip(b)
  {
    hide LayoutOf, Compose, Keep, Strip, OptsOf;
    if LayoutOf(b).None? {
      StripUnwalkable(b);
    } else {
      var l := LayoutOf(b).value;
      StripLayout(b, l);
      KeepTwice(l.records);
      StripIdle(Strip(b), Layout(l.start, Keep(l.records), l.start + |RecBytes(Keep(l.records))|));
    }
  }

  /** Edits to the first four octets (id and flags) leave the walk alone... */
  lemma HeadEditKeepsLayout(b: seq<byte>, c: seq<byte>)
    requires |b| == |c| && |b| >= 4 && b[4..] == c[4..]
    requires LayoutOf(b).Some?
    ensures LayoutOf(c) == LayoutOf(b)
  {
    hide LayoutOf, RecBytes, AllRecords, AdditionalStart, U16At, Walk, Same, At;
    var l := LayoutOf(b).value;
    LayoutShape(b, l);
    TailSame(b, c, HEADER_LEN, l.start);
    TailSame(b, c, l.start, l.end);
    TailU16(b, c, 4); TailU16(b, c, 6); TailU16(b, c, 8); TailU16(b, c, 10);
    StartMoves(b, Start(l.start, |l.records|), c);
    SameAt(b, l.start, RecBytes(l.records), c, l.start);
    TilesWalk(c, l.start, l.records);
    LayoutIs(c, Start(l.start, |l.records|), Walked(l.records, l.end));
  }

  lemma TailSame(b: seq<byte>, c: seq<byte>, o: nat, e: nat)
    requires |b| == |c| && 4 <= o <= e <= |b| && b[4..] == c[4..]
    ensures Same(b, o, e, c, o)
  {
    assert c[o..e] == c[4..][o - 4..e - 4] == b[4..][o - 4..e - 4] == b[o..e];
  }

  lemma TailU16(b: seq<byte>, c: seq<byte>, k: nat)
    requires |b| == |c| && 4 <= k <= |b| - 2 && b[4..] == c[4..]
    ensures U16At(b, k) == U16At(c, k)
  {
    assert b[k] == b[4..][k - 4] && b[k + 1] == b[4..][k - 3];
    assert c[k] == c[4..][k - 4] && c[k + 1] == c[4..][k - 3];
  }

  /** ... so stripping commutes with them. */
  lemma StripCommutesWithHeadEdit(b: seq<byte>, c: seq<byte>)
    requires |b| == |c| && |b| >= 4 && b[4..] == c[4..]
    ensures |Strip(c)| == |Strip(b)| >= 4
    ensures Strip(c)[..4] == c[..4] && Strip(b)[..4] == b[..4] && Strip(c)[4..] == Strip(b)[4..]
  {
    hide LayoutOf, Compose, Keep, Strip;
    if LayoutOf(b).Some? {
      HeadEditKeepsLayout(b, c);
    } else if LayoutOf(c).Some? {
      HeadEditKeepsLayout(c, b);
    }
    if LayoutOf(b).Some? {
      var l := LayoutOf(b).value;
      StripIs(b, l);
      StripIs(c, l);
      StripTail(b, c, l);
    } else {
      StripUnwalkable(b);
      StripUnwalkable(c);
    }
  }

  lemma StripTail(b: seq<byte>, c: seq<byte>, l: Layout)
    requires |b| == |c| && HEADER_LEN <= l.start <= l.end <= |b| && b[4..] == c[4..] && |l.records| < 0x1_0000
    ensures var keep := Keep(l.records);
      var x, y := Compose(b, l.start, keep, b[l.end..]), Compose(c, l.start, keep, c[l.end..]);
      && |x| == |y| >= 4 && x[..4] == b[..4] && y[..4] == c[..4] && x[4..] == y[4..]
  {
    hide Keep, RecBytes;
    var keep := Keep(l.records);
    TailSame(b, c, l.start, l.end);
    assert c[l.end..] == c[4..][l.end - 4..] == b[4..][l.end - 4..] == b[l.end..];
    ComposeHead(b, l.start, keep, b[l.end..]);
    ComposeHead(c, l.start, keep, c[l.end..]);
    var rest := RecBytes(keep) + b[l.end..];
    var p, q := PutU16(b[..l.start], 10, |keep|), PutU16(c[..l.start], 10, |keep|);
    assert p[4..] == q[4..] by {
      forall i | 4 <= i < l.start ensures p[i] == q[i] {
        assert b[i] == b[4..][i - 4] == c[4..][i - 4] == c[i];
      }
    }
    assert p + RecBytes(keep) + b[l.end..] == p + rest && q + RecBytes(keep) + c[l.end..] == q + rest;
    assert (p + rest)[4..] == p[4..] + rest && (q + rest)[4..] == q[4..] + rest;
  }

  // ---- the loops of the source ----

  function Prepend(done: seq<Rec>, w: Option<Walked>): (r: Option<Walked>) {
    match w
    case None => None
    case Some(x) => Some(Walked(done + x.records, x.end))
  }

  lemma PrependNone(w: Option<Walked>)
    ensures Prepend([], w) == w
  {
    if w.Some? { assert [] + w.value.records == w.value.records; }
  }

  /** Loop state of a record walk: `done` read so far, `left` records to read from `o`. */
  ghost predicate Walking(b: seq<byte>, start: nat, n: nat, done: seq<Rec>, o: nat, left: nat) {
    o <= |b| && Prepend([], Walk(b, start, n)) == Prepend(done, Walk(b, o, left))
  }

  lemma WalkingStarts(b: seq<byte>, start: nat, n: nat)
    requires start <= |b|
    ensures Walking(b, start, n, [], start, n)
  {
  }

  lemma WalkingStuck(b: seq<byte>, start: nat, n: nat, done: seq<Rec>, o: nat, left: nat)
    requires Walking(b, start, n, done, o, left) && left > 0 && RecordSpan(b, o).None?
    ensures Walk(b, start, n).None?
  {
    PrependNone(Walk(b, start, n));
  }

  lemma WalkingSteps(b: seq<byte>, start: nat, n: nat, done: seq<Rec>, o: nat, left: nat, s: Span)
    requires Walking(b, start, n, done, o, left) && left > 0 && RecordSpan(b, o) == Some(s)
    ensures s.end <= |b| && Walking(b, start, n, done + [Rec(b[o..s.end], s.isOpt)], s.end, left - 1)
  {
    if Walk(b, s.end, left - 1).Some? {
      Assoc(done, [Rec(b[o..s.end], s.isOpt)], Walk(b, s.end, left - 1).value.records);
    }
  }

  lemma WalkingEnds(b: seq<byte>, start: nat, n: nat, done: seq<Rec>, o: nat)
    requires Walking(b, start, n, done, o, 0)
    ensures Walk(b, start, n) == Some(Walked(done, o))
  {
    PrependNone(Walk(b, start, n));
    assert done + [] == done;
  }

  lemma RecBytesSnoc(rs: seq<Rec>, r: Rec)
    ensures RecBytes(rs + [r]) == RecBytes(rs) + r.bytes
  {
    RecConcat(rs, [r]);
    assert RecBytes([r]) == r.bytes + RecBytes([]) == r.bytes;
  }

  method AdditionalSectionStart(resp: seq<byte>) returns (r: Option<Start>)
    ensures r == AdditionalStart(resp)
  {
    if |resp| < HEADER_LEN { return None; }
    hide Walk, SkipName, U16At, QuestionsEnd;
    var offset := SkipQuestions(resp, HEADER_LEN, U16At(resp, 4));
    if offset.None? { return None; }
    var end := WalkRecords(resp, offset.value, U16At(resp, 6) + U16At(resp, 8));
    if end.None? { return None; }
    return Some(Start(end.value, U16At(resp, 10)));
  }

  /** The loop over the question section. */
  method SkipQuestions(resp: seq<byte>, start: nat, count: nat) returns (r: Option<nat>)
    requires start <= |resp|
    ensures r == QuestionsEnd(resp, start, count)
    ensures r.Some? ==> r.value <= |resp|
  {
    hide SkipName;
    var offset: nat, i: nat := start, 0;
    while i < count
      invariant 0 <= i <= count && offset <= |resp|
      invariant QuestionsEnd(resp, start, count) == QuestionsEnd(resp, offset, count - i)
    {
      var m := SkipNameLoop(resp, offset);
      if m.None? || m.value + 4 > |resp| { return None; }
      offset := m.value + 4;
      i := i + 1;
    }
    return Some(offset);
  }

  /** The loop over the answer and authority records. */
  method WalkRecords(resp: seq<byte>, start: nat, records: nat) returns (r: Option<nat>)
    requires start <= |resp|
    ensures r == match Walk(resp, start, records) case None => None case Some(w) => Some(w.end)
  {
    hide Walking, Walk, RecordSpan;
    var offset: nat, i: nat := start, 0;
    ghost var done := [];
    WalkingStarts(resp, start, records);
    while i < records
      invariant 0 <= i <= records && offset <= |resp|
      invariant Walking(resp, start, records, done, offset, records - i)
    {
      var span := RecordSpan(resp, offset);
      if span.None? {
        WalkingStuck(resp, start, records, done, offset, records - i);
        return None;
      }
      WalkingSteps(resp, start, records, done, offset, records - i, span.value);
      done := done + [Rec(resp[offset..span.value.end], span.value.isOpt)];
      offset := span.value.end;
      i := i + 1;
    }
    WalkingEnds(resp, start, records, done, offset);
    return Some(offset);
  }

  /** The loop over the additional records: the octets kept, how many records, and where it stopped. */
  method KeepLoop(resp: seq<byte>, start: nat, count: nat)
    returns (ok: bool, out: seq<byte>, kept: nat, offset: nat)
    requires start <= |resp|
    ensures ok <==> Walk(resp, start, count).Some?
    ensures ok ==> var w := Walk(resp, start, count).value;
      out == resp[..start] + RecBytes(Keep(w.records)) && kept == |Keep(w.records)| && offset == w.end <= |resp|
  {
    hide RecBytes, Keep, Walk, RecordSpan, Walking;
    out, kept, offset := resp[..start], 0, start;
    ghost var done: seq<Rec> := [];
    KeptNone();
    WalkingStarts(resp, start, count);
    var i: nat := 0;
    while i < count
      invariant 0 <= i <= count && offset <= |resp|
      invariant Walking(resp, start, count, done, offset, count - i)
      invariant out == resp[..start] + RecBytes(Keep(done)) && kept == |Keep(done)|
    {
      var span := RecordSpan(resp, offset);
      if span.None? {
        WalkingStuck(resp, start, count, done, offset, count - i);
        return false, out, kept, offset;
      }
      var end, isOpt := span.value.end, span.value.isOpt;
      WalkingSteps(resp, start, count, done, offset, count - i, span.value);
      KeptStep(resp[..start], done, Rec(resp[offset..end], isOpt));
      if !isOpt {
        out := out + resp[offset..end];
        kept := kept + 1;
      }
      done := done + [Rec(resp[offset..end], isOpt)];
      offset := end;
      i := i + 1;
    }
    WalkingEnds(resp, start, count, done, offset);
    ok := true;
  }

  method StripOptRecords(resp: seq<byte>) returns (r: seq<byte>)
    ensures r == Strip(resp)
  {
    hide At, U16At, RecBytes, Keep, AdditionalStart, Strip, Walk, PutU16;
    var info := AdditionalSectionStart(resp);
    if info.None? {
      StripUnstarted(resp);
      return resp;
    }
    StartBounds(resp, info.value);
    if info.value.count == 0 {
      NoRecords(resp, info.value);
      return resp;
    }
    var ok, out, kept, offset := KeepLoop(resp, info.value.offset, info.value.count);
    if !ok {
      StripStuck(resp, info.value);
      return resp;
    }
    StripDone(resp, info.value, Walk(resp, info.value.offset, info.value.count).value);
    return PutU16(out + resp[offset..], 10, kept);
  }

  lemma StripUnstarted(resp: seq<byte>)
    requires AdditionalStart(resp).None?
    ensures Strip(resp) == resp
  {
    assert LayoutOf(resp).None?;
  }

  lemma KeptNone()
    ensures RecBytes(Keep([])) == [] && |Keep([])| == 0
  {
  }

  lemma KeptStep(prefix: seq<byte>, done: seq<Rec>, r: Rec)
    ensures var kept := Keep(done + [r]);
      && prefix + RecBytes(kept) == prefix + RecBytes(Keep(done)) + (if r.isOpt then [] else r.bytes)
      && |kept| == |Keep(done)| + (if r.isOpt then 0 else 1)
  {
    hide RecBytes, Keep;
    KeepSnoc(done, r);
    RecBytesSnoc(Keep(done), r);
    if r.isOpt {
      assert Keep(done) + [] == Keep(done);
      assert prefix + RecBytes(Keep(done)) + [] == prefix + RecBytes(Keep(done));
    } else {
      Assoc(prefix, RecBytes(Keep(done)), r.bytes);
    }
  }

  lemma StripStuck(resp: seq<byte>, s: Start)
    requires AdditionalStart(resp) == Some(s) && Walk(resp, s.offset, s.count).None?
    ensures Strip(resp) == resp
  {
    assert LayoutOf(resp).None?;
  }

  lemma StripDone(resp: seq<byte>, s: Start, w: Walked)
    requires AdditionalStart(resp) == Some(s) && Walk(resp, s.offset, s.count) == Some(w)
    ensures HEADER_LEN <= s.offset <= w.end <= |resp| && |Keep(w.records)| < 0x1_0000
    ensures Strip(resp)
         == PutU16(resp[..s.offset] + RecBytes(Keep(w.records)) + resp[w.end..], 10, |Keep(w.records)|)
  {
    hide RecBytes, Keep, AdditionalStart, Strip, PutU16, U16At;
    LayoutIs(resp, s, w);
    StripIs(resp, Layout(s.offset, w.records, w.end));
    PutConcat(resp[..s.offset], RecBytes(Keep(w.records)), resp[w.end..], 10, |Keep(w.records)|);
  }

  lemma NoRecords(resp: seq<byte>, s: Start)
    requires AdditionalStart(resp) == Some(s) && s.count == 0
    ensures Strip(resp) == resp
  {
    StripIdle(resp, Layout(s.offset, [], s.offset));
  }

  lemma PutConcat(a: seq<byte>, b: seq<byte>, c: seq<byte>, i: nat, x: u16)
    requires i + 2 <= |a|
    ensures PutU16(a + b + c, i, x) == PutU16(a, i, x) + b + c
  {
  }

  // ---- append_client_opt ----

  /** The one OPT this program ever emits: root name, type 41, class = payload size, DO in the TTL. */
  function OptBytes(udpSize: u16, dnssecOk: bool): (r: seq<byte>)
    ensures |r| == 11
  {
    [0] + U16Bytes(TYPE_OPT) + U16Bytes(udpSize) + [0, 0, if dnssecOk then 0x80 else 0, 0] + [0, 0]
  }

  /** Field by field: root name, type 41, payload size, extended rcode and version zero, no flag but DO, no options. */
  lemma OptBytesMeaning(udpSize: u16, dnssecOk: bool)
    ensures var b := OptBytes(udpSize, dnssecOk);
      && b[0] == 0 && U16At(b, 1) == 41 && U16At(b, 3) == udpSize
      && b[5] == 0 && b[6] == 0 && U16At(b, 7) == (if dnssecOk then 0x8000 else 0) && U16At(b, 9) == 0
  {
    var b := OptBytes(udpSize, dnssecOk);
    assert b[1..3] == U16Bytes(TYPE_OPT) && b[3..5] == U16Bytes(udpSize);
    assert b[1] == U16Bytes(TYPE_OPT)[0] && b[2] == U16Bytes(TYPE_OPT)[1];
    assert b[3] == U16Bytes(udpSize)[0] && b[4] == U16Bytes(udpSize)[1];
  }

  lemma OptBytesIsOpt(udpSize: u16, dnssecOk: bool)
    ensures IsRecord(Rec(OptBytes(udpSize, dnssecOk), true))
  {
    var b := OptBytes(udpSize, dnssecOk);
    assert b[0] == 0 && b[1] == 0 && b[2] == 41 && b[9] == 0 && b[10] == 0;
    assert SkipName(b, 0) == Some(1);
    assert U16At(b, 1) == 41 && U16At(b, 9) == 0;
  }

  function AppendOpt(b: seq<byte>, udpSize: u16, dnssecOk: bool): (r: seq<byte>)
    ensures |r| == |b| || |r| == |b| + 11
  {
    if |b| < HEADER_LEN || U16At(b, 10) == 0xFFFF then b
    else PutU16(b + OptBytes(udpSize, dnssecOk), 10, U16At(b, 10) + 1)
  }

  /** On a message that ends with its last record and can still count one more, exactly one OPT is added, last. */
  lemma AppendLayout(b: seq<byte>, l: Layout, udpSize: u16, dnssecOk: bool)
    requires LayoutOf(b) == Some(l) && l.end == |b|
    ensures |l.records| < 0xFFFF ==>
      LayoutOf(AppendOpt(b, udpSize, dnssecOk))
        == Some(Layout(l.start, l.records + [Rec(OptBytes(udpSize, dnssecOk), true)], |b| + 11))
    ensures |l.records| == 0xFFFF ==> AppendOpt(b, udpSize, dnssecOk) == b
  {
    hide LayoutOf, RecBytes, AllRecords, AdditionalStart, At, U16At, OptBytes, Compose;
    LayoutShape(b, l);
    if |l.records| < 0xFFFF {
      var opt := Rec(OptBytes(udpSize, dnssecOk), true);
      OptBytesIsOpt(udpSize, dnssecOk);
      RecBytesSnoc(l.records, opt);
      OneRecord(opt);
      RecConcat(l.records, [opt]);
      ComposeLayout(b, l, l.records + [opt], []);
      AppendIsCompose(b, l, opt);
    }
  }

  lemma OneRecord(r: Rec)
    requires IsRecord(r)
    ensures AllRecords([r])
  {
  }

  lemma AppendIsCompose(b: seq<byte>, l: Layout, r: Rec)
    requires LayoutOf(b) == Some(l) && l.end == |b| && |l.records| < 0xFFFF
    ensures HEADER_LEN <= l.start <= |b|
    ensures PutU16(b + r.bytes, 10, |l.records| + 1) == Compose(b, l.start, l.records + [r], [])
  {
    hide LayoutOf, RecBytes, AllRecords, AdditionalStart, At, U16At;
    LayoutShape(b, l);
    RecBytesSnoc(l.records, r);
    AtIs(b, l.start, RecBytes(l.records));
    Cut3(b, l.start, l.end);
    var head, body := b[..l.start], RecBytes(l.records);
    assert b + r.bytes == head + (body + r.bytes) + [];
    PutConcat(head, body + r.bytes, [], 10, |l.records| + 1);
  }
}

/**
 Walking a DNS message (RFC 1035 section 4.1). No compression pointer is followed, so a name and a
 resource record are spans whose meaning depends on their own octets only: they can be moved, and
 the rest of the message edited, without changing how they read.
 */
module Records {
  import opened Bytes

  const HEADER_LEN := 12
  const TYPE_OPT := 41

  // ---- one name ----

  /** Offset just past a possibly compressed name. */
  function SkipName(b: seq<byte>, o: nat): (r: Option<nat>)
    ensures r.Some? ==> o < r.value <= |b|
    decreases |b| - o
  {
    if o >= |b| then None
    else if b[o] == 0 then Some(o + 1)
    else if b[o] >= 0xC0 then (if o + 2 <= |b| then Some(o + 2) else None)
    else if b[o] >= 0x40 then None
    else if o + 1 + b[o] as nat > |b| then None
    else SkipName(b, o + 1 + b[o] as nat)
  }

  method SkipNameLoop(b: seq<byte>, start: nat) returns (r: Option<nat>)
    ensures r == SkipName(b, start)
  {
    var offset := start;
    while true
      invariant SkipName(b, start) == SkipName(b, offset)
      decreases |b| - offset
    {
      if offset >= |b| { return None; }
      var len := b[offset];
      if len == 0 { return Some(offset + 1); }
      if len >= 0xC0 { return if offset + 2 <= |b| then Some(offset + 2) else None; }
      if len >= 0x40 { return None; }
      if offset + 1 + len as nat > |b| { return None; }
      offset := offset + 1 + len as nat;
    }
  }

  /** A name reads the same wherever its octets stand. */
  lemma {:induction false} SkipNameMoves(b: seq<byte>, o: nat, e: nat, c: seq<byte>, p: nat)
    requires SkipName(b, o) == Some(e) && Same(b, o, e, c, p)
    ensures SkipName(c, p) == Some(p + (e - o))
    decreases |b| - o
  {
    hide Same, At;
    SamePoint(b, o, e, c, p, o);
    if 0 < b[o] < 0x40 {
      var m := o + 1 + b[o] as nat;
      SamePart(b, o, e, c, p, m);
      SameFits(b, o, e, c, p);
      SkipNameMoves(b, m, e, c, p + (m - o));
    } else {
      SameFits(b, o, e, c, p);
    }
  }

  lemma SameBounds(b: seq<byte>, o: nat, e: nat, c: seq<byte>, p: nat)
    requires Same(b, o, e, c, p)
    ensures o <= e <= |b|
  {
  }

  lemma SameFits(b: seq<byte>, o: nat, e: nat, c: seq<byte>, p: nat)
    requires Same(b, o, e, c, p)
    ensures p + (e - o) <= |c|
  {
  }

  // ---- one resource record ----

  datatype Span = Span(end: nat, isOpt: bool)

  function RecordSpan(b: seq<byte>, o: nat): (r: Option<Span>)
    ensures r.Some? ==> o + 11 <= r.value.end <= |b|
  {
    match SkipName(b, o)
    case None => None
    case Some(n) =>
      if n + 10 > |b| then None
      else
        var end := n + 10 + U16At(b, n + 8);
        if end > |b| then None else Some(Span(end, U16At(b, n) == TYPE_OPT))
  }

  lemma SameU16(b: seq<byte>, o: nat, e: nat, c: seq<byte>, p: nat, k: nat)
    requires Same(b, o, e, c, p) && o <= k && k + 2 <= e
    ensures p + (k - o) + 2 <= |c| && U16At(c, p + (k - o)) == U16At(b, k)
  {
    SamePoint(b, o, e, c, p, k);
    SamePoint(b, o, e, c, p, k + 1);
  }

  /** A record reads the same wherever its octets stand. */
  lemma RecordMoves(b: seq<byte>, o: nat, s: Span, c: seq<byte>, p: nat)
    requires RecordSpan(b, o) == Some(s) && Same(b, o, s.end, c, p)
    ensures RecordSpan(c, p) == Some(Span(p + (s.end - o), s.isOpt))
  {
    hide Same, At, SkipName, U16At;
    var n := SkipName(b, o).value;
    SamePart(b, o, s.end, c, p, n);
    SkipNameMoves(b, o, n, c, p);
    SameU16(b, o, s.end, c, p, n);
    SameU16(b, o, s.end, c, p, n + 8);
    SameFits(b, o, s.end, c, p);
  }

  // ---- runs of records ----

  datatype Rec = Rec(bytes: seq<byte>, isOpt: bool)

  predicate IsRecord(r: Rec) {
    RecordSpan(r.bytes, 0) == Some(Span(|r.bytes|, r.isOpt))
  }

  predicate AllRecords(rs: seq<Rec>)
    decreases |rs|
  {
    rs == [] || (IsRecord(rs[0]) && AllRecords(rs[1..]))
  }

  function RecBytes(rs: seq<Rec>): (b: seq<byte>) {
    if rs == [] then [] else rs[0].bytes + RecBytes(rs[1..])
  }

  datatype Walked = Walked(records: seq<Rec>, end: nat)

  function Walk(b: seq<byte>, o: nat, n: nat): (r: Option<Walked>)
    decreases n
  {
    if n == 0 then Some(Walked([], o))
    else
      match RecordSpan(b, o)
      case None => None
      case Some(s) =>
        match Walk(b, s.end, n - 1)
        case None => None
        case Some(w) => Some(Walked([Rec(b[o..s.end], s.isOpt)] + w.records, w.end))
  }

  lemma WalkUnstep(b: seq<byte>, o: nat, n: nat) returns (r: Rec, w: Walked)
    requires Walk(b, o, n).Some? && n > 0
    ensures IsRecord(r) && At(b, o, r.bytes) && |r.bytes| >= 11
    ensures RecordSpan(b, o) == Some(Span(o + |r.bytes|, r.isOpt))
    ensures Walk(b, o + |r.bytes|, n - 1) == Some(w)
    ensures Walk(b, o, n) == Some(Walked([r] + w.records, w.end))
  {
    var s := RecordSpan(b, o).value;
    r := Rec(b[o..s.end], s.isOpt);
    w := Walk(b, s.end, n - 1).value;
    assert r.bytes[0..|r.bytes|] == r.bytes;
    RecordMoves(b, o, s, r.bytes, 0);
  }

  lemma WalkStep(b: seq<byte>, o: nat, n: nat, r: Rec, w: Walked)
    requires IsRecord(r) && At(b, o, r.bytes)
    requires Walk(b, o + |r.bytes|, n) == Some(w)
    ensures Walk(b, o, n + 1) == Some(Walked([r] + w.records, w.end))
  {
    SelfSame(r.bytes, b, o);
    assert b[o..o + |r.bytes|] == r.bytes;
    hide RecordSpan, Same, At;
    RecordMoves(r.bytes, 0, Span(|r.bytes|, r.isOpt), b, o);
  }

  lemma SelfSame(x: seq<byte>, b: seq<byte>, o: nat)
    requires At(b, o, x)
    ensures Same(x, 0, |x|, b, o)
  {
    assert x[0..|x|] == x;
  }

  lemma RecCons(r: Rec, rs: seq<Rec>)
    ensures RecBytes([r] + rs) == r.bytes + RecBytes(rs)
    ensures AllRecords([r] + rs) <==> IsRecord(r) && AllRecords(rs)
  {
    assert ([r] + rs)[1..] == rs;
  }

  lemma RecUncons(rs: seq<Rec>) returns (r: Rec, rest: seq<Rec>)
    requires rs != []
    ensures rs == [r] + rest && r == rs[0] && rest == rs[1..]
  {
    r, rest := rs[0], rs[1..];
  }

  /** What a walk returns is a run of well-formed records that tiles the walked span exactly. */
  lemma {:induction false} WalkTiles(b: seq<byte>, o: nat, n: nat)
    requires Walk(b, o, n).Some? && o <= |b|
    ensures var w := Walk(b, o, n).value;
      && |w.records| == n && AllRecords(w.records) && 11 * n <= |RecBytes(w.records)|
      && At(b, o, RecBytes(w.records)) && w.end == o + |RecBytes(w.records)|
    decreases n
  {
    if n == 0 {
      assert b[o..o] == [];
    } else {
      WalkTilesStep(b, o, n);
    }
  }

  lemma {:induction false} WalkTilesStep(b: seq<byte>, o: nat, n: nat)
    requires Walk(b, o, n).Some? && o <= |b| && n > 0
    ensures var w := Walk(b, o, n).value;
      && |w.records| == n && AllRecords(w.records) && 11 * n <= |RecBytes(w.records)|
      && At(b, o, RecBytes(w.records)) && w.end == o + |RecBytes(w.records)|
    decreases n, 0
  {
    hide Walk, At, IsRecord, RecordSpan, RecBytes, AllRecords;
    var r, w := WalkUnstep(b, o, n);
    AtFits(b, o, r.bytes);
    WalkTiles(b, o + |r.bytes|, n - 1);
    RecCons(r, w.records);
    AtConcat(b, o, r.bytes, RecBytes(w.records));
  }

  lemma AtFits(b: seq<byte>, o: nat, x: seq<byte>)
    requires At(b, o, x)
    ensures o + |x| <= |b|
  {
  }

  /** Conversely, any run of well-formed records is walked as that run, wherever it stands. */
  lemma {:induction false} TilesWalk(b: seq<byte>, o: nat, rs: seq<Rec>)
    requires AllRecords(rs) && At(b, o, RecBytes(rs))
    ensures Walk(b, o, |rs|) == Some(Walked(rs, o + |RecBytes(rs)|))
    decreases |rs|
  {
    if rs != [] {
      TilesWalkStep(b, o, rs);
    }
  }

  lemma {:induction false} TilesWalkStep(b: seq<byte>, o: nat, rs: seq<Rec>)
    requires AllRecords(rs) && At(b, o, RecBytes(rs)) && rs != []
    ensures Walk(b, o, |rs|) == Some(Walked(rs, o + |RecBytes(rs)|))
    decreases |rs|, 0
  {
    hide Walk, At, IsRecord, RecordSpan, RecBytes, AllRecords;
    var r, rest := RecUncons(rs);
    RecCons(r, rest);
    AtConcat(b, o, r.bytes, RecBytes(rest));
    TilesWalk(b, o + |r.bytes|, rest);
    WalkStep(b, o, |rest|, r, Walked(rest, o + |RecBytes(rs)|));
  }

  lemma WalkMoves(b: seq<byte>, o: nat, n: nat, w: Walked, c: seq<byte>, p: nat)
    requires Walk(b, o, n) == Some(w) && Same(b, o, w.end, c, p)
    ensures Walk(c, p, n) == Some(Walked(w.records, p + (w.end - o)))
  {
    hide Walk, At, Same, RecBytes, AllRecords;
    SameBounds(b, o, w.end, c, p);
    WalkTiles(b, o, n);
    SameAt(b, o, RecBytes(w.records), c, p);
    TilesWalk(c, p, w.records);
  }

  lemma {:induction false} RecConcat(a: seq<Rec>, b: seq<Rec>)
    ensures RecBytes(a + b) == RecBytes(a) + RecBytes(b)
    ensures AllRecords(a + b) <==> AllRecords(a) && AllRecords(b)
    decreases |a|
  {
    if a == [] {
      assert a + b == b;
    } else {
      hide RecBytes, AllRecords, IsRecord;
      var r, rest := RecUncons(a);
      RecConcat(rest, b);
      RecCons(r, rest);
      RecCons(r, rest + b);
      assert a + b == [r] + (rest + b);
      assert r.bytes + (RecBytes(rest) + RecBytes(b)) == (r.bytes + RecBytes(rest)) + RecBytes(b);
    }
  }

  /** A walk over `m + n` records starts with the walk over the first `m`. */
  lemma {:induction false} WalkPrefix(b: seq<byte>, o: nat, m: nat, n: nat)
    requires Walk(b, o, m + n).Some?
    ensures Walk(b, o, m).Some? && Walk(b, o, m).value.end <= Walk(b, o, m + n).value.end
    decreases m
  {
    if m == 0 {
      WalkEndsLater(b, o, n);
    } else {
      var s := RecordSpan(b, o).value;
      WalkPrefix(b, s.end, m - 1, n);
    }
  }

  lemma {:induction false} WalkEndsLater(b: seq<byte>, o: nat, n: nat)
    requires Walk(b, o, n).Some?
    ensures o <= Walk(b, o, n).value.end
    decreases n
  {
    if n > 0 { WalkEndsLater(b, RecordSpan(b, o).value.end, n - 1); }
  }

  // ---- the question section ----

  /** Offset past `n` questions: a name and four octets each. */
  function QuestionsEnd(b: seq<byte>, o: nat, n: nat): (r: Option<nat>)
    ensures r.Some? && n > 0 ==> o < r.value <= |b|
    ensures n == 0 ==> r == Some(o)
    decreases n
  {
    if n == 0 then Some(o)
    else
      match SkipName(b, o)
      case None => None
      case Some(m) => if m + 4 > |b| then None else QuestionsEnd(b, m + 4, n - 1)
  }

  lemma {:induction false} QuestionsMove(b: seq<byte>, o: nat, n: nat, e: nat, c: seq<byte>, p: nat)
    requires QuestionsEnd(b, o, n) == Some(e) && Same(b, o, e, c, p)
    ensures QuestionsEnd(c, p, n) == Some(p + (e - o))
    decreases n
  {
    hide Same, At, SkipName;
    if n > 0 {
      var m := SkipName(b, o).value;
      SamePart(b, o, e, c, p, m);
      SkipNameMoves(b, o, m, c, p);
      SamePart(b, o, e, c, p, m + 4);
      SameFits(b, o, m + 4, c, p);
      QuestionsMove(b, m + 4, n - 1, e, c, p + (m + 4 - o));
    }
  }
}

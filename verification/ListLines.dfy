/**
 Lists as octets: the lines of an input, and what the bounded line reader delivers of them. The source is an
 arbitrary, possibly endless stream of octets, ends of input and read failures.
 */
module ListLines {
  import opened Bytes
  import opened ListText

  datatype ReadError = InvalidData | OtherError
  datatype Item = Octet(b: byte) | End | Fail(error: ReadError)

  /** Item `i` is what the reader answers the `i`-th time it is asked. */
  type Source = nat -> Item

  // ---- reading lines through the byte limit ----

  datatype LineRead = NoLine | Line(raw: seq<byte>) | Broken(error: ReadError)
  datatype Read = Read(what: LineRead, pos: nat, left: nat)

  /** One `read_line` on the limited reader: at most `left` octets are ever taken from the source. */
  function ReadLine(src: Source, pos: nat, left: nat, got: seq<byte>): (r: Read)
    ensures r.left <= left && r.pos >= pos
    ensures r.what.Line? ==> |r.what.raw| == |got| + (left - r.left) && |r.what.raw| > 0
    ensures r.what.NoLine? ==> r.left == left && got == []
    decreases left
  {
    if left == 0 then Read(if got == [] then NoLine else Line(got), pos, 0)
    else
      match src(pos)
      case Octet(b) =>
        if b == 10 then Read(Line(got + [b]), pos + 1, left - 1)
        else ReadLine(src, pos + 1, left - 1, got + [b])
      case End => Read(if got == [] then NoLine else Line(got), pos + 1, left)
      case Fail(e) => Read(Broken(e), pos + 1, left)
  }

  /** The line without its terminator. */
  function Chomp(raw: seq<byte>): (s: seq<byte>)
    ensures |s| <= |raw|
  {
    if raw == [] || raw[|raw| - 1] != 10 then raw
    else if |raw| >= 2 && raw[|raw| - 2] == 13 then raw[..|raw| - 2]
    else raw[..|raw| - 1]
  }

  /** A terminator is LF or CR LF; without one the line is whole as it is. */
  lemma ChompMeaning(s: seq<byte>)
    ensures s == [] || s[|s| - 1] != 13 ==> Chomp(s + [10]) == s
    ensures Chomp(s + [13, 10]) == s
    ensures s == [] || s[|s| - 1] != 10 ==> Chomp(s) == s
  {
    assert (s + [10])[..|s|] == s && (s + [13, 10])[..|s|] == s;
  }

  // ---- the whole input, without any budget ----

  function Items(src: Source, n: nat): (s: seq<Item>)
    ensures |s| == n
  {
    seq(n, i requires 0 <= i < n => src(i))
  }

  /** The lines of a finite stretch of input; `got` is the line under way. */
  function Lines(items: seq<Item>, got: seq<byte>): (ls: seq<seq<byte>>) {
    if items == [] then []
    else
      match items[0]
      case Octet(b) => if b == 10 then [got + [b]] + Lines(items[1..], []) else Lines(items[1..], got + [b])
      case End => (if got == [] then [] else [got]) + Lines(items[1..], [])
      case Fail(_) => Lines(items[1..], [])
  }

  /** The line under way at the end of the stretch. */
  function Pending(items: seq<Item>, got: seq<byte>): (s: seq<byte>) {
    if items == [] then got
    else
      match items[0]
      case Octet(b) => Pending(items[1..], if b == 10 then [] else got + [b])
      case End => Pending(items[1..], [])
      case Fail(_) => Pending(items[1..], [])
  }

  lemma {:induction false} LinesSnoc(items: seq<Item>, x: Item, got: seq<byte>)
    ensures Lines(items + [x], got) == Lines(items, got) + Lines([x], Pending(items, got))
    ensures Pending(items + [x], got) == Pending([x], Pending(items, got))
    decreases |items|
  {
    if items == [] {
      assert items + [x] == [x];
    } else {
      assert (items + [x])[1..] == items[1..] + [x];
      var i := items[0];
      LinesSnoc(items[1..], x, if i.Octet? && i.b != 10 then got + [i.b] else []);
    }
  }

  lemma ItemsSnoc(src: Source, n: nat)
    ensures Items(src, n + 1) == Items(src, n) + [src(n)]
  {
  }

  function LinesOf(src: Source, n: nat): seq<seq<byte>> { Lines(Items(src, n), []) }
  function PendingOf(src: Source, n: nat): seq<byte> { Pending(Items(src, n), []) }

  lemma LinesGrow(src: Source, n: nat)
    ensures LinesOf(src, n + 1) == LinesOf(src, n) + Lines([src(n)], PendingOf(src, n))
    ensures PendingOf(src, n + 1) == Pending([src(n)], PendingOf(src, n))
  {
    ItemsSnoc(src, n);
    LinesSnoc(Items(src, n), src(n), []);
  }

  lemma OneItem(x: Item, got: seq<byte>)
    ensures Pending([x], got) == if x.Octet? && x.b != 10 then got + [x.b] else []
    ensures Lines([x], got)
         == if x.Octet? then (if x.b == 10 then [got + [x.b]] else [])
            else if x.End? && got != [] then [got]
            else []
  {
  }

  /** Octets and failures among the first `n` items. */
  function Octets(src: Source, n: nat): (k: nat) {
    if n == 0 then 0 else Octets(src, n - 1) + if src(n - 1).Octet? then 1 else 0
  }

  function Failures(src: Source, n: nat): (k: nat) {
    if n == 0 then 0 else Failures(src, n - 1) + if src(n - 1).Fail? then 1 else 0
  }

  /** The lines of the first `n` items, with the one under way, if any, as the octet limit would cut it. */
  function Seen(src: Source, n: nat): (ls: seq<seq<byte>>) {
    LinesOf(src, n) + Cut(src, n)
  }

  function Cut(src: Source, n: nat): (ls: seq<seq<byte>>) {
    if PendingOf(src, n) == [] then [] else [PendingOf(src, n)]
  }

  /**
   A read delivers exactly the next line of the input; only one that exhausts the limit may deliver the
   fragment of a line that was under way.
   */
  lemma {:induction false} ReadLineIsNextLine(src: Source, pos: nat, left: nat, got: seq<byte>)
    requires PendingOf(src, pos) == got
    ensures var r := ReadLine(src, pos, left, got);
      && Seen(src, r.pos) == LinesOf(src, pos) + (if r.what.Line? then [r.what.raw] else [])
      && (r.left > 0 ==> PendingOf(src, r.pos) == [])
      && (PendingOf(src, r.pos) != [] ==> r.what.Line? && LinesOf(src, r.pos) == LinesOf(src, pos))
      && r.left + Octets(src, r.pos) == left + Octets(src, pos)
      && Failures(src, r.pos) == Failures(src, pos) + (if r.what.Broken? then 1 else 0)
      && (r.what.NoLine? && r.left > 0 ==> r.pos == pos + 1 && src(pos) == End)
    decreases left
  {
    hide LinesOf, PendingOf, Lines, Pending;
    if left > 0 {
      LinesGrow(src, pos);
      OneItem(src(pos), got);
      assert LinesOf(src, pos) + [] == LinesOf(src, pos);
      if src(pos).Octet? && src(pos).b != 10 {
        ReadLineIsNextLine(src, pos + 1, left - 1, got + [src(pos).b]);
      } else {
        assert LinesOf(src, pos + 1) + [] == LinesOf(src, pos + 1);
      }
    } else {
      assert LinesOf(src, pos) + [] == LinesOf(src, pos);
    }
  }

  function DecodedTokens(p: Platform, format: Format, raw: seq<byte>): (ts: seq<string>) {
    match p.decode(Chomp(raw)) case None => [] case Some(line) => RuleTokens(p, format, line)
  }

  /** Every rule token of every decodable line. */
  function AllTokens(p: Platform, format: Format, lines: seq<seq<byte>>): (ts: seq<string>) {
    if lines == [] then [] else DecodedTokens(p, format, lines[0]) + AllTokens(p, format, lines[1..])
  }

  lemma {:induction false} AllTokensSnoc(p: Platform, format: Format, lines: seq<seq<byte>>, raw: seq<byte>)
    ensures AllTokens(p, format, lines + [raw]) == AllTokens(p, format, lines) + DecodedTokens(p, format, raw)
    decreases |lines|
  {
    hide DecodedTokens;
    if lines == [] {
      assert lines + [raw] == [raw];
      assert DecodedTokens(p, format, raw) + [] == [] + DecodedTokens(p, format, raw);
    } else {
      assert (lines + [raw])[1..] == lines[1..] + [raw];
      AllTokensSnoc(p, format, lines[1..], raw);
      Assoc(DecodedTokens(p, format, lines[0]), AllTokens(p, format, lines[1..]), DecodedTokens(p, format, raw));
    }
  }

  /** The input ends at item `n`: everything before it is whole lines, and the reader then reports the end. */
  predicate InputEndsAt(src: Source, n: nat) {
    PendingOf(src, n) == [] && src(n) == End
  }
}

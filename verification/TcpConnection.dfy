/** DNS over TCP (RFC 1035 section 4.2.2): framing, and one connection's service loop under its lifetime cap. */
module TcpConnection {
  import opened Bytes
  import opened Header
  import opened Queries
  import opened Replies
  import opened Engine
  import opened Forwarding
  import opened Serving
  import opened OwnQuestion
  import opened Proxy

  // ---- framing ----

  function Frame(m: seq<byte>): (f: seq<byte>)
    requires |m| <= MAX_FRAME
    ensures |f| == 2 + |m|
  {
    U16Bytes(|m|) + m
  }

  ghost predicate Framable(ms: seq<seq<byte>>) { forall i :: 0 <= i < |ms| ==> |ms[i]| <= MAX_FRAME }

  ghost function FrameAll(ms: seq<seq<byte>>): (s: seq<byte>)
    requires Framable(ms)
  {
    if ms == [] then [] else Frame(ms[0]) + FrameAll(ms[1..])
  }

  datatype Deframed = Deframed(messages: seq<seq<byte>>, rest: seq<byte>)

  /** What a peer reads off the stream: whole messages, then an unfinished rest. */
  function Deframe(s: seq<byte>): (d: Deframed)
    decreases |s|
  {
    if |s| < 2 || |s| < 2 + U16At(s, 0) then Deframed([], s)
    else
      var n := 2 + U16At(s, 0);
      var d := Deframe(s[n..]);
      Deframed([s[2..n]] + d.messages, d.rest)
  }

  /** A stretch that is not yet a whole frame. */
  predicate Unfinished(s: seq<byte>) { |s| < 2 || |s| < 2 + U16At(s, 0) }

  lemma DeframeOne(m: seq<byte>, tail: seq<byte>)
    requires |m| <= MAX_FRAME
    ensures Deframe(Frame(m) + tail) == Deframed([m] + Deframe(tail).messages, Deframe(tail).rest)
  {
    var s := Frame(m) + tail;
    assert s[0] == U16Bytes(|m|)[0] && s[1] == U16Bytes(|m|)[1];
    assert U16At(s, 0) == |m| && s[2..2 + |m|] == m && s[2 + |m|..] == tail;
  }

  /** Framed messages followed by an unfinished frame are read back as exactly those messages. */
  lemma {:induction false} DeframeFrameAll(ms: seq<seq<byte>>, partial: seq<byte>)
    requires Framable(ms) && Unfinished(partial)
    ensures Deframe(FrameAll(ms) + partial) == Deframed(ms, partial)
    decreases |ms|
  {
    hide Deframe, Frame, FrameAll, Unfinished;
    if ms == [] {
      FrameNone(partial);
    } else {
      var m, r := ms[0], ms[1..];
      assert ms == [m] + r;
      DeframeFrameAll(r, partial);
      FrameCons(m, r);
      Assoc(Frame(m), FrameAll(r), partial);
      DeframeOne(m, FrameAll(r) + partial);
    }
  }

  lemma FrameNone(partial: seq<byte>)
    requires Unfinished(partial)
    ensures Deframe(FrameAll([]) + partial) == Deframed([], partial)
  {
    assert [] + partial == partial;
  }

  lemma FrameCons(m: seq<byte>, ms: seq<seq<byte>>)
    requires |m| <= MAX_FRAME && Framable(ms)
    ensures Framable([m] + ms) && FrameAll([m] + ms) == Frame(m) + FrameAll(ms)
  {
    assert ([m] + ms)[1..] == ms;
  }

  lemma {:induction false} FrameAllSnoc(ms: seq<seq<byte>>, m: seq<byte>)
    requires Framable(ms) && |m| <= MAX_FRAME
    ensures Framable(ms + [m]) && FrameAll(ms + [m]) == FrameAll(ms) + Frame(m)
    decreases |ms|
  {
    hide Frame;
    if ms == [] {
      assert ms + [m] == [m];
      assert FrameAll([m]) == Frame(m) + FrameAll([]);
      assert FrameAll([m]) == Frame(m);
    } else {
      FrameAllSnoc(ms[1..], m);
      assert (ms + [m])[1..] == ms[1..] + [m];
      Assoc(Frame(ms[0]), FrameAll(ms[1..]), Frame(m));
    }
  }

  lemma PrefixUnfinished(m: seq<byte>, k: nat)
    requires |m| <= MAX_FRAME && k < |Frame(m)|
    ensures Unfinished(Frame(m)[..k])
  {
    if k >= 2 {
      assert U16At(Frame(m)[..k], 0) == U16At(Frame(m), 0) == U16At(U16Bytes(|m|), 0);
    }
  }

  // ---- one connection ----

  /**
   What the outside world does to one connection: how long its `k`-th wait would take on its own (never,
   if `None`), how much time passes outside waits before it, and how much of an interrupted write got out.
   */
  datatype World = World(delay: nat -> Option<nat>, gap: nat -> nat, written: nat -> nat)

  /** A timed wait ends within its budget; it completes iff it needed no more than that. */
  predicate Completes(w: World, k: nat, budget: nat) {
    w.delay(k).Some? && w.delay(k).value <= budget
  }

  function Elapsed(w: World, k: nat, budget: nat): (t: nat)
    ensures t <= budget
  {
    if Completes(w, k, budget) then w.delay(k).value else budget
  }

  /** The clock of one connection: total time spent waiting is tracked beside it. */
  datatype Clock = Clock(now: nat, waits: nat, waited: nat)

  /** Waiting never exceeds the lifetime, however the waits and the gaps between them fall. */
  predicate OnBudget(c: Clock, start: nat, lifetime: nat) {
    start <= c.now && c.waited <= c.now - start && c.waited <= lifetime
  }

  /** Time left when the next wait would start; none if the cap is spent by then. */
  function Left(w: World, c: Clock, start: nat, lifetime: nat): (t: nat) {
    var now := c.now + w.gap(c.waits);
    if now < start + lifetime then start + lifetime - now else 0
  }

  /** The next wait is started in time and completes within its budget. */
  predicate GoesThrough(w: World, c: Clock, start: nat, lifetime: nat, atMost: nat) {
    Left(w, c, start, lifetime) > 0 && Completes(w, c.waits, Min(Left(w, c, start, lifetime), atMost))
  }

  /** The clock after that wait. */
  function AfterWait(w: World, c: Clock, start: nat, lifetime: nat, atMost: nat): (d: Clock) {
    var left := Left(w, c, start, lifetime);
    var t := if left > 0 then Elapsed(w, c.waits, Min(left, atMost)) else 0;
    Clock(c.now + w.gap(c.waits) + t, c.waits + 1, c.waited + t)
  }

  /**
   One wait: its budget is re-derived from the deadline. Nothing is started once the cap is spent, a started wait ends
   by the deadline and within its own allowance, and it completes iff the outside world lets it.
   */
  method TimedWait(w: World, before: Clock, start: nat, lifetime: nat, atMost: nat)
    returns (after: Clock, started: bool, completed: bool)
    requires OnBudget(before, start, lifetime)
    ensures OnBudget(after, start, lifetime) && after == AfterWait(w, before, start, lifetime, atMost)
    ensures started <==> before.now + w.gap(before.waits) < start + lifetime
    ensures started ==> after.now <= start + lifetime && after.now <= before.now + w.gap(before.waits) + atMost
    ensures started && !completed ==>
      var spent := after.now - before.now - w.gap(before.waits);
      after.now == start + lifetime || spent == atMost
    ensures completed ==> w.delay(before.waits) == Some(after.now - before.now - w.gap(before.waits))
    ensures completed == GoesThrough(w, before, start, lifetime, atMost) && (completed ==> started)
  {
    var now := before.now + w.gap(before.waits);
    if now >= start + lifetime {
      return Clock(now, before.waits + 1, before.waited), false, false;
    }
    var budget := Min(start + lifetime - now, atMost);
    var t := Elapsed(w, before.waits, budget);
    return Clock(now + t, before.waits + 1, before.waited + t), true, Completes(w, before.waits, budget);
  }

  /** Time taken by `n` waits from the `k`-th on, and by what comes before each, if all of them are let through. */
  function Taken(w: World, k: nat, n: nat): (t: nat)
    decreases n
  {
    if n == 0 then 0
    else w.gap(k) + (if w.delay(k).Some? then w.delay(k).value else 0) + Taken(w, k + 1, n - 1)
  }

  /** The next `n` waits are let through: each would end within `idle`, and all of them before the deadline. */
  ghost predicate Prompt(w: World, c: Clock, n: nat, start: nat, lifetime: nat, idle: nat) {
    && (forall i :: c.waits <= i < c.waits + n ==> w.delay(i).Some? && w.delay(i).value <= idle)
    && c.now + Taken(w, c.waits, n) < start + lifetime
  }

  lemma TakenMeaning(w: World, k: nat)
    ensures Taken(w, k, 0) == 0
    ensures forall d :: w.delay(k) == Some(d) ==> Taken(w, k, 1) == w.gap(k) + d
    ensures w.delay(k).None? ==> Taken(w, k, 1) == w.gap(k)
  {
  }

  /** A prompt wait goes through, and those after it are still prompt. */
  lemma PromptStep(w: World, c: Clock, n: nat, start: nat, lifetime: nat, idle: nat, atMost: nat)
    requires n > 0 && Prompt(w, c, n, start, lifetime, idle) && OnBudget(c, start, lifetime)
    requires atMost == idle || atMost == lifetime
    ensures GoesThrough(w, c, start, lifetime, atMost)
    ensures Prompt(w, AfterWait(w, c, start, lifetime, atMost), n - 1, start, lifetime, idle)
  {
    assert w.delay(c.waits).Some?;
  }

  /** The i-th reply is the transport's form of what the pipeline answered to the i-th message. */
  ghost predicate RepliesTo(
    replies: seq<seq<byte>>, messages: seq<seq<byte>>, handle: (nat, seq<byte>) -> Option<seq<byte>>)
  {
    |replies| <= |messages| &&
    forall i :: 0 <= i < |replies| ==>
      handle(i, messages[i]).Some? && TcpReply(messages[i], handle(i, messages[i]).value) == Some(replies[i])
  }

  /**
   `tcp_conn`. `input` is every octet the client will send and `handle` what the pipeline answers to the
   i-th message. The output is one whole frame per answered query, in order, then at most an unfinished
   frame; the peer de-frames exactly the replies; the waits sum to at most the lifetime cap; and the
   connection counts as killed exactly when it ended at or past its deadline. If the client and the pipeline
   are prompt, every message up to the first one that has no answer gets its reply.
   */
  method ServeConnection(
    input: seq<byte>, handle: (nat, seq<byte>) -> Option<seq<byte>>, w: World, start: nat, lifetime: nat, idle: nat)
    returns (out: seq<byte>, ghost replies: seq<seq<byte>>, clock: Clock, killed: bool)
    requires forall i, m :: handle(i, m).Some? ==> HasHeader(m)
    ensures RepliesTo(replies, Deframe(input).messages, handle)
    ensures Deframe(out).messages == replies
    ensures OnBudget(clock, start, lifetime) && clock.waited <= lifetime
    ensures killed <==> clock.now >= start + lifetime
    ensures var messages := Deframe(input).messages;
      Prompt(w, Clock(start, 0, 0), 4 * |messages|, start, lifetime, idle) ==>
        |replies| == |messages| || handle(|replies|, messages[|replies|]).None?
  {
    hide Deframe, FrameAll, TcpReply, OnBudget, Unfinished, Frame, Prompt;
    clock := Clock(start, 0, 0);
    StartsOnBudget(start, lifetime);
    out, replies := [], [];
    var rest, n: nat := input, 0;
    ghost var messages := Deframe(input).messages;
    var partial: seq<byte> := [];
    ghost var prompt := Prompt(w, clock, 4 * |messages|, start, lifetime, idle);
    NothingFramed();
    var open := true;
    while open
      invariant OnBudget(clock, start, lifetime)
      invariant Framable(replies) && out == FrameAll(replies) && Unfinished(partial)
      invariant RepliesTo(replies, messages, handle) && n == |replies|
      invariant open ==> messages[n..] == Deframe(rest).messages
      invariant prompt && open ==> Prompt(w, clock, 4 * (|messages| - n), start, lifetime, idle)
      invariant prompt && !open ==> n == |messages| || handle(n, messages[n]).None?
      decreases open, |rest|
    {
      var reply: Option<seq<byte>>;
      reply, partial, rest, clock := ServeOne(rest, n, handle, w, clock, start, lifetime, idle);
      if reply.None? {
        open := false;
      } else {
        FrameAllSnoc(replies, reply.value);
        RepliesGrow(replies, messages, handle, reply.value);
        out := out + Frame(reply.value);
        replies := replies + [reply.value];
        n := n + 1;
      }
    }
    DeframeFrameAll(replies, partial);
    WaitedInTime(clock, start, lifetime);
    out := out + partial;
    killed := clock.now >= start + lifetime;
  }

  lemma WaitedInTime(c: Clock, start: nat, lifetime: nat)
    requires OnBudget(c, start, lifetime)
    ensures c.waited <= lifetime && c.waited <= c.now - start
  {
  }

  lemma StartsOnBudget(start: nat, lifetime: nat)
    ensures OnBudget(Clock(start, 0, 0), start, lifetime)
  {
  }

  lemma NothingFramed()
    ensures FrameAll([]) == [] && Unfinished([])
  {
  }

  lemma RepliesGrow(
    replies: seq<seq<byte>>, messages: seq<seq<byte>>, handle: (nat, seq<byte>) -> Option<seq<byte>>, reply: seq<byte>)
    requires RepliesTo(replies, messages, handle) && messages[|replies|..] != []
    requires var m := messages[|replies|..][0];
      handle(|replies|, m).Some? && TcpReply(m, handle(|replies|, m).value) == Some(reply)
    ensures RepliesTo(replies + [reply], messages, handle)
    ensures messages[|replies| + 1..] == messages[|replies|..][1..]
  {
    hide TcpReply;
  }

  /** Serve one message: either a whole frame goes out, or the connection ends with an unfinished one. */
  method ServeOne(
    rest: seq<byte>, n: nat, handle: (nat, seq<byte>) -> Option<seq<byte>>, w: World, before: Clock,
    start: nat, lifetime: nat, idle: nat)
    returns (reply: Option<seq<byte>>, partial: seq<byte>, remaining: seq<byte>, clock: Clock)
    requires OnBudget(before, start, lifetime)
    requires forall i, m :: handle(i, m).Some? ==> HasHeader(m)
    ensures OnBudget(clock, start, lifetime) && Unfinished(partial)
    ensures reply.Some? ==>
      && partial == [] && |remaining| < |rest| && |reply.value| <= MAX_FRAME
      && Deframe(rest).messages != [] && Deframe(remaining).messages == Deframe(rest).messages[1..]
      && var m := Deframe(rest).messages[0];
      && handle(n, m).Some? && TcpReply(m, handle(n, m).value) == reply
    ensures forall k: nat :: k >= 4 && Prompt(w, before, k, start, lifetime, idle) ==>
      && (reply.Some? <==> Deframe(rest).messages != [] && handle(n, Deframe(rest).messages[0]).Some?)
      && (reply.Some? ==> Prompt(w, clock, k - 4, start, lifetime, idle))
  {
    hide Deframe, TcpReply, OnBudget, Unfinished, Prompt, GoesThrough, AfterWait;
    ghost var c1 := AfterWait(w, before, start, lifetime, idle);
    ghost var c2 := AfterWait(w, c1, start, lifetime, idle);
    ghost var c3 := AfterWait(w, c2, start, lifetime, lifetime);
    FourPromptWaits(w, before, start, lifetime, idle);
    UnfinishedHasNone(rest);
    NothingFramed();
    var request: Option<seq<byte>>;
    request, clock := ReadMessage(rest, w, before, start, lifetime, idle);
    if request.None? { return None, [], rest, clock; }
    NextMessage(rest, request.value);
    remaining := rest[2 + |request.value|..];
    var started, completed;
    clock, started, completed := TimedWait(w, clock, start, lifetime, lifetime);
    var answer := handle(n, request.value);
    if !completed || answer.None? { return None, [], remaining, clock; }
    // An answered request has a header to echo an id from, so the reply can always be framed.
    ReplyFramable(request.value, answer.value);
    reply := TcpReply(request.value, answer.value);
    var k := clock.waits;
    clock, started, completed := TimedWait(w, clock, start, lifetime, lifetime);
    partial := [];
    if !completed {
      if started { partial := PartialWrite(reply.value, w.written(k)); }
      reply := None;
    }
  }

  lemma OnBudgetAfter(w: World, c: Clock, start: nat, lifetime: nat, atMost: nat)
    requires OnBudget(c, start, lifetime)
    ensures OnBudget(AfterWait(w, c, start, lifetime, atMost), start, lifetime)
  {
  }

  /** Read the length, read the body, resolve, write: if four waits are prompt they all go through. */
  lemma FourPromptWaits(w: World, c: Clock, start: nat, lifetime: nat, idle: nat)
    requires OnBudget(c, start, lifetime)
    ensures var c1 := AfterWait(w, c, start, lifetime, idle);
      var c2 := AfterWait(w, c1, start, lifetime, idle);
      var c3 := AfterWait(w, c2, start, lifetime, lifetime);
      forall k: nat :: k >= 4 && Prompt(w, c, k, start, lifetime, idle) ==>
        && GoesThrough(w, c, start, lifetime, idle) && GoesThrough(w, c1, start, lifetime, idle)
        && GoesThrough(w, c2, start, lifetime, lifetime) && GoesThrough(w, c3, start, lifetime, lifetime)
        && Prompt(w, AfterWait(w, c3, start, lifetime, lifetime), k - 4, start, lifetime, idle)
  {
    hide Prompt, GoesThrough, AfterWait, OnBudget;
    var c1 := AfterWait(w, c, start, lifetime, idle);
    var c2 := AfterWait(w, c1, start, lifetime, idle);
    var c3 := AfterWait(w, c2, start, lifetime, lifetime);
    OnBudgetAfter(w, c, start, lifetime, idle);
    OnBudgetAfter(w, c1, start, lifetime, idle);
    OnBudgetAfter(w, c2, start, lifetime, lifetime);
    forall k: nat | k >= 4 && Prompt(w, c, k, start, lifetime, idle)
      ensures GoesThrough(w, c, start, lifetime, idle) && GoesThrough(w, c1, start, lifetime, idle)
      ensures GoesThrough(w, c2, start, lifetime, lifetime) && GoesThrough(w, c3, start, lifetime, lifetime)
      ensures Prompt(w, AfterWait(w, c3, start, lifetime, lifetime), k - 4, start, lifetime, idle)
    {
      PromptStep(w, c, k, start, lifetime, idle, idle);
      PromptStep(w, c1, k - 1, start, lifetime, idle, idle);
      PromptStep(w, c2, k - 2, start, lifetime, idle, lifetime);
      PromptStep(w, c3, k - 3, start, lifetime, idle, lifetime);
    }
  }

  lemma UnfinishedHasNone(s: seq<byte>)
    ensures Unfinished(s) <==> Deframe(s).messages == []
  {
  }

  /** Length prefix, then body: two reads on a budget each; nothing comes back iff a read stalls or ends early. */
  method ReadMessage(rest: seq<byte>, w: World, before: Clock, start: nat, lifetime: nat, idle: nat)
    returns (m: Option<seq<byte>>, clock: Clock)
    requires OnBudget(before, start, lifetime)
    ensures OnBudget(clock, start, lifetime)
    ensures m.Some? ==> |rest| >= 2 + |m.value| && |m.value| == U16At(rest, 0) && m.value == rest[2..2 + |m.value|]
    ensures var second := AfterWait(w, before, start, lifetime, idle);
      && (m.Some? <==> GoesThrough(w, before, start, lifetime, idle) && GoesThrough(w, second, start, lifetime, idle)
                       && !Unfinished(rest))
      && (m.Some? ==> clock == AfterWait(w, second, start, lifetime, idle))
  {
    hide GoesThrough, AfterWait;
    var started, completed;
    clock, started, completed := TimedWait(w, before, start, lifetime, idle);
    if !completed || |rest| < 2 { return None, clock; }
    var len: nat := U16At(rest, 0);
    clock, started, completed := TimedWait(w, clock, start, lifetime, idle);
    if !completed || |rest| < 2 + len { return None, clock; }
    return Some(rest[2..2 + len]), clock;
  }

  lemma NextMessage(rest: seq<byte>, m: seq<byte>)
    requires |rest| >= 2 + |m| && |m| == U16At(rest, 0) && m == rest[2..2 + |m|]
    ensures Deframe(rest).messages == [m] + Deframe(rest[2 + |m|..]).messages
  {
  }

  lemma ReplyFramable(request: seq<byte>, answer: seq<byte>)
    requires HasHeader(request)
    ensures TcpReply(request, answer).Some? && |TcpReply(request, answer).value| <= MAX_FRAME
  {
    hide TruncateForClient, Conforms;
    if |answer| > MAX_FRAME { TruncatedShape(request, answer); }
  }

  /** An interrupted write leaves a proper prefix of the frame on the wire. */
  method PartialWrite(m: seq<byte>, k: nat) returns (p: seq<byte>)
    requires |m| <= MAX_FRAME
    ensures Unfinished(p)
  {
    var f := Frame(m);
    var cut := Min(k, |f| - 1);
    PrefixUnfinished(m, cut);
    return f[..cut];
  }

  // ---- a connection to the proxy ----

  /** What one query of a connection meets: the rules, the run behind the cache, the upstream picked, id and clock. */
  datatype Circumstance = Circumstance(
    rules: Rules, events: seq<Event>, upstream: Option<Upstream>, txid: u16, now: nat)

  /** What the pipeline hands to the connection. */
  ghost function PipelineReply(config: ProxyConfig, c: Circumstance, m: seq<byte>): (r: Option<seq<byte>>) {
    match AnswerFor(config, c.rules, Run(config, c.events), m, c.upstream, true, c.txid, c.now)
    case None => None
    case Some(a) => Some(NormalizeClientEdns(m, a.resp))
  }

  lemma NoHeaderNoReply(config: ProxyConfig, c: Circumstance, m: seq<byte>)
    requires !HasHeader(m)
    ensures PipelineReply(config, c, m).None?
  {
    hide Run, Decide;
    assert ParseQuery(m).Err?;
  }

  /** The pipeline replies exactly to messages with a header, conformingly, and with their own question. */
  lemma PipelineConforms(config: ProxyConfig, c: Circumstance, m: seq<byte>)
    ensures PipelineReply(config, c, m).Some? <==> HasHeader(m)
    ensures HasHeader(m) ==>
      var sent := TcpReply(m, PipelineReply(config, c, m).value);
      sent.Some? && Conforms(m, sent.value) && CarriesQuestion(m, sent.value)
  {
    hide AnswerFor, Run, TcpReply, Conforms, CarriesQuestion, NormalizeClientEdns;
    if HasHeader(m) {
      TcpConformance(config, c.rules, c.events, m, c.upstream, c.txid, c.now);
    } else {
      NoHeaderNoReply(config, c, m);
    }
  }

  /**
   A connection to the proxy, whatever each of its queries meets: every message the peer de-frames is the reply to its
   own request, in order, conforming to it and carrying its question; and if client and pipeline are prompt, every
   message up to the first one without a header gets its reply.
   */
  method ServeProxyConnection(
    ghost config: ProxyConfig, ghost at: nat -> Circumstance,
    input: seq<byte>, handle: (nat, seq<byte>) -> Option<seq<byte>>, w: World, start: nat, lifetime: nat, idle: nat)
    returns (out: seq<byte>, clock: Clock, killed: bool)
    requires forall i, m :: handle(i, m) == PipelineReply(config, at(i), m)
    ensures var messages, replies := Deframe(input).messages, Deframe(out).messages;
      && |replies| <= |messages|
      && (forall i :: 0 <= i < |replies| ==>
            Conforms(messages[i], replies[i]) && CarriesQuestion(messages[i], replies[i]))
      && (Prompt(w, Clock(start, 0, 0), 4 * |messages|, start, lifetime, idle) ==>
            |replies| == |messages| || !HasHeader(messages[|replies|]))
    ensures OnBudget(clock, start, lifetime) && (killed <==> clock.now >= start + lifetime)
  {
    hide Deframe, TcpReply, Conforms, CarriesQuestion, PipelineReply, Prompt, OnBudget;
    forall i: nat, m: seq<byte>
      ensures handle(i, m).Some? <==> HasHeader(m)
      ensures HasHeader(m) ==>
        var sent := TcpReply(m, handle(i, m).value);
        sent.Some? && Conforms(m, sent.value) && CarriesQuestion(m, sent.value)
    {
      PipelineConforms(config, at(i), m);
    }
    ghost var replies;
    out, replies, clock, killed := ServeConnection(input, handle, w, start, lifetime, idle);
  }
}

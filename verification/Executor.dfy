/** The scan executor: a fixed pool of bounded queues, a reply channel per call, and the breaker, step by step. */
module Executor {
  import opened Bytes
  import opened Breaker

  const POOL_SIZE := 4
  const PER_WORKER_CAP := 4

  datatype DaemonVerdict = DaemonVerdict(score: nat, shouldBlock: bool)

  /** Where a call of `run_scan` is. */
  datatype Phase = Dispatching(start: nat, tried: nat) | Waiting | Returned(result: Option<DaemonVerdict>)

  /** Calls are numbered; call `c` owns job `c` and reply channel `c`. */
  datatype Pool = Pool(
    queues: seq<seq<nat>>, running: seq<Option<nat>>, alive: seq<bool>, next: nat,
    phases: seq<Phase>, replies: map<nat, Option<DaemonVerdict>>, done: set<nat>, lost: set<nat>,
    breaker: BreakerState, reports: seq<Report>)

  datatype Move =
    | Begin(now: nat)          // a call starts: the breaker is looked at, the round-robin index bumped
    | TrySend(c: nat, now: nat)  // one try_send of the dispatch loop
    | Take(w: nat)             // a worker receives its next job
    | Finish(w: nat)           // the job of a worker returns, and its verdict is offered to the caller
    | Panic(w: nat)            // a worker dies and its queue with it
    | Receive(c: nat)          // the caller finds a verdict in time
    | GiveUp(c: nat, now: nat) // the budget of the caller is spent

  predicate Live(s: Pool, w: nat) { w < |s.queues| == |s.running| == |s.alive| && s.alive[w] }

  predicate Enabled(s: Pool, m: Move) {
    match m
    case Begin(_) => true
    case TrySend(c, _) => c < |s.phases| && s.phases[c].Dispatching?
    case Take(w) => Live(s, w) && s.running[w].None? && s.queues[w] != []
    case Finish(w) => Live(s, w) && s.running[w].Some?
    case Panic(w) => Live(s, w)
    case Receive(c) => c < |s.phases| && s.phases[c].Waiting? && c in s.replies
    case GiveUp(c, _) => c < |s.phases| && s.phases[c].Waiting?
  }

  predicate Room(s: Pool, w: nat) { Live(s, w) && |s.queues[w]| < PER_WORKER_CAP }

  /** The worker tried at the `k`-th attempt. */
  function Slot(start: nat, k: nat): (w: nat)
    ensures w < POOL_SIZE
  {
    (start + k) % POOL_SIZE
  }

  function Note(s: Pool, r: Report): (t: Pool) {
    s.(breaker := Reported(s.breaker, r), reports := s.reports + [r])
  }

  /** The call returns, and its reply channel is gone with it. */
  function Reply(s: Pool, c: nat, result: Option<DaemonVerdict>): (t: Pool)
    requires c < |s.phases|
  {
    s.(phases := s.phases[c := Returned(result)], replies := s.replies - {c})
  }

  function Begun(s: Pool, now: nat): (t: Pool) {
    if IsOpen(s.breaker, now) then s.(phases := s.phases + [Returned(None)])
    else s.(phases := s.phases + [Dispatching(s.next, 0)], next := (s.next + 1) % U64)
  }

  function Sent(s: Pool, c: nat, now: nat): (t: Pool)
    requires c < |s.phases| && s.phases[c].Dispatching?
  {
    var w := Slot(s.phases[c].start, s.phases[c].tried);
    if Room(s, w) then s.(queues := s.queues[w := s.queues[w] + [c]], phases := s.phases[c := Waiting])
    else if s.phases[c].tried + 1 < POOL_SIZE then
      s.(phases := s.phases[c := Dispatching(s.phases[c].start, s.phases[c].tried + 1)])
    else Reply(Note(s, Overrun(now)), c, None)
  }

  /** The verdict is put in the caller's channel if the caller still listens; otherwise it is dropped. */
  function Finished(s: Pool, w: nat, answer: nat -> Option<DaemonVerdict>): (t: Pool)
    requires Live(s, w) && s.running[w].Some?
  {
    var c := s.running[w].value;
    var heard := c < |s.phases| && s.phases[c].Waiting?;
    s.(running := s.running[w := None], done := s.done + {c},
       replies := if heard then s.replies[c := answer(c)] else s.replies)
  }

  function JobsOf(s: Pool, w: nat): (r: set<nat>)
    requires Live(s, w)
  {
    (set c | c in s.queues[w]) + (if s.running[w].Some? then {s.running[w].value} else {})
  }

  function Died(s: Pool, w: nat): (t: Pool)
    requires Live(s, w)
  {
    s.(queues := s.queues[w := []], running := s.running[w := None], alive := s.alive[w := false],
       lost := s.lost + JobsOf(s, w))
  }

  function After(s: Pool, m: Move, answer: nat -> Option<DaemonVerdict>): (t: Pool)
    requires Enabled(s, m)
  {
    match m
    case Begin(now) => Begun(s, now)
    case TrySend(c, now) => Sent(s, c, now)
    case Take(w) => s.(queues := s.queues[w := s.queues[w][1..]], running := s.running[w := Some(s.queues[w][0])])
    case Finish(w) => Finished(s, w, answer)
    case Panic(w) => Died(s, w)
    case Receive(c) => Note(Reply(s, c, s.replies[c]), InTime)
    case GiveUp(c, now) => Reply(Note(s, Overrun(now)), c, None)
  }

  // ---- how many jobs there are, and where ----

  function Queued(queues: seq<seq<nat>>): (n: nat) {
    if queues == [] then 0 else |queues[0]| + Queued(queues[1..])
  }

  function Busy(running: seq<Option<nat>>): (n: nat) {
    if running == [] then 0 else (if running[0].Some? then 1 else 0) + Busy(running[1..])
  }

  function InQueues(queues: seq<seq<nat>>, c: nat): (n: nat) {
    if queues == [] then 0 else multiset(queues[0])[c] + InQueues(queues[1..], c)
  }

  function Running(running: seq<Option<nat>>, c: nat): (n: nat) {
    if running == [] then 0 else (if running[0] == Some(c) then 1 else 0) + Running(running[1..], c)
  }

  function In(c: nat, s: set<nat>): nat { if c in s then 1 else 0 }

  /** In how many places job `c` is. */
  function Places(s: Pool, c: nat): (n: nat) {
    InQueues(s.queues, c) + Running(s.running, c) + In(c, s.done) + In(c, s.lost)
  }

  lemma {:induction false} InQueuesUpdate(queues: seq<seq<nat>>, w: nat, q: seq<nat>, c: nat)
    requires w < |queues|
    ensures InQueues(queues[w := q], c) == InQueues(queues, c) - multiset(queues[w])[c] + multiset(q)[c]
    ensures InQueues(queues, c) >= multiset(queues[w])[c]
    decreases w
  {
    if w > 0 {
      InQueuesUpdate(queues[1..], w - 1, q, c);
      assert queues[w := q][1..] == queues[1..][w - 1 := q];
    } else {
      assert queues[0 := q][1..] == queues[1..];
    }
  }

  lemma {:induction false} RunningUpdate(running: seq<Option<nat>>, w: nat, r: Option<nat>, c: nat)
    requires w < |running|
    ensures Running(running[w := r], c)
         == Running(running, c) - (if running[w] == Some(c) then 1 else 0) + if r == Some(c) then 1 else 0
    ensures Running(running, c) >= if running[w] == Some(c) then 1 else 0
    decreases w
  {
    if w > 0 {
      RunningUpdate(running[1..], w - 1, r, c);
      assert running[w := r][1..] == running[1..][w - 1 := r];
    } else {
      assert running[0 := r][1..] == running[1..];
    }
  }

  /** The two counts are those of the jobs in the queues and of the busy workers. */
  lemma {:induction false} CountsAreExact(a: seq<seq<nat>>, q: seq<nat>, b: seq<seq<nat>>)
    ensures Queued(a + [q] + b) == |q| + Queued(a + b) && Queued([]) == 0
    decreases |a|
  {
    if a == [] {
      assert [] + [q] + b == [q] + b && ([q] + b)[1..] == b && [] + b == b;
    } else {
      CountsAreExact(a[1..], q, b);
      assert (a + [q] + b)[1..] == a[1..] + [q] + b && (a + b)[1..] == a[1..] + b;
    }
  }

  lemma {:induction false} BusyIsExact(a: seq<Option<nat>>, r: Option<nat>, b: seq<Option<nat>>)
    ensures Busy(a + [r] + b) == (if r == None then 0 else 1) + Busy(a + b) && Busy([]) == 0
    decreases |a|
  {
    if a == [] {
      assert [] + [r] + b == [r] + b && ([r] + b)[1..] == b && [] + b == b;
    } else {
      BusyIsExact(a[1..], r, b);
      assert (a + [r] + b)[1..] == a[1..] + [r] + b && (a + b)[1..] == a[1..] + b;
    }
  }

  lemma {:induction false} AtMostFull(queues: seq<seq<nat>>, running: seq<Option<nat>>, cap: nat)
    requires |queues| == |running| && forall q :: q in queues ==> |q| <= cap
    ensures Queued(queues) + Busy(running) <= |queues| * (cap + 1)
    decreases |queues|
  {
    if queues != [] {
      AtMostFull(queues[1..], running[1..], cap);
      assert |queues| * (cap + 1) == |queues[1..]| * (cap + 1) + (cap + 1);
    }
  }

  // ---- the invariant ----

  ghost predicate Shape(s: Pool) {
    && |s.queues| == |s.running| == |s.alive| == POOL_SIZE
    && (forall w :: 0 <= w < POOL_SIZE ==> |s.queues[w]| <= PER_WORKER_CAP)
    && (forall w :: 0 <= w < POOL_SIZE && !s.alive[w] ==> s.queues[w] == [] && s.running[w].None?)
  }

  /** A job is in at most one place; a waiting call's job is in exactly one, and one still being sent is in none. */
  ghost predicate Once(s: Pool, c: nat) {
    && Places(s, c) <= 1
    && (c >= |s.phases| || s.phases[c].Dispatching? ==> Places(s, c) == 0)
    && (c < |s.phases| && s.phases[c].Waiting? ==> Places(s, c) == 1)
  }

  /** Verdicts only ever come from the call's own, finished job. */
  ghost predicate Own(s: Pool, c: nat, answer: nat -> Option<DaemonVerdict>) {
    && (c in s.replies ==> c in s.done && s.replies[c] == answer(c))
    && (c < |s.phases| && s.phases[c].Returned? && s.phases[c].result.Some? ==>
          c in s.done && s.phases[c].result == answer(c))
  }

  /** There is a verdict in a call's channel exactly while it waits and its job has returned. */
  ghost predicate Heard(s: Pool, c: nat) {
    c in s.replies <==> c < |s.phases| && s.phases[c].Waiting? && c in s.done
  }

  ghost predicate Sound(s: Pool, answer: nat -> Option<DaemonVerdict>) {
    && Shape(s)
    && (forall c :: Once(s, c))
    && (forall c :: Own(s, c, answer))
    && (forall c :: Heard(s, c))
    && s.breaker == Replay(s.reports)
  }

  // ---- every move keeps it ----

  lemma PlacesAfter(s: Pool, w: nat, q: seq<nat>, r: Option<nat>, c: nat)
    requires w < |s.queues| == |s.running|
    ensures var t := s.(queues := s.queues[w := q], running := s.running[w := r]);
      Places(t, c) == Places(s, c) - multiset(s.queues[w])[c] + multiset(q)[c]
                    - (if s.running[w] == Some(c) then 1 else 0) + (if r == Some(c) then 1 else 0)
    ensures Places(s, c) >= multiset(s.queues[w])[c] + (if s.running[w] == Some(c) then 1 else 0)
                          + In(c, s.done) + In(c, s.lost)
  {
    InQueuesUpdate(s.queues, w, q, c);
    RunningUpdate(s.running, w, r, c);
  }

  lemma BeginKeeps(s: Pool, now: nat, answer: nat -> Option<DaemonVerdict>)
    requires Sound(s, answer)
    ensures Sound(Begun(s, now), answer)
  {
    hide Replay, IsOpen, InQueues, Running;
    var t := Begun(s, now);
    forall c ensures Once(t, c) && Own(t, c, answer) && Heard(t, c) {
      assert Once(s, c) && Own(s, c, answer) && Heard(s, c);
    }
  }

  lemma ReplayStep(reports: seq<Report>, r: Report)
    ensures Replay(reports + [r]) == Reported(Replay(reports), r)
  {
    assert (reports + [r])[..|reports|] == reports;
  }

  /** A call that returns nothing, having been dispatching or waiting, breaks nothing. */
  lemma NothingReturnedKeeps(s: Pool, c: nat, now: nat, answer: nat -> Option<DaemonVerdict>)
    requires Sound(s, answer) && c < |s.phases|
    ensures Sound(Reply(Note(s, Overrun(now)), c, None), answer)
  {
    hide Replay, Reported, InQueues, Running;
    var t := Reply(Note(s, Overrun(now)), c, None);
    ReplayStep(s.reports, Overrun(now));
    forall d ensures Once(t, d) && Own(t, d, answer) && Heard(t, d) {
      assert Once(s, d) && Own(s, d, answer) && Heard(s, d);
    }
  }

  lemma SentKeeps(s: Pool, c: nat, now: nat, answer: nat -> Option<DaemonVerdict>)
    requires Sound(s, answer) && c < |s.phases| && s.phases[c].Dispatching?
    ensures Sound(Sent(s, c, now), answer)
  {
    hide Replay, Reported, InQueues, Running, Places;
    var t, w := Sent(s, c, now), Slot(s.phases[c].start, s.phases[c].tried);
    if Room(s, w) {
      assert Once(s, c);
      NowhereIsNotDone(s, c);
      forall d ensures Once(t, d) && Own(t, d, answer) && Heard(t, d) {
        assert Once(s, d) && Own(s, d, answer) && Heard(s, d);
        SentPlaces(s, w, c, d);
      }
    } else if s.phases[c].tried + 1 < POOL_SIZE {
      forall d ensures Once(t, d) && Own(t, d, answer) && Heard(t, d) {
        assert Once(s, d) && Own(s, d, answer) && Heard(s, d);
        SamePlaces(s, t, d);
      }
    } else {
      NothingReturnedKeeps(s, c, now, answer);
    }
  }

  lemma NowhereIsNotDone(s: Pool, c: nat)
    requires Places(s, c) == 0
    ensures c !in s.done
  {
  }

  lemma SamePlaces(s: Pool, t: Pool, d: nat)
    requires s.queues == t.queues && s.running == t.running && s.done == t.done && s.lost == t.lost
    ensures Places(s, d) == Places(t, d)
  {
  }

  lemma SentPlaces(s: Pool, w: nat, c: nat, d: nat)
    requires Shape(s) && Room(s, w) && c < |s.phases|
    ensures var t := s.(queues := s.queues[w := s.queues[w] + [c]], phases := s.phases[c := Waiting]);
      Places(t, d) == Places(s, d) + if d == c then 1 else 0
  {
    var q := s.queues[w] + [c];
    PlacesAfter(s, w, q, s.running[w], d);
    assert s.running[w := s.running[w]] == s.running;
    assert multiset(q) == multiset(s.queues[w]) + multiset{c};
    hide InQueues, Running;
  }

  lemma TakeKeeps(s: Pool, w: nat, answer: nat -> Option<DaemonVerdict>)
    requires Sound(s, answer) && Enabled(s, Take(w))
    ensures Sound(After(s, Take(w), answer), answer)
  {
    hide Replay, InQueues, Running, Places;
    var t := After(s, Take(w), answer);
    var q := s.queues[w];
    assert q == [q[0]] + q[1..];
    forall d ensures Once(t, d) && Own(t, d, answer) && Heard(t, d) {
      assert Once(s, d) && Own(s, d, answer) && Heard(s, d);
      PlacesAfter(s, w, q[1..], Some(q[0]), d);
      SamePlaces(t, s.(queues := s.queues[w := q[1..]], running := s.running[w := Some(q[0])]), d);
      assert multiset(q)[d] == multiset(q[1..])[d] + if q[0] == d then 1 else 0;
    }
  }

  lemma FinishPlaces(s: Pool, w: nat, answer: nat -> Option<DaemonVerdict>, d: nat)
    requires Shape(s) && Enabled(s, Finish(w)) && Once(s, d)
    ensures Places(Finished(s, w, answer), d) == Places(s, d)
  {
    hide InQueues, Running;
    PlacesAfter(s, w, s.queues[w], None, d);
    assert s.queues[w := s.queues[w]] == s.queues;
  }

  lemma FinishKeeps(s: Pool, w: nat, answer: nat -> Option<DaemonVerdict>)
    requires Sound(s, answer) && Enabled(s, Finish(w))
    ensures Sound(After(s, Finish(w), answer), answer)
  {
    hide Replay, InQueues, Running, Places;
    var t := Finished(s, w, answer);
    forall d ensures Once(t, d) && Own(t, d, answer) && Heard(t, d) {
      assert Once(s, d) && Own(s, d, answer) && Heard(s, d);
      FinishPlaces(s, w, answer, d);
    }
  }

  lemma DiedPlaces(s: Pool, w: nat, d: nat)
    requires Shape(s) && Live(s, w) && Once(s, d)
    ensures Places(Died(s, w), d) == Places(s, d)
  {
    hide InQueues, Running;
    PlacesAfter(s, w, [], None, d);
    assert multiset(s.queues[w])[d] > 0 <==> d in s.queues[w];
  }

  lemma PanicKeeps(s: Pool, w: nat, answer: nat -> Option<DaemonVerdict>)
    requires Sound(s, answer) && Live(s, w)
    ensures Sound(Died(s, w), answer)
  {
    hide Replay, InQueues, Running, Places, JobsOf;
    var t := Died(s, w);
    forall d ensures Once(t, d) && Own(t, d, answer) && Heard(t, d) {
      assert Once(s, d) && Own(s, d, answer) && Heard(s, d);
      DiedPlaces(s, w, d);
    }
  }

  lemma ReceiveKeeps(s: Pool, c: nat, answer: nat -> Option<DaemonVerdict>)
    requires Sound(s, answer) && Enabled(s, Receive(c))
    ensures Sound(After(s, Receive(c), answer), answer)
  {
    hide Replay, Reported, InQueues, Running;
    var t := After(s, Receive(c), answer);
    ReplayStep(s.reports, InTime);
    assert Own(s, c, answer);
    forall d ensures Once(t, d) && Own(t, d, answer) && Heard(t, d) {
      assert Once(s, d) && Own(s, d, answer) && Heard(s, d);
    }
  }

  lemma SoundStep(s: Pool, m: Move, answer: nat -> Option<DaemonVerdict>)
    requires Sound(s, answer) && Enabled(s, m)
    ensures Sound(After(s, m, answer), answer)
  {
    hide Sound, Begun, Sent, Finished, Died;
    match m
    case Begin(now) => BeginKeeps(s, now, answer);
    case TrySend(c, now) => SentKeeps(s, c, now, answer);
    case Take(w) => TakeKeeps(s, w, answer);
    case Finish(w) => FinishKeeps(s, w, answer);
    case Panic(w) => PanicKeeps(s, w, answer);
    case Receive(c) => ReceiveKeeps(s, c, answer);
    case GiveUp(c, now) => NothingReturnedKeeps(s, c, now, answer);
  }

  // ---- whole runs ----

  /** Any subset of the workers may have failed to spawn; the round-robin index may start anywhere. */
  function Fresh(spawned: seq<bool>, next: nat): (s: Pool) {
    Pool(seq(POOL_SIZE, _ => []), seq(POOL_SIZE, _ => None), spawned, next, [], map[], {}, {}, CLOSED, [])
  }

  ghost predicate IsRun(s: Pool, moves: seq<Move>, answer: nat -> Option<DaemonVerdict>)
    decreases |moves|
  {
    moves == [] || (Enabled(s, moves[0]) && IsRun(After(s, moves[0], answer), moves[1..], answer))
  }

  ghost function EndOf(s: Pool, moves: seq<Move>, answer: nat -> Option<DaemonVerdict>): (t: Pool)
    requires IsRun(s, moves, answer)
    decreases |moves|
  {
    if moves == [] then s else EndOf(After(s, moves[0], answer), moves[1..], answer)
  }

  lemma {:induction false} NothingPlaced(queues: seq<seq<nat>>, running: seq<Option<nat>>, c: nat)
    requires |queues| == |running|
    requires forall i :: 0 <= i < |queues| ==> queues[i] == [] && running[i] == None
    ensures InQueues(queues, c) == 0 && Running(running, c) == 0
    decreases |queues|
  {
    if queues != [] {
      NothingPlaced(queues[1..], running[1..], c);
    }
  }

  lemma FreshIsSound(spawned: seq<bool>, next: nat, answer: nat -> Option<DaemonVerdict>)
    requires |spawned| == POOL_SIZE
    ensures Sound(Fresh(spawned, next), answer)
  {
    hide InQueues, Running;
    var s := Fresh(spawned, next);
    forall c ensures Once(s, c) { NothingPlaced(s.queues, s.running, c); }
  }

  lemma {:induction false} RunKeepsSound(s: Pool, moves: seq<Move>, answer: nat -> Option<DaemonVerdict>)
    requires Sound(s, answer) && IsRun(s, moves, answer)
    ensures Sound(EndOf(s, moves, answer), answer)
    decreases |moves|
  {
    hide Sound, Enabled, After;
    if moves != [] {
      SoundStep(s, moves[0], answer);
      RunKeepsSound(After(s, moves[0], answer), moves[1..], answer);
    }
  }

  /**
   In every interleaving, with jobs that may never return and workers that may die: at most 20 jobs are queued
   or running; no job is ever in two places, so none runs twice, and a waiting call's job is in exactly one; a
   call's verdict is its own finished job's; a caller still waiting when its job has returned can receive exactly that
   verdict; and the breaker is open only after three overruns since the last reply in time.
   */
  lemma ExecutorSafety(
    spawned: seq<bool>, next: nat, moves: seq<Move>, answer: nat -> Option<DaemonVerdict>, c: nat, now: nat)
    requires |spawned| == POOL_SIZE && IsRun(Fresh(spawned, next), moves, answer)
    ensures var s := EndOf(Fresh(spawned, next), moves, answer);
      && Queued(s.queues) + Busy(s.running) <= POOL_SIZE * (PER_WORKER_CAP + 1)
      && Places(s, c) <= 1
      && (c < |s.phases| && s.phases[c].Waiting? ==> Places(s, c) == 1)
      && (c < |s.phases| && s.phases[c].Returned? ==>
            s.phases[c].result == None || (c in s.done && s.phases[c].result == answer(c)))
      && (c < |s.phases| && s.phases[c].Waiting? && c in s.done ==>
            Enabled(s, Receive(c)) && After(s, Receive(c), answer).phases[c] == Returned(answer(c)))
      && (IsOpen(s.breaker, now) ==> Overruns(s.reports) >= THRESHOLD)
  {
    hide IsRun, EndOf, Fresh, Queued, Busy, Replay, IsOpen, Overruns, Places;
    var s := EndOf(Fresh(spawned, next), moves, answer);
    FreshIsSound(spawned, next, answer);
    RunKeepsSound(Fresh(spawned, next), moves, answer);
    AtMostFull(s.queues, s.running, PER_WORKER_CAP);
    OpenNeedsThree(s.reports);
    assert Once(s, c) && Own(s, c, answer) && Heard(s, c);
  }

  // ---- one call at a time: the dispatch loop ----

  /** Round-robin from any start reaches every worker. */
  lemma EveryWorkerTried(start: nat, w: nat)
    requires w < POOL_SIZE
    ensures exists k: nat :: k < POOL_SIZE && Slot(start, k) == w
  {
    var k := (w + POOL_SIZE - start % POOL_SIZE) % POOL_SIZE;
    assert Slot(start, k) == w;
  }

  /** The whole dispatch loop of a call that is not interrupted. */
  function DispatchAlone(s: Pool, c: nat, now: nat): (t: Pool)
    requires c < |s.phases| && (s.phases[c].Dispatching? ==> s.phases[c].tried < POOL_SIZE)
    decreases if s.phases[c].Dispatching? then POOL_SIZE - s.phases[c].tried else -1
  {
    if s.phases[c].Dispatching? then DispatchAlone(Sent(s, c, now), c, now) else s
  }

  /** Left alone, a call is shed exactly when no worker has room; otherwise its job goes to the first that has. */
  lemma {:induction false} DispatchAloneMeaning(s: Pool, c: nat, now: nat)
    requires c < |s.phases| && s.phases[c].Dispatching? && s.phases[c].tried < POOL_SIZE
    requires forall j :: 0 <= j < s.phases[c].tried ==> !Room(s, Slot(s.phases[c].start, j))
    ensures var t, start := DispatchAlone(s, c, now), s.phases[c].start;
      if exists w :: 0 <= w < POOL_SIZE && Room(s, w)
      then exists k: nat :: k < POOL_SIZE && Room(s, Slot(start, k))
             && (forall j :: 0 <= j < k ==> !Room(s, Slot(start, j)))
             && t == s.(queues := s.queues[Slot(start, k) := s.queues[Slot(start, k)] + [c]],
                        phases := s.phases[c := Waiting])
      else t == Note(s, Overrun(now)).(phases := s.phases[c := Returned(None)], replies := s.replies - {c})
    decreases POOL_SIZE - s.phases[c].tried
  {
    var start, k := s.phases[c].start, s.phases[c].tried;
    if Room(s, Slot(start, k)) {
      assert DispatchAlone(s, c, now) == Sent(s, c, now);
    } else if k + 1 < POOL_SIZE {
      var next := s.(phases := s.phases[c := Dispatching(start, k + 1)]);
      assert forall w :: Room(next, w) <==> Room(s, w);
      DispatchAloneMeaning(next, c, now);
      assert next.phases[c := Waiting] == s.phases[c := Waiting];
      assert next.phases[c := Returned(None)] == s.phases[c := Returned(None)];
    } else {
      forall w | 0 <= w < POOL_SIZE ensures !Room(s, w) { EveryWorkerTried(start, w); }
    }
  }

  class ScanPool {
    var queues: seq<seq<nat>>
    var alive: seq<bool>

    predicate HasRoom(w: nat)
      reads this
    {
      w < |queues| == |alive| && alive[w] && |queues[w]| < PER_WORKER_CAP
    }

    constructor (spawned: seq<bool>)
      requires |spawned| == POOL_SIZE
      ensures |queues| == |alive| == POOL_SIZE && alive == spawned
      ensures forall w :: 0 <= w < POOL_SIZE ==> queues[w] == []
    {
      queues := seq(POOL_SIZE, _ => []);
      alive := spawned;
    }

    /** The dispatch loop: sheds the call exactly when no worker has room, and otherwise loads the next one that has. */
    method Dispatch(job: nat, start: nat) returns (dispatched: bool)
      requires |queues| == |alive| == POOL_SIZE
      modifies this
      ensures alive == old(alive) && |queues| == POOL_SIZE
      ensures dispatched <==> exists w :: 0 <= w < POOL_SIZE && old(HasRoom(w))
      ensures !dispatched ==> queues == old(queues)
      ensures old(forall w :: 0 <= w < POOL_SIZE ==> |queues[w]| <= 4) ==>
        forall w :: 0 <= w < POOL_SIZE ==> |queues[w]| <= 4
      ensures !dispatched ==> forall w :: 0 <= w < POOL_SIZE ==> !alive[w] || |queues[w]| >= 4
      ensures dispatched ==> exists k ::
        && 0 <= k < POOL_SIZE
        && old(HasRoom(Slot(start, k)))
        && (forall j :: 0 <= j < k ==> !old(HasRoom(Slot(start, j))))
        && queues == old(queues)[Slot(start, k) := old(queues)[Slot(start, k)] + [job]]
    {
      var k := 0;
      while k < POOL_SIZE
        invariant 0 <= k <= POOL_SIZE && queues == old(queues) && alive == old(alive)
        invariant forall j :: 0 <= j < k ==> !HasRoom(Slot(start, j))
      {
        var w := Slot(start, k);
        if alive[w] && |queues[w]| < PER_WORKER_CAP {
          assert old(HasRoom(w));
          queues := queues[w := queues[w] + [job]];
          return true;
        }
        k := k + 1;
      }
      forall w | 0 <= w < POOL_SIZE ensures !HasRoom(w) {
        EveryWorkerTried(start, w);
      }
      assert forall w :: 0 <= w < POOL_SIZE && alive[w] ==> !HasRoom(w);
      return false;
    }
  }

  // ---- what each move changes, and a scan that goes well ----

  /** While the breaker is open a call returns at once and touches nothing; otherwise it takes the next start. */
  lemma BeginMeaning(s: Pool, now: nat)
    ensures var t := Begun(s, now);
      && t.phases[..|s.phases|] == s.phases && |t.phases| == |s.phases| + 1
      && t.(phases := s.phases, next := s.next) == s
      && (IsOpen(s.breaker, now) ==> t.phases[|s.phases|] == Returned(None) && t.next == s.next)
      && (!IsOpen(s.breaker, now) ==> t.phases[|s.phases|] == Dispatching(s.next, 0) && t.next == (s.next + 1) % U64)
  {
  }

  /** Exactly what is reported to the breaker: replies received in time, and overruns for giving up and shedding. */
  lemma ReportsMeaning(s: Pool, m: Move, answer: nat -> Option<DaemonVerdict>)
    requires Enabled(s, m)
    ensures var t := After(s, m, answer);
      t.reports == s.reports + match m
        case Receive(_) => [InTime]
        case GiveUp(_, now) => [Overrun(now)]
        case TrySend(c, now) => if t.phases[c].Returned? then [Overrun(now)] else []
        case _ => []
  {
    hide Reported;
  }

  /** What a call has returned is final, and a call only ever moves on: dispatching, waiting, returned. */
  lemma CallsMoveOn(s: Pool, m: Move, answer: nat -> Option<DaemonVerdict>, c: nat)
    requires Enabled(s, m) && c < |s.phases|
    ensures var before, t := s.phases[c], After(s, m, answer);
      && c < |t.phases|
      && (before.Returned? ==> t.phases[c] == before)
      && (before.Waiting? ==> !t.phases[c].Dispatching?)
      && (before.Waiting? && t.phases[c].Returned? <==> before.Waiting? && (m == Receive(c) || (m.GiveUp? && m.c == c)))
  {
    hide Reported, IsOpen;
  }

  /** Jobs leave a queue in the order they came, only to run, unless their worker dies. */
  lemma QueueMeaning(s: Pool, m: Move, answer: nat -> Option<DaemonVerdict>, w: nat)
    requires Enabled(s, m) && Live(s, w)
    ensures var t := After(s, m, answer);
      && |t.queues| == |s.queues|
      && (m == Take(w) ==> s.queues[w] == [t.running[w].value] + t.queues[w])
      && (m == Panic(w) ==> t.queues[w] == [] && !t.alive[w])
      && (m != Take(w) && m != Panic(w) ==> s.queues[w] <= t.queues[w] && |t.queues[w]| <= |s.queues[w]| + 1)
  {
    hide Reported, IsOpen;
  }

  /** A scan that goes well: with an idle live worker next in turn, the call returns its own job's verdict. */
  lemma ScanReturns(s: Pool, w: nat, now: nat, answer: nat -> Option<DaemonVerdict>) returns (t: Pool)
    requires Sound(s, answer) && w == Slot(s.next, 0) && !IsOpen(s.breaker, now)
    requires s.alive[w] && s.queues[w] == [] && s.running[w].None?
    ensures var c := |s.phases|;
      var moves := [Begin(now), TrySend(c, now), Take(w), Finish(w), Receive(c)];
      IsRun(s, moves, answer) && EndOf(s, moves, answer) == t
      && c < |t.phases| && t.phases[c] == Returned(answer(c)) && t.breaker == CLOSED
  {
    hide Replay, IsOpen, Places, InQueues, Running;
    var c := |s.phases|;
    var s1 := After(s, Begin(now), answer);
    assert s1.phases[c] == Dispatching(s.next, 0);
    var s2 := After(s1, TrySend(c, now), answer);
    assert s2.queues[w] == [c] && s2.phases[c].Waiting?;
    var s3 := After(s2, Take(w), answer);
    assert s3.running[w] == Some(c);
    var s4 := After(s3, Finish(w), answer);
    assert s4.replies[c] == answer(c);
    t := After(s4, Receive(c), answer);
    RunOfFive(s, Begin(now), TrySend(c, now), Take(w), Finish(w), Receive(c), answer);
  }

  lemma RunOfFive(s: Pool, a: Move, b: Move, c: Move, d: Move, e: Move, answer: nat -> Option<DaemonVerdict>)
    requires Enabled(s, a) && Enabled(After(s, a, answer), b)
    requires Enabled(After(After(s, a, answer), b, answer), c)
    requires Enabled(After(After(After(s, a, answer), b, answer), c, answer), d)
    requires Enabled(After(After(After(After(s, a, answer), b, answer), c, answer), d, answer), e)
    ensures IsRun(s, [a, b, c, d, e], answer)
    ensures EndOf(s, [a, b, c, d, e], answer)
         == After(After(After(After(After(s, a, answer), b, answer), c, answer), d, answer), e, answer)
  {
    hide Enabled, After, IsRun, EndOf;
    var s1 := After(s, a, answer);
    var s2 := After(s1, b, answer);
    var s3 := After(s2, c, answer);
    var s4 := After(s3, d, answer);
    assert [e] + [] == [e] && [d] + [e] == [d, e] && [c] + [d, e] == [c, d, e];
    assert [b] + [c, d, e] == [b, c, d, e] && [a] + [b, c, d, e] == [a, b, c, d, e];
    RunNothing(After(s4, e, answer), answer);
    RunCons(s4, e, [], answer);
    RunCons(s3, d, [e], answer);
    RunCons(s2, c, [d, e], answer);
    RunCons(s1, b, [c, d, e], answer);
    RunCons(s, a, [b, c, d, e], answer);
  }

  lemma RunNothing(s: Pool, answer: nat -> Option<DaemonVerdict>)
    ensures IsRun(s, [], answer) && EndOf(s, [], answer) == s
  {
  }

  lemma RunCons(s: Pool, m: Move, rest: seq<Move>, answer: nat -> Option<DaemonVerdict>)
    requires Enabled(s, m) && IsRun(After(s, m, answer), rest, answer)
    ensures IsRun(s, [m] + rest, answer)
    ensures EndOf(s, [m] + rest, answer) == EndOf(After(s, m, answer), rest, answer)
  {
    assert ([m] + rest)[1..] == rest;
    hide Enabled, After;
  }
}

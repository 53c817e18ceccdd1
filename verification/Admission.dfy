/** Admission of TCP connections: a bounded number may wait, first come first served, for a bounded pool. */
module Admission {
  datatype Limits = Limits(maxQueued: nat, maxConnections: nat)

  /**
   Connections are numbered in arrival order. An accepted one holds a queue slot in a task of its own; it asks for a
   pool permit when that task first runs, which hands it the next ticket: `entered[t]` is the connection with ticket
   `t`. From then on it is known by its ticket, and is in at most one of the later places.
   */
  datatype Admission = Admission(
    next: nat, queueFree: nat, poolFree: nat, spawned: set<nat>, entered: seq<nat>,
    waiting: seq<nat>, granted: set<nat>, timedOut: set<nat>, serving: set<nat>, overflow: set<nat>, dropped: set<nat>,
    finished: set<nat>)

  datatype Move =
    | Accept                  // a connection arrives: it takes a queue slot and a task, or is dropped
    | Enqueue(who: nat)       // the task of an accepted connection first runs, and joins the FIFO queue of the pool
    | Grant                   // the pool gives a permit to the head of that queue
    | Expire(who: nat)        // the queue timeout of a waiting ticket elapses
    | ReleaseGranted(who: nat)
    | ReleaseTimedOut(who: nat)
    | FinishServing(who: nat)
    | FinishOverflow(who: nat)

  predicate Enabled(s: Admission, move: Move) {
    match move
    case Accept => true
    case Enqueue(c) => c in s.spawned
    case Grant => s.waiting != [] && s.poolFree > 0
    case Expire(t) => t in s.waiting
    case ReleaseGranted(t) => t in s.granted
    case ReleaseTimedOut(t) => t in s.timedOut
    case FinishServing(t) => t in s.serving
    case FinishOverflow(t) => t in s.overflow
  }

  function Remove(q: seq<nat>, c: nat): (r: seq<nat>) {
    if q == [] then [] else if q[0] == c then q[1..] else [q[0]] + Remove(q[1..], c)
  }

  function After(s: Admission, move: Move): (r: Admission)
    requires Enabled(s, move)
  {
    match move
    case Accept =>
      if s.queueFree == 0 then s.(next := s.next + 1, dropped := s.dropped + {s.next})
      else s.(next := s.next + 1, queueFree := s.queueFree - 1, spawned := s.spawned + {s.next})
    case Enqueue(c) =>
      s.(spawned := s.spawned - {c}, entered := s.entered + [c], waiting := s.waiting + [|s.entered|])
    case Grant =>
      s.(poolFree := s.poolFree - 1, granted := s.granted + {s.waiting[0]}, waiting := s.waiting[1..])
    case Expire(t) => s.(waiting := Remove(s.waiting, t), timedOut := s.timedOut + {t})
    case ReleaseGranted(t) => s.(granted := s.granted - {t}, serving := s.serving + {t}, queueFree := s.queueFree + 1)
    case ReleaseTimedOut(t) =>
      s.(timedOut := s.timedOut - {t}, overflow := s.overflow + {t}, queueFree := s.queueFree + 1)
    case FinishServing(t) =>
      s.(serving := s.serving - {t}, poolFree := s.poolFree + 1, finished := s.finished + {t})
    case FinishOverflow(t) => s.(overflow := s.overflow - {t}, finished := s.finished + {t})
  }

  function Empty(l: Limits): Admission {
    Admission(0, l.maxQueued, l.maxConnections, {}, [], [], {}, {}, {}, {}, {}, {})
  }

  /** Permits are conserved, places are disjoint, and the queue is in ticket order behind everyone granted. */
  ghost predicate Admitted(s: Admission, l: Limits) {
    && s.queueFree + |s.spawned| + |s.waiting| + |s.granted| + |s.timedOut| == l.maxQueued
    && s.poolFree + |s.granted| + |s.serving| == l.maxConnections
    && s.granted !! s.serving && s.timedOut !! s.overflow
    && (forall t :: t in s.waiting ==> t < |s.entered| && t !in s.timedOut && t !in s.overflow)
    && (forall t :: t in s.granted || t in s.serving || t in s.timedOut || t in s.overflow ==> t < |s.entered|)
    && Increasing(s.waiting)
    && (forall g, t :: (g in s.granted || g in s.serving) && t in s.waiting ==> g < t)
  }

  /** Every arrival is accounted for once: dropped, not yet run, or holding one ticket. */
  ghost predicate Ticketed(s: Admission) {
    && s.spawned !! s.dropped
    && (forall c: nat :: c in s.spawned || c in s.dropped || c in s.entered <==> c < s.next)
    && (forall c :: c in s.entered ==> c !in s.spawned && c !in s.dropped)
    && (forall i, j :: 0 <= i < j < |s.entered| ==> s.entered[i] != s.entered[j])
  }

  function In(t: nat, s: set<nat>): nat { if t in s then 1 else 0 }

  /** In how many places a ticket is. */
  function Places(s: Admission, t: nat): (n: nat) {
    (if t in s.waiting then 1 else 0) + In(t, s.granted) + In(t, s.timedOut) + In(t, s.serving) + In(t, s.overflow)
    + In(t, s.finished)
  }

  /** Every ticket handed out is in exactly one place: no connection is lost, and none is answered twice. */
  ghost predicate Placed(s: Admission) {
    forall t: nat :: Places(s, t) == if t < |s.entered| then 1 else 0
  }

  predicate Increasing(q: seq<nat>) { forall i, j :: 0 <= i < j < |q| ==> q[i] < q[j] }

  lemma HeadIsLeast(q: seq<nat>)
    requires q != [] && Increasing(q)
    ensures Increasing(q[1..]) && forall c :: c in q[1..] ==> q[0] < c && c in q
    ensures forall c :: c in q ==> c == q[0] || c in q[1..]
  {
    assert forall i :: 0 <= i < |q| - 1 ==> q[1..][i] == q[i + 1];
    assert q == [q[0]] + q[1..];
  }

  lemma {:induction false} RemoveOne(q: seq<nat>, c: nat)
    requires Increasing(q) && c in q
    ensures |Remove(q, c)| == |q| - 1 && Increasing(Remove(q, c))
    ensures forall x :: x in Remove(q, c) <==> x in q && x != c
    decreases |q|
  {
    HeadIsLeast(q);
    if q[0] != c {
      RemoveOne(q[1..], c);
      var r := Remove(q[1..], c);
      assert Remove(q, c) == [q[0]] + r;
      forall i, j | 0 <= i < j < |r| + 1 ensures ([q[0]] + r)[i] < ([q[0]] + r)[j] {
        assert r[j - 1] in r;
      }
    }
  }

  lemma AppendLast(q: seq<nat>, x: nat)
    requires Increasing(q) && forall c :: c in q ==> c < x
    ensures Increasing(q + [x])
  {
    assert forall i :: 0 <= i < |q| ==> q[i] in q;
  }

  lemma AcceptKeeps(s: Admission, l: Limits)
    requires Admitted(s, l) && s.next !in s.spawned
    ensures Admitted(After(s, Accept), l)
  {
    hide Increasing;
    if s.queueFree > 0 {
      assert |s.spawned + {s.next}| == |s.spawned| + 1;
    }
  }

  lemma NextIsNew(s: Admission)
    requires Ticketed(s)
    ensures s.next !in s.spawned && s.next !in s.dropped
  {
  }

  lemma EnqueueKeeps(s: Admission, l: Limits, c: nat)
    requires Admitted(s, l) && c in s.spawned
    ensures Admitted(After(s, Enqueue(c)), l)
  {
    AppendLast(s.waiting, |s.entered|);
    assert |s.spawned - {c}| == |s.spawned| - 1;
    hide Increasing;
  }

  lemma GrantKeeps(s: Admission, l: Limits)
    requires Admitted(s, l) && Enabled(s, Grant)
    ensures Admitted(After(s, Grant), l)
  {
    HeadIsLeast(s.waiting);
    var head := s.waiting[0];
    assert head in s.waiting && head !in s.granted && head !in s.serving;
    assert |s.granted + {head}| == |s.granted| + 1;
    hide Increasing;
  }

  lemma ExpireKeeps(s: Admission, l: Limits, t: nat)
    requires Admitted(s, l) && t in s.waiting
    ensures Admitted(After(s, Expire(t)), l)
  {
    RemoveOne(s.waiting, t);
    assert t !in s.timedOut;
    assert |s.timedOut + {t}| == |s.timedOut| + 1;
    ExpireFits(s, l, t, Remove(s.waiting, t));
  }

  lemma ExpireFits(s: Admission, l: Limits, t: nat, rest: seq<nat>)
    requires Admitted(s, l) && t in s.waiting && |s.timedOut + {t}| == |s.timedOut| + 1
    requires |rest| == |s.waiting| - 1 && Increasing(rest) && forall x :: x in rest <==> x in s.waiting && x != t
    ensures Admitted(s.(waiting := rest, timedOut := s.timedOut + {t}), l)
  {
    hide Increasing;
  }

  lemma ReleaseGrantedKeeps(s: Admission, l: Limits, t: nat)
    requires Admitted(s, l) && t in s.granted
    ensures Admitted(After(s, ReleaseGranted(t)), l)
  {
    hide Increasing;
    assert |s.granted - {t}| == |s.granted| - 1 && |s.serving + {t}| == |s.serving| + 1;
  }

  lemma ReleaseTimedOutKeeps(s: Admission, l: Limits, t: nat)
    requires Admitted(s, l) && t in s.timedOut
    ensures Admitted(After(s, ReleaseTimedOut(t)), l)
  {
    hide Increasing;
    assert |s.timedOut - {t}| == |s.timedOut| - 1;
  }

  lemma FinishKeeps(s: Admission, l: Limits, t: nat)
    requires Admitted(s, l)
    ensures t in s.serving ==> Admitted(After(s, FinishServing(t)), l)
    ensures t in s.overflow ==> Admitted(After(s, FinishOverflow(t)), l)
  {
    hide Increasing;
    assert t in s.serving ==> |s.serving - {t}| == |s.serving| - 1;
  }

  lemma TicketsKept(s: Admission, move: Move)
    requires Ticketed(s) && Enabled(s, move)
    ensures Ticketed(After(s, move))
  {
    hide Remove;
  }

  lemma PlacedStep(s: Admission, l: Limits, move: Move)
    requires Admitted(s, l) && Placed(s) && Enabled(s, move)
    ensures Placed(After(s, move))
  {
    if move.Expire? { RemoveOne(s.waiting, move.who); }
    if move.Grant? { HeadIsLeast(s.waiting); }
    hide Increasing, Remove;
    forall t: nat ensures Places(After(s, move), t) == if t < |After(s, move).entered| then 1 else 0 {
      assert Places(s, t) == if t < |s.entered| then 1 else 0;
    }
  }

  lemma AdmittedStep(s: Admission, l: Limits, move: Move)
    requires Admitted(s, l) && Ticketed(s) && Placed(s) && Enabled(s, move)
    ensures Admitted(After(s, move), l) && Ticketed(After(s, move)) && Placed(After(s, move))
  {
    TicketsKept(s, move);
    NextIsNew(s);
    PlacedStep(s, l, move);
    hide Placed, Admitted, Ticketed, After;
    match move
    case Accept => AcceptKeeps(s, l);
    case Enqueue(c) => EnqueueKeeps(s, l, c);
    case Grant => GrantKeeps(s, l);
    case Expire(t) => ExpireKeeps(s, l, t);
    case ReleaseGranted(t) => ReleaseGrantedKeeps(s, l, t);
    case ReleaseTimedOut(t) => ReleaseTimedOutKeeps(s, l, t);
    case FinishServing(t) => FinishKeeps(s, l, t);
    case FinishOverflow(t) => FinishKeeps(s, l, t);
  }

  /** A run is any sequence of enabled moves from the empty listener. */
  ghost predicate IsRun(moves: seq<Move>, l: Limits)
    decreases |moves|, 0
  {
    moves == [] || (IsRun(moves[..|moves| - 1], l) && Enabled(EndOf(moves[..|moves| - 1], l), moves[|moves| - 1]))
  }

  ghost function EndOf(moves: seq<Move>, l: Limits): (s: Admission)
    requires IsRun(moves, l)
    decreases |moves|, 1
  {
    if moves == [] then Empty(l) else After(EndOf(moves[..|moves| - 1], l), moves[|moves| - 1])
  }

  /** Some connection holds or has a permit although `c`, which arrived before it, still waits for one. */
  ghost predicate Overtaken(s: Admission) {
    exists g, t :: (g in s.granted || g in s.serving) && t in s.waiting
      && g < |s.entered| && t < |s.entered| && s.entered[t] < s.entered[g]
  }

  /**
   In every interleaving: at most `maxQueued` connections wait, whether or not their task has run; at most
   `maxConnections` hold a pool permit; permits are conserved; nobody is granted ahead of one who asked earlier and
   still waits, so nobody is overtaken if tasks first run in order of arrival; and a connection is dropped at accept
   exactly when every queue slot is held. Every arrival is accounted for, and every ticket is in exactly one place.
   */
  lemma {:induction false} AdmissionSafety(moves: seq<Move>, l: Limits)
    requires IsRun(moves, l)
    ensures var s := EndOf(moves, l);
      && Admitted(s, l) && Ticketed(s) && Placed(s)
      && |s.spawned| + |s.waiting| <= l.maxQueued && |s.granted| + |s.serving| <= l.maxConnections
      && (forall g, t :: (g in s.granted || g in s.serving) && t in s.waiting ==> g < t)
      && (Increasing(s.entered) ==> !Overtaken(s))
      && (After(s, Accept).dropped != s.dropped <==>
            |s.spawned| + |s.waiting| + |s.granted| + |s.timedOut| == l.maxQueued)
    decreases |moves|
  {
    if moves != [] {
      AdmissionSafety(moves[..|moves| - 1], l);
      AdmittedStep(EndOf(moves[..|moves| - 1], l), l, moves[|moves| - 1]);
    } else {
      NobodyYet(l);
    }
    hide EndOf;
    DroppedWhenFull(EndOf(moves, l), l);
  }

  lemma NobodyYet(l: Limits)
    ensures Admitted(Empty(l), l) && Ticketed(Empty(l)) && Placed(Empty(l))
  {
  }

  lemma DroppedWhenFull(s: Admission, l: Limits)
    requires Admitted(s, l) && Ticketed(s)
    ensures After(s, Accept).dropped != s.dropped <==>
      |s.spawned| + |s.waiting| + |s.granted| + |s.timedOut| == l.maxQueued
  {
    NextIsNew(s);
    if s.queueFree == 0 { assert s.next in After(s, Accept).dropped; }
  }

  /** The second of two connections can be polled first, and is then granted first: two slots and a permit suffice. */
  lemma LaterArrivalGrantedFirst(l: Limits)
    requires l.maxQueued >= 2 && l.maxConnections >= 1
    ensures exists moves :: IsRun(moves, l) && Overtaken(EndOf(moves, l))
  {
    var s0 := Empty(l);
    var s1 := RunGrows([], s0, Accept, l);
    var s2 := RunGrows([] + [Accept], s1, Accept, l);
    var s3 := RunGrows([] + [Accept] + [Accept], s2, Enqueue(1), l);
    var s4 := RunGrows([] + [Accept] + [Accept] + [Enqueue(1)], s3, Grant, l);
    var s5 := RunGrows([] + [Accept] + [Accept] + [Enqueue(1)] + [Grant], s4, Enqueue(0), l);
    assert s5.granted == {0} && s5.waiting == [1] && s5.entered == [1, 0];
    assert 0 in s5.granted && 1 in s5.waiting && s5.entered[1] < s5.entered[0];
    assert Overtaken(s5);
  }

  lemma RunGrows(moves: seq<Move>, s: Admission, m: Move, l: Limits) returns (t: Admission)
    requires IsRun(moves, l) && EndOf(moves, l) == s && Enabled(s, m)
    ensures t == After(s, m) && IsRun(moves + [m], l) && EndOf(moves + [m], l) == t
  {
    assert (moves + [m])[..|moves|] == moves;
    t := After(s, m);
  }

  /** Tasks have first run in order of arrival so far, and those still to run arrived later. */
  ghost predicate InOrder(s: Admission) {
    Increasing(s.entered) && forall c, e :: c in s.spawned && e in s.entered ==> e < c
  }

  lemma EnqueueInOrder(s: Admission, c: nat)
    requires InOrder(s) && s.spawned == {c}
    ensures InOrder(After(s, Enqueue(c)))
  {
    AppendLast(s.entered, c);
    hide Increasing;
  }

  lemma AcceptInOrder(s: Admission)
    requires InOrder(s) && Ticketed(s) && s.spawned == {}
    ensures InOrder(After(s, Accept))
  {
    hide Increasing;
  }

  /** With a single queue slot there is never more than one task to run, and none when the slot is free. */
  lemma OneTask(s: Admission, l: Limits)
    requires l.maxQueued <= 1 && Admitted(s, l)
    ensures s.queueFree > 0 ==> s.spawned == {}
    ensures forall c :: c in s.spawned ==> s.spawned == {c}
  {
    forall c | c in s.spawned ensures s.spawned == {c} {
      assert s.spawned == {c} + (s.spawned - {c}) && |s.spawned - {c}| == |s.spawned| - 1;
    }
  }

  lemma InOrderStep(s: Admission, l: Limits, move: Move)
    requires l.maxQueued <= 1 && Admitted(s, l) && Ticketed(s) && InOrder(s) && Enabled(s, move)
    ensures InOrder(After(s, move))
  {
    OneTask(s, l);
    hide Admitted, Ticketed, Increasing;
    match move
    case Accept => if s.queueFree > 0 { AcceptInOrder(s); }
    case Enqueue(c) => EnqueueInOrder(s, c);
    case _ =>
  }

  lemma {:induction false} OneSlotKeepsOrder(moves: seq<Move>, l: Limits)
    requires IsRun(moves, l) && l.maxQueued <= 1
    ensures InOrder(EndOf(moves, l))
    decreases |moves|
  {
    if moves != [] {
      var before := moves[..|moves| - 1];
      OneSlotKeepsOrder(before, l);
      AdmissionSafety(before, l);
      InOrderStep(EndOf(before, l), l, moves[|moves| - 1]);
    }
  }

  /**
   Exactly which listeners can let a connection be overtaken by a later arrival: those with at least two queue slots
   and at least one pool permit.
   */
  lemma OvertakingExactly(l: Limits)
    ensures (exists moves :: IsRun(moves, l) && Overtaken(EndOf(moves, l)))
       <==> l.maxQueued >= 2 && l.maxConnections >= 1
  {
    if l.maxQueued >= 2 && l.maxConnections >= 1 {
      LaterArrivalGrantedFirst(l);
    }
    forall moves | IsRun(moves, l) && Overtaken(EndOf(moves, l)) ensures l.maxQueued >= 2 && l.maxConnections >= 1 {
      AdmissionSafety(moves, l);
      if l.maxQueued <= 1 { OneSlotKeepsOrder(moves, l); }
      if l.maxConnections == 0 { NobodyWithoutPermit(EndOf(moves, l), l); }
    }
  }

  lemma NobodyWithoutPermit(s: Admission, l: Limits)
    requires Admitted(s, l) && l.maxConnections == 0
    ensures !Overtaken(s)
  {
  }
}

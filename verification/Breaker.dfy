/** The circuit breaker in front of the scan workers. */
module Breaker {
  const THRESHOLD := 3
  const COOLDOWN_MS := 5000
  const U32 := 0x1_0000_0000
  const U64 := 0x1_0000_0000_0000_0000

  datatype BreakerState = BreakerState(consecutive: nat, openUntil: nat)

  const CLOSED := BreakerState(0, 0)

  /** What is reported to the breaker: a reply in time, or an overrun seen at `now`. */
  datatype Report = InTime | Overrun(now: nat)

  predicate IsOpen(s: BreakerState, now: nat) { s.openUntil != 0 && now < s.openUntil }

  /** One report; the counter is a wrapping 32-bit one, the clock a wrapping 64-bit one. */
  function Reported(s: BreakerState, r: Report): (t: BreakerState) {
    match r
    case InTime => CLOSED
    case Overrun(now) =>
      var n := (s.consecutive + 1) % U32;
      BreakerState(n, if n >= THRESHOLD then (now + COOLDOWN_MS) % U64 else s.openUntil)
  }

  function Replay(reports: seq<Report>): (s: BreakerState) {
    if reports == [] then CLOSED else Reported(Replay(reports[..|reports| - 1]), reports[|reports| - 1])
  }

  /** Overruns since the last reply in time. */
  function Overruns(reports: seq<Report>): (n: nat) {
    if reports == [] || reports[|reports| - 1].InTime? then 0 else Overruns(reports[..|reports| - 1]) + 1
  }

  /** After any reports: the counter is the overruns since the last success, and open needs three of them. */
  lemma {:induction false} OpenNeedsThree(reports: seq<Report>)
    ensures Replay(reports).consecutive == Overruns(reports) % U32
    ensures Overruns(reports) < THRESHOLD ==> Replay(reports).openUntil == 0
    ensures forall now :: IsOpen(Replay(reports), now) ==> Overruns(reports) >= THRESHOLD
    decreases |reports|
  {
    if reports != [] {
      OpenNeedsThree(reports[..|reports| - 1]);
    }
  }

  /** Exactly when it is open: three overruns since the last success, the latest less than a cool-down ago. */
  lemma OpenExactly(reports: seq<Report>, now: nat)
    requires Overruns(reports) < U32
    requires forall r :: r in reports && r.Overrun? ==> r.now + COOLDOWN_MS < U64
    ensures IsOpen(Replay(reports), now)
       <==> Overruns(reports) >= THRESHOLD && now < reports[|reports| - 1].now + COOLDOWN_MS
  {
    OpenNeedsThree(reports);
    if reports != [] {
      OpenNeedsThree(reports[..|reports| - 1]);
    }
  }

  class CircuitBreaker {
    var consecutive: nat
    var openUntil: nat

    function State(): BreakerState reads this { BreakerState(consecutive, openUntil) }

    constructor ()
      ensures State() == CLOSED
    {
      consecutive, openUntil := 0, 0;
    }

    method RecordSuccess()
      modifies this
      ensures State() == Reported(old(State()), InTime)
    {
      consecutive := 0;
      openUntil := 0;
    }

    method RecordTimeout(now: nat)
      modifies this
      ensures State() == Reported(old(State()), Overrun(now))
    {
      consecutive := (consecutive + 1) % U32;
      if consecutive >= THRESHOLD { openUntil := (now + COOLDOWN_MS) % U64; }
    }
  }
}

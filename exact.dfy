/**
  The exact response time: the busy-period recurrence
    R(0) = C + B,  R(s) = C + B + sum over higher-priority j of ceil(R(s-1) / T_j) * C_j,
  iterated until a fixpoint or until R(s) exceeds the period (deadline miss).
 */
module Exact {

  import opened Wrappers
  import opened Response

  /** One application of the recurrence for task ps[i]. */
  function Step(ps: seq<Profile>, i: nat, r: int): int
    requires ValidProfiles(ps) && i < |ps|
  {
    ps[i].wcet + ps[i].blocking + HigherDemand(ps, ps[i].priority, r)
  }

  /** The recurrence never decreases when its argument grows. */
  lemma StepMonotone(ps: seq<Profile>, i: nat, r: int, r': int)
    requires ValidProfiles(ps) && i < |ps| && r <= r'
    ensures Step(ps, i, r) <= Step(ps, i, r')
  {
    WindowDemandMonotone(Higher(ps, ps[i].priority), r, r');
  }

  /** On a non-negative window the recurrence is at least C + B. */
  lemma StepAtLeastBase(ps: seq<Profile>, i: nat, r: int)
    requires ValidProfiles(ps) && i < |ps| && r >= 0
    ensures Step(ps, i, r) >= ps[i].wcet + ps[i].blocking
  {
    WindowDemandNonNegative(Higher(ps, ps[i].priority), r);
  }

  /** R(s). */
  function Iterate(ps: seq<Profile>, i: nat, s: nat): int
    requires ValidProfiles(ps) && i < |ps|
  {
    if s == 0 then ps[i].wcet + ps[i].blocking else Step(ps, i, Iterate(ps, i, s - 1))
  }

  /** The iterates never decrease: R(s) <= R(s+1). */
  lemma {:induction false} IterateNonDecreasing(ps: seq<Profile>, i: nat, s: nat)
    requires ValidProfiles(ps) && i < |ps|
    ensures 0 <= Iterate(ps, i, s) <= Iterate(ps, i, s + 1)
  {
    if s == 0 {
      StepAtLeastBase(ps, i, ps[i].wcet + ps[i].blocking);
    } else {
      IterateNonDecreasing(ps, i, s - 1);
      StepMonotone(ps, i, Iterate(ps, i, s - 1), Iterate(ps, i, s));
    }
  }

  /** Every iterate lies below every non-negative x with Step(x) <= x: the
      iteration never overshoots the least busy period. */
  lemma {:induction false} IterateBelowPrefixpoint(ps: seq<Profile>, i: nat, s: nat, x: int)
    requires ValidProfiles(ps) && i < |ps|
    requires 0 <= x && Step(ps, i, x) <= x
    ensures Iterate(ps, i, s) <= x
  {
    if s == 0 {
      StepAtLeastBase(ps, i, x);
    } else {
      IterateBelowPrefixpoint(ps, i, s - 1, x);
      StepMonotone(ps, i, Iterate(ps, i, s - 1), x);
    }
  }

  /** The result reported for one task: R, the interference accumulated in
      the last round, and whether the deadline is missed. */
  datatype Outcome = Outcome(response: int, interference: int, missed: bool)

  /**
    The iteration from R(s) on: stop with a miss once R(s) exceeds the
    period, stop at a fixpoint R(s+1) = R(s), otherwise go on.
   */
  function Solve(ps: seq<Profile>, i: nat, s: nat): Outcome
    requires ValidProfiles(ps) && i < |ps|
    decreases ps[i].period - Iterate(ps, i, s)
  {
    var base := ps[i].wcet + ps[i].blocking;
    var r := Iterate(ps, i, s);
    if r > ps[i].period then Outcome(r, r - base, true)
    else if Iterate(ps, i, s + 1) == r then Outcome(r, r - base, false)
    else
      IterateNonDecreasing(ps, i, s);
      Solve(ps, i, s + 1)
  }

  /**
    What the solver's answer means: the deadline is missed exactly when R
    exceeds the period; otherwise R is a fixpoint of the recurrence; and R
    never exceeds any non-negative x with Step(x) <= x, so it is the least
    busy period and a miss means no busy period fits within the period.
   */
  lemma {:induction false} SolveCorrect(ps: seq<Profile>, i: nat, s: nat)
    requires ValidProfiles(ps) && i < |ps|
    ensures var o := Solve(ps, i, s);
      && (o.missed <==> o.response > ps[i].period)
      && (!o.missed ==> Step(ps, i, o.response) == o.response)
      && o.response >= ps[i].wcet + ps[i].blocking
      && o.interference == o.response - ps[i].wcet - ps[i].blocking
      && forall x :: 0 <= x && Step(ps, i, x) <= x ==> o.response <= x
    decreases ps[i].period - Iterate(ps, i, s)
  {
    var r := Iterate(ps, i, s);
    IterateNonDecreasing(ps, i, s);
    BaseBelowIterate(ps, i, s);
    forall x | 0 <= x && Step(ps, i, x) <= x ensures r <= x {
      IterateBelowPrefixpoint(ps, i, s, x);
    }
    if r <= ps[i].period && Iterate(ps, i, s + 1) != r {
      SolveCorrect(ps, i, s + 1);
    }
  }

  lemma {:induction false} BaseBelowIterate(ps: seq<Profile>, i: nat, s: nat)
    requires ValidProfiles(ps) && i < |ps|
    ensures Iterate(ps, i, s) >= ps[i].wcet + ps[i].blocking
  {
    if s > 0 {
      BaseBelowIterate(ps, i, s - 1);
      IterateNonDecreasing(ps, i, s - 1);
    }
  }

  /**
    The exact analysis of task ps[i]: R starts at C + B; each round sums
    ceil(R / T_j) * C_j over the higher-priority tasks, stopping at a
    fixpoint or as soon as R exceeds the period. `steps` is the number of
    rounds that changed R.
   */
  method ExactResponse(ps: seq<Profile>, i: nat) returns (o: Outcome, steps: nat)
    requires ValidProfiles(ps) && i < |ps|
    ensures o == Solve(ps, i, 0)
    ensures o.response == Iterate(ps, i, steps)
    ensures o.missed <==> o.response > ps[i].period
    ensures !o.missed ==> Step(ps, i, o.response) == o.response
    ensures forall x :: 0 <= x && Step(ps, i, x) <= x ==> o.response <= x
  {
    SolveCorrect(ps, i, 0);
    var p := ps[i];
    var base := p.wcet + p.blocking;
    var r := base;
    steps := 0;
    if r > p.period {
      return Outcome(r, 0, true), 0;
    }
    while true
      invariant r == Iterate(ps, i, steps) <= p.period
      invariant Solve(ps, i, 0) == Solve(ps, i, steps)
      decreases p.period - r
    {
      var total := HigherDemandLoop(ps, p.priority, r);
      var next := base + total;
      assert next == Iterate(ps, i, steps + 1);
      if next == r {
        return Outcome(r, total, false), steps;
      }
      IterateNonDecreasing(ps, i, steps);
      steps := steps + 1;
      r := next;
      if r > p.period {
        return Outcome(r, total, true), steps;
      }
    }
  }

  /**
    The one-shot estimate bounds the exact analysis: when the estimate fits
    within the period, the exact iteration meets the deadline and its R is
    no larger than the estimate.
   */
  lemma OneShotBoundsExact(ps: seq<Profile>, i: nat)
    requires ValidProfiles(ps) && i < |ps|
    requires OneShot(ps, i).response <= ps[i].period
    ensures !Solve(ps, i, 0).missed
    ensures Solve(ps, i, 0).response <= OneShot(ps, i).response
  {
    var x := OneShot(ps, i).response;
    WindowDemandNonNegative(Higher(ps, ps[i].priority), ps[i].period);
    StepMonotone(ps, i, x, ps[i].period);
    SolveCorrect(ps, i, 0);
  }

  /** The highest-priority task suffers no interference: its exact R is
      C + B, and it misses exactly when C + B exceeds its period. */
  lemma SolveOfHighest(ps: seq<Profile>, i: nat)
    requires ValidProfiles(ps) && i < |ps|
    requires forall j :: 0 <= j < |ps| ==> ps[j].priority <= ps[i].priority
    ensures var base := ps[i].wcet + ps[i].blocking;
      Solve(ps, i, 0) == Outcome(base, 0, base > ps[i].period)
  {
    NoHigherNoInterference(ps, ps[i].priority, ps[i].wcet + ps[i].blocking);
    SolveCorrect(ps, i, 0);
  }

  /** When C + B alone exceeds the period, the analysis stops at once with a
      miss and R = C + B. */
  lemma OverrunAtStart(ps: seq<Profile>, i: nat)
    requires ValidProfiles(ps) && i < |ps| && ps[i].wcet + ps[i].blocking > ps[i].period
    ensures Solve(ps, i, 0) == Outcome(ps[i].wcet + ps[i].blocking, 0, true)
  {
  }

  // ---------------------------------------------------------------------------
  // The loop as the source writes it
  // ---------------------------------------------------------------------------

  /** The work released within window w by all tasks of hp (the list of
      higher-priority tasks), in list order. */
  function LastTerm(hp: seq<Profile>, w: int, previous: int): int
    requires ValidProfiles(hp)
  {
    if hp == [] then previous else CeilDiv(w, hp[|hp| - 1].period) * hp[|hp| - 1].wcet
  }

  /**
    The source's `while i_temp != i_temp2` loop over the list hp of
    higher-priority tasks: each round sums the terms into i_total and keeps
    the LAST term in i_temp; it stops when that last term repeats. None when
    it has not stopped within `fuel` rounds.
   */
  function LoopAsWritten(hp: seq<Profile>, base: int, r: int, iTemp: int, iTemp2: int, iTotal: int, fuel: nat)
    : Option<(int, int)>
    requires ValidProfiles(hp)
    decreases fuel
  {
    if iTemp == iTemp2 then Some((r, iTotal))
    else if fuel == 0 then None
    else
      var total := WindowDemand(hp, r);
      LoopAsWritten(hp, base, base + total, LastTerm(hp, r, iTemp), iTemp, total, fuel - 1)
  }

  /**
    Task i of a table sorted by decreasing priority, as the source analyses
    it: the first task gets R = C + B and is never flagged; every other task
    runs the loop over the tasks before it and is flagged when R exceeds its
    period.
   */
  function ExactAsWritten(ps: seq<Profile>, i: nat, fuel: nat): Option<Outcome>
    requires ValidProfiles(ps) && i < |ps|
  {
    var base := ps[i].wcet + ps[i].blocking;
    if i == 0 then Some(Outcome(base, 0, false))
    else
      match LoopAsWritten(ps[..i], base, base, 0, -1, 0, fuel)
      case None => None
      case Some(res) => Some(Outcome(res.0, res.1, res.0 > ps[i].period))
  }

  /** H1 (priority 3, T = 2, C = 1), H2 (priority 2, T = 100, C = 1) and
      L (priority 1, T = 100, C = 3), sorted by decreasing priority. */
  const PrematureStopSet: seq<Profile> :=
    [Profile("H1", 3, 2, 1, 0), Profile("H2", 2, 100, 1, 0), Profile("L", 1, 100, 3, 0)]

  /** For L the source stops at R = 7 because H2's term stayed 1, although
      H1's term grew: 7 is not a fixpoint, and the exact response time is 8. */
  lemma LoopStopsBeforeFixpoint()
    ensures ExactAsWritten(PrematureStopSet, 2, 10) == Some(Outcome(7, 4, false))
    ensures Step(PrematureStopSet, 2, 7) == 8
    ensures Solve(PrematureStopSet, 2, 0) == Outcome(8, 5, false)
  {
    PrematureLoop();
    PrematureSolve();
  }

  lemma PrematureLoop()
    ensures ExactAsWritten(PrematureStopSet, 2, 10) == Some(Outcome(7, 4, false))
  {
    var hp := PrematureStopSet[..2];
    PrematureDemands();
    assert LoopAsWritten(hp, 3, 7, 1, 1, 4, 8) == Some((7, 4));
    assert LoopAsWritten(hp, 3, 6, 1, 0, 3, 9) == Some((7, 4));
    assert LoopAsWritten(hp, 3, 3, 0, -1, 0, 10) == Some((7, 4));
  }

  lemma PrematureStep(r: int)
    ensures Step(PrematureStopSet, 2, r) == 3 + WindowDemand(PrematureStopSet[..2], r)
  {
    HigherOfLowest();
  }

  lemma PrematureSolve()
    ensures Step(PrematureStopSet, 2, 7) == 8
    ensures Solve(PrematureStopSet, 2, 0) == Outcome(8, 5, false)
  {
    var ps := PrematureStopSet;
    PrematureDemands();
    PrematureStep(3);
    PrematureStep(6);
    PrematureStep(7);
    PrematureStep(8);
    assert Iterate(ps, 2, 0) == 3;
    assert Iterate(ps, 2, 1) == 6;
    assert Iterate(ps, 2, 2) == 7;
    assert Iterate(ps, 2, 3) == 8;
    assert Iterate(ps, 2, 4) == 8;
    assert Solve(ps, 2, 3) == Outcome(8, 5, false);
    assert Solve(ps, 2, 2) == Solve(ps, 2, 3);
    assert Solve(ps, 2, 1) == Solve(ps, 2, 2);
  }

  lemma PrematureDemand(w: int)
    ensures WindowDemand(PrematureStopSet[..2], w) == CeilDiv(w, 2) + CeilDiv(w, 100)
    ensures LastTerm(PrematureStopSet[..2], w, 0) == CeilDiv(w, 100)
  {
    var hp := PrematureStopSet[..2];
    assert hp[..1][..0] == [];
    assert hp[1].period == 100 && hp[1].wcet == 1;
    assert hp[..1][0].period == 2 && hp[..1][0].wcet == 1;
    assert WindowDemand(hp[..1], w) == WindowDemand(hp[..1][..0], w) + CeilDiv(w, 2) * 1;
    assert WindowDemand(hp, w) == WindowDemand(hp[..1], w) + CeilDiv(w, 100) * 1;
  }

  lemma PrematureDemands()
    ensures var hp := PrematureStopSet[..2];
      && LastTerm(hp, 3, 0) == 1 && LastTerm(hp, 6, 1) == 1
      && WindowDemand(hp, 3) == 3 && WindowDemand(hp, 6) == 4
      && WindowDemand(hp, 7) == 5 && WindowDemand(hp, 8) == 5
  {
    PrematureDemand(3);
    PrematureDemand(6);
    PrematureDemand(7);
    PrematureDemand(8);
    assert CeilDiv(3, 2) == 2 && CeilDiv(6, 2) == 3 && CeilDiv(7, 2) == 4 && CeilDiv(8, 2) == 4;
    assert CeilDiv(3, 100) == 1 && CeilDiv(6, 100) == 1 && CeilDiv(7, 100) == 1 && CeilDiv(8, 100) == 1;
  }

  lemma HigherOfLowest()
    ensures Higher(PrematureStopSet, 1) == PrematureStopSet[..2]
  {
    PrefixIsHigher(PrematureStopSet, 2);
  }

  /** A single task whose C + B = 50 exceeds its period 30. */
  const OverrunSet: seq<Profile> := [Profile("H", 1, 30, 50, 0)]

  /** The highest-priority task is never flagged by the source, even when
      C + B already exceeds its period. */
  lemma HighestNeverFlagged()
    ensures ExactAsWritten(OverrunSet, 0, 0) == Some(Outcome(50, 0, false))
    ensures Solve(OverrunSet, 0, 0) == Outcome(50, 0, true)
  {
  }

  /** H (priority 2, T = 1, C = 2) above L (priority 1, T = 10, C = 1):
      the higher-priority demand exceeds the processor. */
  const OverloadSet: seq<Profile> := [Profile("H", 2, 1, 2, 0), Profile("L", 1, 10, 1, 0)]

  /** Each round of the source's loop on OverloadSet turns R into 2R + 1
      and the last term into 2R, which never equals the previous one. */
  lemma {:induction false} OverloadLoopRuns(r: int, iTemp2: int, fuel: nat)
    requires r >= 1 && iTemp2 < r - 1
    ensures LoopAsWritten(OverloadSet[..1], 1, r, r - 1, iTemp2, r - 1, fuel) == None
    decreases fuel
  {
    var hp := OverloadSet[..1];
    assert hp == [Profile("H", 2, 1, 2, 0)] && hp[..0] == [];
    if fuel > 0 {
      assert WindowDemand(hp, r) == 2 * r;
      OverloadLoopRuns(1 + 2 * r, r - 1, fuel - 1);
    }
  }

  /** For L the source's loop has no exit on a deadline miss: in exact
      arithmetic R doubles every round and H's term never repeats, so no
      amount of fuel makes it stop. The solver stops at R = 15 > 10 with a
      miss. */
  lemma OverloadNeverStops(fuel: nat)
    ensures ExactAsWritten(OverloadSet, 1, fuel) == None
    ensures Solve(OverloadSet, 1, 0) == Outcome(15, 14, true)
  {
    OverloadLoopRuns(1, -1, fuel);
    PrefixIsHigher(OverloadSet, 1);
    assert Iterate(OverloadSet, 1, 1) == 3;
    assert Iterate(OverloadSet, 1, 2) == 7;
    assert Iterate(OverloadSet, 1, 3) == 15;
    assert Solve(OverloadSet, 1, 2) == Solve(OverloadSet, 1, 3);
  }
}

/**
  The three analyses run on the finished trace: the CPU demand, the one-shot
  response-time estimate and the exact (recursive) response-time analysis.
  Each builds one entry per task of the table with its C (last timed Finish)
  and B (longest blocking claim), then fills in the remaining terms.
 */
module Analysis {

  import opened Wrappers
  import opened Trace
  import opened Demand
  import opened Claims
  import opened Blocking
  import opened Response
  import opened Exact
  import opened Sample

  /** The analysis entry of every task of ts, with C taken from the trace and
      B from the claims cs. */
  function Profiles(trace: seq<Event>, ts: seq<Task>, cs: seq<Claim>): (ps: seq<Profile>)
    requires PositivePeriods(ts)
    ensures |ps| == |ts| && ValidProfiles(ps)
    ensures forall j :: 0 <= j < |ts| ==>
      ps[j].name == ts[j].name && ps[j].priority == ts[j].priority && ps[j].period == ts[j].period
  {
    seq(|ts|, j requires 0 <= j < |ts| =>
      Profile(ts[j].name, ts[j].priority, ts[j].period, Wcet(trace, ts[j].name), Blocking.Blocking(cs, ts, j)))
  }

  /** The claims of a trace under LIFO pairing. */
  function TraceClaims(trace: seq<Event>): Result<seq<Claim>, TraceError> {
    StackScan(trace, 0, [], [])
  }

  /**
    The entries shared by both response-time analyses: pair the claims, find
    every task's WCET, then every task's blocking term. Fails exactly when
    the claims of the trace do not pair up.
   */
  method BuildProfiles(trace: seq<Event>, ts: seq<Task>) returns (r: Result<seq<Profile>, TraceError>)
    requires PositivePeriods(ts)
    ensures r.Failure? <==> TraceClaims(trace).Failure?
    ensures r.Failure? ==> r.error == TraceClaims(trace).error
    ensures r.Success? ==> r.value == Profiles(trace, ts, TraceClaims(trace).value)
  {
    var claims := PairClaims(trace);
    if claims.Failure? {
      return Failure(claims.error);
    }
    var c := ExtractWcets(trace, ts);
    var b := BlockingTimes(claims.value, ts);
    var ps: seq<Profile> := [];
    for j := 0 to |ts|
      invariant |ps| == j
      invariant forall m :: 0 <= m < j ==> ps[m] == Profiles(trace, ts, claims.value)[m]
    {
      ps := ps + [Profile(ts[j].name, ts[j].priority, ts[j].period, c[j], b[j])];
    }
    return Success(ps);
  }

  /**
    The one-shot analysis: for every task of the table, R = C + B + I with I
    the releases of the strictly higher-priority tasks within its period.
   */
  method ResponseTimeAlgorithm(trace: seq<Event>, ts: seq<Task>) returns (r: Result<seq<Estimate>, TraceError>)
    requires ValidTable(ts)
    ensures r.Failure? <==> TraceClaims(trace).Failure?
    ensures r.Success? ==> |r.value| == |ts|
    ensures r.Success? ==> forall i :: 0 <= i < |ts| ==>
      r.value[i] == OneShot(Profiles(trace, ts, TraceClaims(trace).value), i)
  {
    var ps := BuildProfiles(trace, ts);
    if ps.Failure? {
      return Failure(ps.error);
    }
    var es := ResponseTimes(ps.value);
    return Success(es);
  }

  /**
    The exact analysis: for every task of the table, the least busy period
    of the recurrence, and whether it exceeds the task's period.
   */
  method RecursiveResponseAlgorithm(trace: seq<Event>, ts: seq<Task>) returns (r: Result<seq<Outcome>, TraceError>)
    requires ValidTable(ts)
    ensures r.Failure? <==> TraceClaims(trace).Failure?
    ensures r.Success? ==> |r.value| == |ts|
    ensures r.Success? ==> forall i :: 0 <= i < |ts| ==>
      var ps := Profiles(trace, ts, TraceClaims(trace).value);
      && r.value[i] == Solve(ps, i, 0)
      && (r.value[i].missed <==> r.value[i].response > ts[i].period)
      && (!r.value[i].missed ==> Step(ps, i, r.value[i].response) == r.value[i].response)
  {
    var built := BuildProfiles(trace, ts);
    if built.Failure? {
      return Failure(built.error);
    }
    var ps := built.value;
    var os: seq<Outcome> := [];
    for i := 0 to |ps|
      invariant |os| == i
      invariant forall m :: 0 <= m < i ==> os[m] == Solve(ps, m, 0)
    {
      var o, _ := ExactResponse(ps, i);
      os := os + [o];
    }
    forall m | 0 <= m < |ps|
      ensures os[m].missed <==> os[m].response > ps[m].period
      ensures !os[m].missed ==> Step(ps, m, os[m].response) == os[m].response
    {
      SolveCorrect(ps, m, 0);
    }
    return Success(os);
  }

  // ---------------------------------------------------------------------------
  // The worked example of the sample trace
  // ---------------------------------------------------------------------------

  /** The sample's entries with interarrival times t1, t2, t3 for EXTI1,
      EXTI2, EXTI3: C = 37, 11, 8 and B = 0, 10, 15. */
  function SampleProfiles(t1: int, t2: int, t3: int): (ps: seq<Profile>)
    requires t1 > 0 && t2 > 0 && t3 > 0
    ensures ValidProfiles(ps)
  {
    [Profile("EXTI1", 1, t1, 37, 0), Profile("EXTI2", 3, t2, 11, 10), Profile("EXTI3", 2, t3, 8, 15)]
  }

  lemma SampleWcets()
    ensures Wcet(SampleTrace, "EXTI1") == 37
    ensures Wcet(SampleTrace, "EXTI2") == 11
    ensures Wcet(SampleTrace, "EXTI3") == 8
  {
    WcetIsLastFinish(SampleTrace, "EXTI1", 15);
    WcetIsLastFinish(SampleTrace, "EXTI2", 9);
    WcetIsLastFinish(SampleTrace, "EXTI3", 7);
  }

  /** The sample trace yields C = 37, 11, 8 and B = 0, 10, 15. */
  lemma SampleTraceProfiles()
    ensures TraceClaims(SampleTrace) == Success(SampleClaims)
    ensures Profiles(SampleTrace, SampleTasks, SampleClaims) == SampleProfiles(100, 30, 40)
  {
    SampleClaimTimes();
    SampleTableProfiles();
  }

  /** The sample table with C from the trace and B from its claims. */
  lemma SampleTableProfiles()
    ensures Profiles(SampleTrace, SampleTasks, SampleClaims) == SampleProfiles(100, 30, 40)
  {
    SampleWcets();
    SampleBlocking();
    TableProfiles(SampleTrace, SampleClaims);
  }

  /** Any trace and claims with the sample's C and B give the sample's entries. */
  lemma TableProfiles(trace: seq<Event>, cs: seq<Claim>)
    requires Wcet(trace, "EXTI1") == 37 && Wcet(trace, "EXTI2") == 11 && Wcet(trace, "EXTI3") == 8
    requires Blocking.Blocking(cs, SampleTasks, 0) == 0
    requires Blocking.Blocking(cs, SampleTasks, 1) == 10
    requires Blocking.Blocking(cs, SampleTasks, 2) == 15
    ensures Profiles(trace, SampleTasks, cs) == SampleProfiles(100, 30, 40)
  {
    var ps := Profiles(trace, SampleTasks, cs);
    assert ps[0] == SampleProfiles(100, 30, 40)[0];
    assert ps[1] == SampleProfiles(100, 30, 40)[1];
    assert ps[2] == SampleProfiles(100, 30, 40)[2];
  }

  /** The recurrence of each sample task, written out. */
  lemma SampleSteps(t1: int, t2: int, t3: int, r: int)
    requires t1 > 0 && t2 > 0 && t3 > 0
    ensures Step(SampleProfiles(t1, t2, t3), 0, r) == 37 + CeilDiv(r, t2) * 11 + CeilDiv(r, t3) * 8
    ensures Step(SampleProfiles(t1, t2, t3), 1, r) == 21
    ensures Step(SampleProfiles(t1, t2, t3), 2, r) == 23 + CeilDiv(r, t2) * 11
  {
    var ps := SampleProfiles(t1, t2, t3);
    SampleHigher(t1, t2, t3);
    WindowDemandOfTwo(ps[1], ps[2], r);
  }

  /** Which tasks of the sample outrank each priority level. */
  lemma SampleHigher(t1: int, t2: int, t3: int)
    requires t1 > 0 && t2 > 0 && t3 > 0
    ensures var ps := SampleProfiles(t1, t2, t3);
      Higher(ps, 1) == [ps[1], ps[2]] && Higher(ps, 2) == [ps[1]] && Higher(ps, 3) == []
  {
    var ps := SampleProfiles(t1, t2, t3);
    assert ps[..1] == [ps[0]] && ps[..2] == [ps[0], ps[1]] && ps[..2][..1] == [ps[0]];
    assert Higher(ps, 1) == [ps[1], ps[2]] by {
      assert Higher(ps[..1], 1) == [];
      assert Higher(ps[..2], 1) == [ps[1]];
    }
    assert Higher(ps, 3) == [] by {
      assert Higher(ps[..1], 3) == [];
      assert Higher(ps[..2], 3) == [];
    }
    assert Higher(ps, 2) == [ps[1]] by {
      assert Higher(ps[..1], 2) == [];
      assert Higher(ps[..2], 2) == [ps[1]];
    }
  }

  /** The window demand of one and of two tasks. */
  lemma WindowDemandOfTwo(p: Profile, q: Profile, r: int)
    requires p.period > 0 && q.period > 0
    ensures WindowDemand([p], r) == CeilDiv(r, p.period) * p.wcet
    ensures WindowDemand([p, q], r) == CeilDiv(r, p.period) * p.wcet + CeilDiv(r, q.period) * q.wcet
  {
    var h1, h2 := [p], [p, q];
    assert h1[..0] == [] && h2[..1] == h1;
  }

  /** The worked one-shot figures: R_EXTI1 = 37 + 4 * 11 + 3 * 8 = 105,
      R_EXTI2 = 11 + 10 = 21, R_EXTI3 = 8 + 15 + 2 * 11 = 45. */
  lemma SampleOneShot()
    ensures OneShot(SampleProfiles(100, 30, 40), 0) == Estimate(37, 0, 68, 105)
    ensures OneShot(SampleProfiles(100, 30, 40), 1) == Estimate(11, 10, 0, 21)
    ensures OneShot(SampleProfiles(100, 30, 40), 2) == Estimate(8, 15, 22, 45)
  {
    SampleSteps(100, 30, 40, 100);
    SampleSteps(100, 30, 40, 30);
    SampleSteps(100, 30, 40, 40);
    assert CeilDiv(100, 30) == 4 && CeilDiv(100, 40) == 3 && CeilDiv(40, 30) == 2;
  }

  /** Exact analysis of EXTI1 with interarrival times 100, 30, 40: the busy
      period grows 37, 67, 86, 94, 105 and passes the period 100. */
  lemma SampleExactLowest()
    ensures Solve(SampleProfiles(100, 30, 40), 0, 0) == Outcome(105, 68, true)
  {
    var ps := SampleProfiles(100, 30, 40);
    SampleSteps(100, 30, 40, 37);
    SampleSteps(100, 30, 40, 67);
    SampleSteps(100, 30, 40, 86);
    SampleSteps(100, 30, 40, 94);
    assert CeilDiv(37, 30) == 2 && CeilDiv(37, 40) == 1;
    assert CeilDiv(67, 30) == 3 && CeilDiv(67, 40) == 2;
    assert CeilDiv(86, 30) == 3 && CeilDiv(86, 40) == 3;
    assert CeilDiv(94, 30) == 4 && CeilDiv(94, 40) == 3;
    assert Iterate(ps, 0, 1) == 67;
    assert Iterate(ps, 0, 2) == 86;
    assert Iterate(ps, 0, 3) == 94;
    assert Iterate(ps, 0, 4) == 105;
    assert Solve(ps, 0, 3) == Solve(ps, 0, 4);
    assert Solve(ps, 0, 2) == Solve(ps, 0, 3);
    assert Solve(ps, 0, 1) == Solve(ps, 0, 2);
  }

  /** Exact analysis of EXTI2 and EXTI3 with interarrival times 100, 30, 40:
      EXTI2 stays at C + B = 21; EXTI3 grows 23, 34, 45 and misses 40. */
  lemma SampleExactUpper()
    ensures Solve(SampleProfiles(100, 30, 40), 1, 0) == Outcome(21, 0, false)
    ensures Solve(SampleProfiles(100, 30, 40), 2, 0) == Outcome(45, 22, true)
  {
    var ps := SampleProfiles(100, 30, 40);
    SampleSteps(100, 30, 40, 21);
    SampleSteps(100, 30, 40, 23);
    SampleSteps(100, 30, 40, 34);
    assert CeilDiv(23, 30) == 1 && CeilDiv(34, 30) == 2;
    assert Iterate(ps, 1, 1) == 21;
    assert Iterate(ps, 2, 1) == 34;
    assert Iterate(ps, 2, 2) == 45;
    assert Solve(ps, 2, 1) == Solve(ps, 2, 2);
  }

  /** With interarrival times 100, 40, 50 every task meets its deadline:
      R = 75, 21, 34. */
  lemma SampleExactRelaxed()
    ensures Solve(SampleProfiles(100, 40, 50), 0, 0) == Outcome(75, 38, false)
    ensures Solve(SampleProfiles(100, 40, 50), 1, 0) == Outcome(21, 0, false)
    ensures Solve(SampleProfiles(100, 40, 50), 2, 0) == Outcome(34, 11, false)
  {
    var ps := SampleProfiles(100, 40, 50);
    SampleSteps(100, 40, 50, 21);
    SampleSteps(100, 40, 50, 23);
    SampleSteps(100, 40, 50, 34);
    SampleSteps(100, 40, 50, 37);
    SampleSteps(100, 40, 50, 56);
    SampleSteps(100, 40, 50, 75);
    assert CeilDiv(23, 40) == 1 && CeilDiv(34, 40) == 1;
    assert CeilDiv(37, 40) == 1 && CeilDiv(37, 50) == 1;
    assert CeilDiv(56, 40) == 2 && CeilDiv(56, 50) == 2;
    assert CeilDiv(75, 40) == 2 && CeilDiv(75, 50) == 2;
    assert Iterate(ps, 0, 1) == 56;
    assert Iterate(ps, 0, 2) == 75;
    assert Iterate(ps, 0, 3) == 75;
    assert Solve(ps, 0, 1) == Solve(ps, 0, 2);
    assert Iterate(ps, 1, 1) == 21;
    assert Iterate(ps, 2, 1) == 34;
    assert Iterate(ps, 2, 2) == 34;
  }

  /** With interarrival times 80, 30, 40, EXTI1 misses at R = 86 and EXTI2
      and EXTI3 are as with 100, 30, 40. */
  lemma SampleExactTight()
    ensures Solve(SampleProfiles(80, 30, 40), 0, 0) == Outcome(86, 49, true)
    ensures Solve(SampleProfiles(80, 30, 40), 1, 0) == Outcome(21, 0, false)
    ensures Solve(SampleProfiles(80, 30, 40), 2, 0) == Outcome(45, 22, true)
  {
    var ps := SampleProfiles(80, 30, 40);
    SampleSteps(80, 30, 40, 21);
    SampleSteps(80, 30, 40, 23);
    SampleSteps(80, 30, 40, 34);
    SampleSteps(80, 30, 40, 37);
    SampleSteps(80, 30, 40, 67);
    assert CeilDiv(23, 30) == 1 && CeilDiv(34, 30) == 2;
    assert CeilDiv(37, 30) == 2 && CeilDiv(37, 40) == 1;
    assert CeilDiv(67, 30) == 3 && CeilDiv(67, 40) == 2;
    assert Iterate(ps, 0, 1) == 67;
    assert Iterate(ps, 0, 2) == 86;
    assert Solve(ps, 0, 1) == Solve(ps, 0, 2);
    assert Iterate(ps, 1, 1) == 21;
    assert Iterate(ps, 2, 1) == 34;
    assert Iterate(ps, 2, 2) == 45;
    assert Solve(ps, 2, 1) == Solve(ps, 2, 2);
  }
}

/**
  The sample measurement listed in the comments of gdb.py: EXTI1 measured
  twice with two nested claims, EXTI3 and EXTI2 once each.
 */
module Sample {

  import opened Wrappers
  import opened Trace
  import opened Claims

  const SampleTrace: seq<Event> := [
    Event("test000002.ktest", "EXTI1", 0, 1, Start),
    Event("test000002.ktest", "EXTI1", 15, 2, Enter),
    Event("test000002.ktest", "EXTI1", 19, 3, Enter),
    Event("test000002.ktest", "EXTI1", 28, 3, Exit),
    Event("test000002.ktest", "EXTI1", 29, 2, Exit),
    Event("test000002.ktest", "EXTI1", 36, 1, Finish),
    Event("test000003.ktest", "EXTI3", 0, 2, Start),
    Event("test000003.ktest", "EXTI3", 8, 2, Finish),
    Event("test000004.ktest", "EXTI2", 0, 3, Start),
    Event("test000004.ktest", "EXTI2", 11, 3, Finish),
    Event("test000005.ktest", "EXTI1", 0, 1, Start),
    Event("test000005.ktest", "EXTI1", 15, 2, Enter),
    Event("test000005.ktest", "EXTI1", 19, 3, Enter),
    Event("test000005.ktest", "EXTI1", 29, 3, Exit),
    Event("test000005.ktest", "EXTI1", 30, 2, Exit),
    Event("test000005.ktest", "EXTI1", 37, 1, Finish)
  ]

  /** The task table with interarrival times {100, 30, 40}. */
  const SampleTasks: seq<Task> := [Task("EXTI1", 1, 100), Task("EXTI2", 3, 30), Task("EXTI3", 2, 40)]

  /** The four claims of the sample, in trace order. */
  const SampleClaims: seq<Claim> :=
    [Claim("EXTI1", 3, 9), Claim("EXTI1", 2, 14), Claim("EXTI1", 3, 10), Claim("EXTI1", 2, 15)]

  /** The same claims had the second EXTI1 run been measured first. */
  const ReorderedClaims: seq<Claim> :=
    [Claim("EXTI1", 3, 10), Claim("EXTI1", 2, 15), Claim("EXTI1", 3, 9), Claim("EXTI1", 2, 14)]

  lemma SampleRuns()
    ensures ChainRuns(SampleTrace, 0, [2, 0, 0, 2])
  {
    var t := SampleTrace;
    assert t[0].kind == Start && t[1].kind == Enter && t[2].kind == Enter;
    assert t[3].kind == Exit && t[4].kind == Exit && t[5].kind == Finish;
    assert t[6].kind == Start && t[7].kind == Finish && t[8].kind == Start && t[9].kind == Finish;
    assert t[10].kind == Start && t[11].kind == Enter && t[12].kind == Enter;
    assert t[13].kind == Exit && t[14].kind == Exit && t[15].kind == Finish;
    RunsOfShape(t);
  }

  /** Any trace of the sample's shape: a run of depth 2, two flat runs, and
      another run of depth 2. */
  lemma RunsOfShape(t: seq<Event>)
    requires |t| == 16
    requires t[0].kind == Start && t[1].kind == Enter && t[2].kind == Enter
    requires t[3].kind == Exit && t[4].kind == Exit && t[5].kind == Finish
    requires t[6].kind == Start && t[7].kind == Finish && t[8].kind == Start && t[9].kind == Finish
    requires t[10].kind == Start && t[11].kind == Enter && t[12].kind == Enter
    requires t[13].kind == Exit && t[14].kind == Exit && t[15].kind == Finish
    requires t[5].cycles != 0 && t[7].cycles != 0 && t[9].cycles != 0 && t[15].cycles != 0
    ensures ChainRuns(t, 0, [2, 0, 0, 2])
  {
    assert ChainRunAt(t, 10, 2);
    assert ChainRuns(t, 10, [2]) by { assert [2][1..] == []; }
    assert ChainRunAt(t, 8, 0);
    assert ChainRuns(t, 8, [0, 2]) by { assert [0, 2][1..] == [2]; }
    assert ChainRunAt(t, 6, 0);
    assert ChainRuns(t, 6, [0, 0, 2]) by { assert [0, 0, 2][1..] == [0, 2]; }
    assert ChainRunAt(t, 0, 2);
    assert [2, 0, 0, 2][1..] == [0, 0, 2];
  }

  lemma SampleRunClaims()
    ensures RunClaims(SampleTrace, 0, 2) == [Claim("EXTI1", 3, 9), Claim("EXTI1", 2, 14)]
    ensures RunClaims(SampleTrace, 10, 2) == [Claim("EXTI1", 3, 10), Claim("EXTI1", 2, 15)]
  {
    var t := SampleTrace;
    var a, b := RunClaims(t, 0, 2), RunClaims(t, 10, 2);
    assert a[0] == ClaimOf(t[3], t[2]) && a[1] == ClaimOf(t[4], t[1]);
    assert b[0] == ClaimOf(t[13], t[12]) && b[1] == ClaimOf(t[14], t[11]);
  }

  lemma SampleChainClaims()
    ensures ChainClaims(SampleTrace, 0, [2, 0, 0, 2]) == SampleClaims
  {
    SampleRunClaims();
    ClaimsOfShape(SampleTrace);
  }

  /** In a trace of the sample's length, the runs of depths 2, 0, 0, 2 yield
      the claims of the first run followed by those of the last. */
  lemma ClaimsOfShape(t: seq<Event>)
    requires |t| == 16
    ensures ChainClaims(t, 0, [2, 0, 0, 2]) == RunClaims(t, 0, 2) + RunClaims(t, 10, 2)
  {
    assert [2, 0, 0, 2][1..] == [0, 0, 2] && [0, 0, 2][1..] == [0, 2] && [0, 2][1..] == [2] && [2][1..] == [];
    ChainClaimsStep(t, 0, [2, 0, 0, 2]);
    ChainClaimsStep(t, 6, [0, 0, 2]);
    ChainClaimsStep(t, 8, [0, 2]);
    ChainClaimsStep(t, 10, [2]);
  }

  /** The claims of a series of runs: those of the first run, then the rest. */
  lemma ChainClaimsStep(t: seq<Event>, p: nat, ds: seq<nat>)
    requires ds != [] && p + 2 * ds[0] + 2 <= |t|
    ensures ChainClaims(t, p, ds) == RunClaims(t, p, ds[0]) + ChainClaims(t, p + 2 * ds[0] + 2, ds[1..])
  {
  }

  /** Every run of the sample is one nested chain (depths 2, 0, 0, 2), and
      both pairings give the claim times 9, 14, 10 and 15. */
  lemma SampleClaimTimes()
    ensures OffsetScan(SampleTrace, 0, 1, []) == Some(SampleClaims)
    ensures StackScan(SampleTrace, 0, [], []) == Success(SampleClaims)
  {
    SampleRuns();
    SampleChainClaims();
    OffsetAgreesOnChains(SampleTrace, [2, 0, 0, 2]);
  }
}

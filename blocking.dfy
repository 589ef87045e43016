/**
  The blocking term B_i of the Stack Resource Policy: the longest claim held
  by a lower-priority task on a resource whose ceiling reaches P_i.
 */
module Blocking {

  import opened Wrappers
  import opened Trace
  import opened Claims
  import opened Sample

  // ---------------------------------------------------------------------------
  // As the source computes it
  // ---------------------------------------------------------------------------

  /** The source's test: a claim of another task whose level reaches the
      task's priority overwrites the task's blocking time. */
  predicate Overwrites(c: Claim, t: Task) {
    c.ceiling >= t.priority && c.task != t.name
  }

  /** Blocking as the source computes it: the duration of the LAST claim that
      passes the test, 0 if none does. */
  function BlockingAsWritten(cs: seq<Claim>, t: Task): (b: int)
    ensures b == 0 || exists k :: 0 <= k < |cs| && Overwrites(cs[k], t) && cs[k].duration == b
  {
    if cs == [] then 0
    else if Overwrites(cs[|cs| - 1], t) then cs[|cs| - 1].duration
    else BlockingAsWritten(cs[..|cs| - 1], t)
  }

  // ---------------------------------------------------------------------------
  // The blocking term as it is defined: a maximum over lower-priority claims
  // ---------------------------------------------------------------------------

  /** Claim c can block task ts[i]: its ceiling reaches P_i and it is held by
      another task of the table with a lower priority. */
  predicate Blocks(c: Claim, ts: seq<Task>, i: nat)
    requires i < |ts|
  {
    && c.ceiling >= ts[i].priority
    && c.task != ts[i].name
    && match PriorityOf(ts, c.task)
       case Some(p) => p < ts[i].priority
       case None => false
  }

  /** B_i: the longest claim that can block ts[i], 0 if there is none. */
  function Blocking(cs: seq<Claim>, ts: seq<Task>, i: nat): nat
    requires i < |ts|
  {
    if cs == [] then 0
    else
      var rest := Blocking(cs[..|cs| - 1], ts, i);
      var c := cs[|cs| - 1];
      if Blocks(c, ts, i) && c.duration > rest then c.duration else rest
  }

  /** B_i bounds every claim that can block ts[i] and, unless it is 0, is the
      duration of one of them. */
  lemma {:induction false} BlockingIsMax(cs: seq<Claim>, ts: seq<Task>, i: nat)
    requires i < |ts|
    ensures forall k :: 0 <= k < |cs| && Blocks(cs[k], ts, i) ==> cs[k].duration <= Blocking(cs, ts, i)
    ensures Blocking(cs, ts, i) == 0
         || exists k :: 0 <= k < |cs| && Blocks(cs[k], ts, i) && cs[k].duration == Blocking(cs, ts, i)
  {
    if cs != [] {
      var init := cs[..|cs| - 1];
      BlockingIsMax(init, ts, i);
      assert forall k :: 0 <= k < |init| ==> init[k] == cs[k];
    }
  }

  /** B_i does not depend on the order in which the claims were measured. */
  lemma BlockingIgnoresOrder(cs: seq<Claim>, ds: seq<Claim>, ts: seq<Task>, i: nat)
    requires i < |ts| && multiset(cs) == multiset(ds)
    ensures Blocking(cs, ts, i) == Blocking(ds, ts, i)
  {
    BlockingIsMax(cs, ts, i);
    BlockingIsMax(ds, ts, i);
    var bc, bd := Blocking(cs, ts, i), Blocking(ds, ts, i);
    if bc != 0 {
      var k :| 0 <= k < |cs| && Blocks(cs[k], ts, i) && cs[k].duration == bc;
      assert cs[k] in multiset(ds);
      var k' :| 0 <= k' < |ds| && ds[k'] == cs[k];
    }
    if bd != 0 {
      var k :| 0 <= k < |ds| && Blocks(ds[k], ts, i) && ds[k].duration == bd;
      assert ds[k] in multiset(cs);
      var k' :| 0 <= k' < |cs| && cs[k'] == ds[k];
    }
  }

  /** The lowest-priority task is never blocked. */
  lemma {:induction false} LowestPriorityNotBlocked(cs: seq<Claim>, ts: seq<Task>, i: nat)
    requires i < |ts|
    requires forall j :: 0 <= j < |ts| ==> ts[i].priority <= ts[j].priority
    ensures Blocking(cs, ts, i) == 0
  {
    if cs != [] {
      LowestPriorityNotBlocked(cs[..|cs| - 1], ts, i);
      assert !Blocks(cs[|cs| - 1], ts, i);
    }
  }

  /** The blocking-time loop: every claim raises B of each task it can block
      to at least its duration. */
  method BlockingTimes(cs: seq<Claim>, ts: seq<Task>) returns (b: seq<nat>)
    ensures |b| == |ts|
    ensures forall j :: 0 <= j < |ts| ==> b[j] == Blocking(cs, ts, j)
  {
    b := seq(|ts|, _ => 0);
    var k := 0;
    while k < |cs|
      invariant 0 <= k <= |cs|
      invariant |b| == |ts|
      invariant forall j :: 0 <= j < |ts| ==> b[j] == Blocking(cs[..k], ts, j)
    {
      var c := cs[k];
      assert cs[..k + 1][..k] == cs[..k];
      var j := 0;
      while j < |ts|
        invariant 0 <= j <= |ts|
        invariant |b| == |ts|
        invariant forall m :: 0 <= m < j ==> b[m] == Blocking(cs[..k + 1], ts, m)
        invariant forall m :: j <= m < |ts| ==> b[m] == Blocking(cs[..k], ts, m)
      {
        if Blocks(c, ts, j) && c.duration > b[j] {
          b := b[j := c.duration];
        }
        j := j + 1;
      }
      k := k + 1;
    }
    assert cs[..|cs|] == cs;
  }

  // ---------------------------------------------------------------------------
  // Where the two differ
  // ---------------------------------------------------------------------------

  /** On the sample both rules give B_EXTI1 = 0, B_EXTI2 = 10, B_EXTI3 = 15. */
  lemma SampleBlocking()
    ensures BlockingAsWritten(SampleClaims, SampleTasks[0]) == 0
    ensures BlockingAsWritten(SampleClaims, SampleTasks[1]) == 10
    ensures BlockingAsWritten(SampleClaims, SampleTasks[2]) == 15
    ensures Blocking(SampleClaims, SampleTasks, 0) == 0
    ensures Blocking(SampleClaims, SampleTasks, 1) == 10
    ensures Blocking(SampleClaims, SampleTasks, 2) == 15
  {
    var cs, ts := SampleClaims, SampleTasks;
    assert PriorityOf(ts, "EXTI1") == Some(1);
    assert forall k :: 0 <= k < |cs| ==> !Overwrites(cs[k], ts[0]) && !Blocks(cs[k], ts, 0);
    NothingOverwrites(cs, ts[0]);
    assert !Overwrites(cs[3], ts[1]) && cs[..3][2] == cs[2];
    assert forall k :: 0 <= k < |cs| && Blocks(cs[k], ts, 1) ==> cs[k].duration <= 10;
    assert forall k :: 0 <= k < |cs| ==> cs[k].duration <= 15;
    assert Blocks(cs[2], ts, 1) && Blocks(cs[3], ts, 2);
    BlockingIsMax(cs, ts, 0);
    BlockingIsMax(cs, ts, 1);
    BlockingIsMax(cs, ts, 2);
  }

  /** When no claim passes the source's test, its blocking time stays 0. */
  lemma {:induction false} NothingOverwrites(cs: seq<Claim>, t: Task)
    requires forall k :: 0 <= k < |cs| ==> !Overwrites(cs[k], t)
    ensures BlockingAsWritten(cs, t) == 0
  {
    if cs != [] {
      var init := cs[..|cs| - 1];
      assert forall k :: 0 <= k < |init| ==> init[k] == cs[k];
      NothingOverwrites(init, t);
    }
  }

  /** Each passing claim overwrites the blocking time, so the source reports
      the duration of the last claim that passes its test. */
  lemma {:induction false} BlockingAsWrittenIsLast(cs: seq<Claim>, t: Task, k: nat)
    requires k < |cs| && Overwrites(cs[k], t)
    requires forall q :: k < q < |cs| ==> !Overwrites(cs[q], t)
    ensures BlockingAsWritten(cs, t) == cs[k].duration
  {
    if k < |cs| - 1 {
      var init := cs[..|cs| - 1];
      assert forall q :: 0 <= q < |init| ==> init[q] == cs[q];
      BlockingAsWrittenIsLast(init, t, k);
    }
  }

  /** Had the second EXTI1 run been measured first, the source would report
      B_EXTI2 = 9: the last claim of ceiling 3, not the longest. */
  lemma LastClaimWinsDependsOnOrder()
    ensures BlockingAsWritten(ReorderedClaims, SampleTasks[1]) == 9
    ensures Blocking(ReorderedClaims, SampleTasks, 1) == 10
  {
    var cs := ReorderedClaims;
    assert cs[..3] == [Claim("EXTI1", 3, 10), Claim("EXTI1", 2, 15), Claim("EXTI1", 3, 9)];
    assert cs[..3][..2] == [Claim("EXTI1", 3, 10), Claim("EXTI1", 2, 15)];
    assert cs[..3][..2][..1] == [Claim("EXTI1", 3, 10)];
    assert cs[..3][..2][..1][..0] == [];
    assert PriorityOf(SampleTasks, "EXTI1") == Some(1);
    assert multiset(cs) == multiset(SampleClaims);
    BlockingIgnoresOrder(cs, SampleClaims, SampleTasks, 1);
    SampleBlocking();
  }

  /** A claim of EXTI2 (priority 3) on a ceiling-3 resource is counted by the
      source as blocking EXTI3 (priority 2), although EXTI2 preempts EXTI3. */
  lemma HigherPriorityClaimCounted()
    ensures BlockingAsWritten([Claim("EXTI2", 3, 5)], SampleTasks[2]) == 5
    ensures Blocking([Claim("EXTI2", 3, 5)], SampleTasks, 2) == 0
  {
    assert [Claim("EXTI2", 3, 5)][..0] == [];
    assert PriorityOf(SampleTasks, "EXTI2") == Some(3);
  }
}

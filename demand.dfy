/**
  Worst-case execution times read from the trace and the total utilization
  factor U = sum of C/T over the task table (`compute_cpu_demand`).
 */
module Demand {

  import opened Trace

  /** WCET of task `name`: the timestamp of the last timed `Finish` record of
      that task, 0 when the trace has none. */
  function Wcet(trace: seq<Event>, name: string): nat
  {
    if trace == [] then 0
    else if IsTimedFinish(trace[|trace| - 1], name) then trace[|trace| - 1].cycles
    else Wcet(trace[..|trace| - 1], name)
  }

  /** A task has WCET 0 exactly when the trace holds no timed `Finish` for it. */
  lemma {:induction false} WcetZeroIffNoFinish(trace: seq<Event>, name: string)
    ensures Wcet(trace, name) == 0 <==> forall k :: 0 <= k < |trace| ==> !IsTimedFinish(trace[k], name)
  {
    if trace != [] {
      var init := trace[..|trace| - 1];
      WcetZeroIffNoFinish(init, name);
      assert forall k :: 0 <= k < |init| ==> init[k] == trace[k];
    }
  }

  /** The WCET is the timestamp of the last timed `Finish` of the task: later
      measurements overwrite earlier ones. */
  lemma {:induction false} WcetIsLastFinish(trace: seq<Event>, name: string, k: nat)
    requires k < |trace| && IsTimedFinish(trace[k], name)
    requires forall q :: k < q < |trace| ==> !IsTimedFinish(trace[q], name)
    ensures Wcet(trace, name) == trace[k].cycles
  {
    if k < |trace| - 1 {
      var init := trace[..|trace| - 1];
      assert forall q :: 0 <= q < |init| ==> init[q] == trace[q];
      WcetIsLastFinish(init, name, k);
    }
  }

  /** The WCET column for a task table, in table order. */
  function Wcets(trace: seq<Event>, ts: seq<Task>): seq<nat>
  {
    seq(|ts|, j requires 0 <= j < |ts| => Wcet(trace, ts[j].name))
  }

  /**
    The "Find WCET" scan: for every timed `Finish` record, every table entry of
    that task takes the record's timestamp.
   */
  method ExtractWcets(trace: seq<Event>, ts: seq<Task>) returns (c: seq<nat>)
    ensures |c| == |ts|
    ensures forall j :: 0 <= j < |ts| ==> c[j] == Wcet(trace, ts[j].name)
  {
    c := seq(|ts|, _ => 0);
    var k := 0;
    while k < |trace|
      invariant 0 <= k <= |trace|
      invariant |c| == |ts|
      invariant forall j :: 0 <= j < |ts| ==> c[j] == Wcet(trace[..k], ts[j].name)
    {
      var e := trace[k];
      assert trace[..k + 1][..k] == trace[..k];
      if e.kind == Finish && e.cycles != 0 {
        var j := 0;
        while j < |ts|
          invariant 0 <= j <= |ts|
          invariant |c| == |ts|
          invariant forall m :: 0 <= m < j ==> c[m] == Wcet(trace[..k + 1], ts[m].name)
          invariant forall m :: j <= m < |ts| ==> c[m] == Wcet(trace[..k], ts[m].name)
        {
          if ts[j].name == e.task {
            c := c[j := e.cycles];
          }
          j := j + 1;
        }
      }
      k := k + 1;
    }
    assert trace[..|trace|] == trace;
  }

  /** The demand of one task: its WCET and its period. */
  datatype Load = Load(wcet: nat, period: int)

  predicate PositiveLoads(ls: seq<Load>) {
    forall j :: 0 <= j < |ls| ==> ls[j].period > 0
  }

  /** C/T of one task, as an exact rational. */
  function Ratio(l: Load): real
    requires l.period > 0
  {
    l.wcet as real / l.period as real
  }

  /** Total utilization factor U = sum of C_i/T_i. */
  function Utilization(ls: seq<Load>): real
    requires PositiveLoads(ls)
  {
    if ls == [] then 0.0 else Utilization(ls[..|ls| - 1]) + Ratio(ls[|ls| - 1])
  }

  /** The loads of a task table, in table order. */
  function Loads(trace: seq<Event>, ts: seq<Task>): (ls: seq<Load>)
    requires PositivePeriods(ts)
    ensures PositiveLoads(ls)
  {
    seq(|ts|, j requires 0 <= j < |ts| => Load(Wcet(trace, ts[j].name), ts[j].period))
  }

  /** Utilization adds up over a split of the task table. */
  lemma {:induction false} UtilizationAppend(a: seq<Load>, b: seq<Load>)
    requires PositiveLoads(a) && PositiveLoads(b)
    ensures PositiveLoads(a + b)
    ensures Utilization(a + b) == Utilization(a) + Utilization(b)
    decreases |b|
  {
    assert PositiveLoads(a + b) by {
      forall j | 0 <= j < |a + b| ensures (a + b)[j].period > 0 {
        if j >= |a| { assert (a + b)[j] == b[j - |a|]; }
      }
    }
    if b == [] {
      assert a + b == a;
    } else {
      var b' := b[..|b| - 1];
      assert (a + b)[..|a + b| - 1] == a + b';
      assert (a + b)[|a + b| - 1] == b[|b| - 1];
      UtilizationAppend(a, b');
    }
  }

  /** Removing one task from the table removes exactly its ratio. */
  lemma UtilizationRemove(b: seq<Load>, k: nat)
    requires PositiveLoads(b) && k < |b|
    ensures PositiveLoads(b[..k] + b[k + 1..])
    ensures Utilization(b) == Utilization(b[..k] + b[k + 1..]) + Ratio(b[k])
  {
    var x, front, back := b[k], b[..k], b[k + 1..];
    assert b == front + [x] + back;
    assert Utilization([x]) == Ratio(x) by {
      assert [x][..0] == [];
    }
    UtilizationAppend(front, [x]);
    UtilizationAppend(front + [x], back);
    UtilizationAppend(front, back);
  }

  /** Dropping the same element from two permutations of each other leaves
      permutations of each other. */
  lemma DropMatching(a: seq<Load>, b: seq<Load>, k: nat)
    requires |a| > 0 && k < |b| && b[k] == a[|a| - 1]
    requires multiset(a) == multiset(b)
    ensures multiset(a[..|a| - 1]) == multiset(b[..k] + b[k + 1..])
  {
    var x := b[k];
    var a', b' := a[..|a| - 1], b[..k] + b[k + 1..];
    assert a == a' + [x];
    assert b == b[..k] + [x] + b[k + 1..];
    assert multiset(a) == multiset(a') + multiset{x};
    assert multiset(b) == multiset(b') + multiset{x};
    forall y ensures multiset(a')[y] == multiset(b')[y] {
      assert multiset(a)[y] == multiset(a')[y] + multiset{x}[y];
      assert multiset(b)[y] == multiset(b')[y] + multiset{x}[y];
    }
  }

  /** Utilization does not depend on the order of the table (the source sums
      over the table sorted by name). */
  lemma {:induction false} UtilizationPermutation(a: seq<Load>, b: seq<Load>)
    requires PositiveLoads(a) && PositiveLoads(b)
    requires multiset(a) == multiset(b)
    ensures Utilization(a) == Utilization(b)
    decreases |a|
  {
    if a == [] {
      assert |b| == |multiset(b)| == 0;
    } else {
      var x := a[|a| - 1];
      assert x in multiset(a);
      var k :| 0 <= k < |b| && b[k] == x;
      DropMatching(a, b, k);
      UtilizationRemove(b, k);
      UtilizationPermutation(a[..|a| - 1], b[..k] + b[k + 1..]);
    }
  }

  /** Utilization of the sample task set, C = {37, 11, 8} and T = {100, 30, 40}. */
  lemma SampleUtilization()
    ensures Utilization([Load(37, 100), Load(11, 30), Load(8, 40)]) == 281.0 / 300.0
  {
    var ls := [Load(37, 100), Load(11, 30), Load(8, 40)];
    assert ls[..2] == [Load(37, 100), Load(11, 30)];
    assert ls[..2][..1] == [Load(37, 100)];
    assert ls[..2][..1][..0] == [];
    assert Utilization(ls[..2][..1]) == 37.0 / 100.0;
    assert Utilization(ls[..2]) == 37.0 / 100.0 + 11.0 / 30.0;
  }

  /**
    `compute_cpu_demand`: the WCET of every task, then the sum of C/T over the
    table.
   */
  method ComputeCpuDemand(trace: seq<Event>, ts: seq<Task>) returns (u: real)
    requires PositivePeriods(ts)
    ensures u == Utilization(Loads(trace, ts))
  {
    var c := ExtractWcets(trace, ts);
    ghost var ls := Loads(trace, ts);
    u := 0.0;
    var j := 0;
    while j < |ts|
      invariant 0 <= j <= |ts|
      invariant PositiveLoads(ls[..j])
      invariant u == Utilization(ls[..j])
    {
      assert ls[..j + 1][..j] == ls[..j];
      u := u + c[j] as real / ts[j].period as real;
      j := j + 1;
    }
    assert ls[..|ts|] == ls;
  }
}

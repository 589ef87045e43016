/**
  The one-shot response-time estimate R_i = C_i + B_i + I_i, where I_i counts
  ceil(T_i / T_j) releases of every strictly higher-priority task j.
 */
module Response {

  /** One entry of the analysis list: a task with its measured WCET (C) and
      blocking term (B). */
  datatype Profile = Profile(name: string, priority: int, period: int, wcet: nat, blocking: nat)

  predicate ValidProfiles(ps: seq<Profile>) {
    forall j :: 0 <= j < |ps| ==> ps[j].period > 0
  }

  /** ceil(a / b) on integers, for a positive divisor: the least q with a <= q * b. */
  function CeilDiv(a: int, b: int): (q: int)
    requires b > 0
    ensures (q - 1) * b < a <= q * b
  {
    (a + b - 1) / b
  }

  lemma CeilDivMonotone(a: int, a': int, b: int)
    requires b > 0 && a <= a'
    ensures CeilDiv(a, b) <= CeilDiv(a', b)
  {
    var q, q' := CeilDiv(a, b), CeilDiv(a', b);
    MulCancel(q - 1, q', b);
  }

  /** A product with a positive factor keeps the order of the other factor. */
  lemma MulCancel(x: int, y: int, b: int)
    requires b > 0 && x * b < y * b
    ensures x < y
  {
    assert (x - y) * b == x * b - y * b;
    MulNonNegative(x - y, b);
  }

  lemma MulNonNegative(k: int, b: int)
    requires b >= 0
    ensures k >= 0 ==> k * b >= 0
  {
  }

  /** The tasks of ps with a priority strictly above `prio`, in order. */
  function Higher(ps: seq<Profile>, prio: int): (hs: seq<Profile>)
    ensures ValidProfiles(ps) ==> ValidProfiles(hs)
  {
    if ps == [] then []
    else
      var last := ps[|ps| - 1];
      Higher(ps[..|ps| - 1], prio) + (if last.priority > prio then [last] else [])
  }

  /** Higher keeps exactly the tasks above `prio`. */
  lemma {:induction false} HigherMembers(ps: seq<Profile>, prio: int)
    ensures forall h :: h in Higher(ps, prio) <==> h in ps && h.priority > prio
  {
    if ps != [] {
      var init := ps[..|ps| - 1];
      HigherMembers(init, prio);
      assert ps == init + [ps[|ps| - 1]];
    }
  }

  /** The work released by the tasks of ps within a window of length w:
      the sum of ceil(w / T_j) * C_j. */
  function WindowDemand(ps: seq<Profile>, w: int): int
    requires ValidProfiles(ps)
  {
    if ps == [] then 0
    else
      var last := ps[|ps| - 1];
      WindowDemand(ps[..|ps| - 1], w) + CeilDiv(w, last.period) * last.wcet
  }

  /** Interference within a window of length w from the tasks above `prio`. */
  function HigherDemand(ps: seq<Profile>, prio: int, w: int): int
    requires ValidProfiles(ps)
  {
    WindowDemand(Higher(ps, prio), w)
  }

  lemma {:induction false} WindowDemandNonNegative(ps: seq<Profile>, w: int)
    requires ValidProfiles(ps) && w >= 0
    ensures WindowDemand(ps, w) >= 0
  {
    if ps != [] {
      WindowDemandNonNegative(ps[..|ps| - 1], w);
      var last := ps[|ps| - 1];
      assert CeilDiv(w, last.period) >= 0 by {
        assert CeilDiv(w, last.period) * last.period >= 0;
      }
    }
  }

  /** A longer window never holds less work. */
  lemma {:induction false} WindowDemandMonotone(ps: seq<Profile>, w: int, w': int)
    requires ValidProfiles(ps) && w <= w'
    ensures WindowDemand(ps, w) <= WindowDemand(ps, w')
  {
    if ps != [] {
      WindowDemandMonotone(ps[..|ps| - 1], w, w');
      var last := ps[|ps| - 1];
      CeilDivMonotone(w, w', last.period);
      var q, q' := CeilDiv(w, last.period), CeilDiv(w', last.period);
      assert q * last.wcet <= q' * last.wcet by {
        assert (q' - q) * last.wcet == q' * last.wcet - q * last.wcet;
        MulNonNegative(q' - q, last.wcet);
      }
    }
  }

  /** Adding a task to the table adds its releases if it is above `prio`. */
  lemma HigherDemandSnoc(ps: seq<Profile>, x: Profile, prio: int, w: int)
    requires ValidProfiles(ps) && x.period > 0
    ensures ValidProfiles(ps + [x])
    ensures HigherDemand(ps + [x], prio, w)
         == HigherDemand(ps, prio, w) + (if x.priority > prio then CeilDiv(w, x.period) * x.wcet else 0)
  {
    var ps' := ps + [x];
    assert ps'[..|ps'| - 1] == ps;
    assert ps'[|ps'| - 1] == x;
    var hs := Higher(ps, prio);
    if x.priority > prio {
      assert Higher(ps', prio) == hs + [x];
      assert (hs + [x])[..|hs|] == hs;
    } else {
      assert Higher(ps', prio) == hs + [];
      assert hs + [] == hs;
    }
  }

  /** A task with no task above it suffers no interference. */
  lemma {:induction false} NoHigherNoInterference(ps: seq<Profile>, prio: int, w: int)
    requires ValidProfiles(ps)
    requires forall j :: 0 <= j < |ps| ==> ps[j].priority <= prio
    ensures Higher(ps, prio) == []
    ensures HigherDemand(ps, prio, w) == 0
  {
    if ps != [] {
      NoHigherNoInterference(ps[..|ps| - 1], prio, w);
    }
  }

  /** The tasks before position i of a table sorted by strictly decreasing
      priority are exactly the tasks of higher priority. */
  lemma {:induction false} PrefixIsHigher(ps: seq<Profile>, i: nat)
    requires i < |ps|
    requires forall j, k :: 0 <= j < k < |ps| ==> ps[j].priority > ps[k].priority
    ensures Higher(ps, ps[i].priority) == ps[..i]
    decreases |ps|
  {
    var init, last := ps[..|ps| - 1], ps[|ps| - 1];
    if i == |ps| - 1 {
      if init != [] {
        PrefixIsHigherAll(init, last.priority);
      } else {
        assert Higher(init, last.priority) == [];
      }
      assert ps[..i] == init;
    } else {
      assert init[i] == ps[i];
      PrefixIsHigher(init, i);
      assert init[..i] == ps[..i];
    }
  }

  /** When every task is above `prio`, Higher keeps them all. */
  lemma {:induction false} PrefixIsHigherAll(ps: seq<Profile>, prio: int)
    requires forall j :: 0 <= j < |ps| ==> ps[j].priority > prio
    ensures Higher(ps, prio) == ps
  {
    if ps != [] {
      var init := ps[..|ps| - 1];
      PrefixIsHigherAll(init, prio);
      assert ps == init + [ps[|ps| - 1]];
    }
  }

  /** The one-shot breakdown reported for one task. */
  datatype Estimate = Estimate(wcet: nat, blocking: nat, interference: int, response: int)

  /** Interference within the task's own period, R = C + B + I. */
  function OneShot(ps: seq<Profile>, i: nat): (e: Estimate)
    requires ValidProfiles(ps) && i < |ps|
    ensures e.wcet == ps[i].wcet && e.blocking == ps[i].blocking
    ensures e.interference >= 0 && e.response >= ps[i].wcet + ps[i].blocking
  {
    var p := ps[i];
    WindowDemandNonNegative(Higher(ps, p.priority), p.period);
    var interference := HigherDemand(ps, p.priority, p.period);
    Estimate(p.wcet, p.blocking, interference, p.wcet + p.blocking + interference)
  }

  /** With no higher-priority task, R is C + B exactly. */
  lemma OneShotOfHighest(ps: seq<Profile>, i: nat)
    requires ValidProfiles(ps) && i < |ps|
    requires forall j :: 0 <= j < |ps| ==> ps[j].priority <= ps[i].priority
    ensures OneShot(ps, i).interference == 0
    ensures OneShot(ps, i).response == ps[i].wcet + ps[i].blocking
  {
    NoHigherNoInterference(ps, ps[i].priority, ps[i].period);
  }

  /** The inner loop of both analyses: the sum of ceil(w / T_j) * C_j over
      the tasks j whose priority is strictly above `prio`. */
  method HigherDemandLoop(ps: seq<Profile>, prio: int, w: int) returns (total: int)
    requires ValidProfiles(ps)
    ensures total == HigherDemand(ps, prio, w)
  {
    total := 0;
    var j := 0;
    while j < |ps|
      invariant 0 <= j <= |ps|
      invariant total == HigherDemand(ps[..j], prio, w)
    {
      assert ps[..j + 1] == ps[..j] + [ps[j]];
      HigherDemandSnoc(ps[..j], ps[j], prio, w);
      if prio < ps[j].priority {
        total := total + CeilDiv(w, ps[j].period) * ps[j].wcet;
      }
      j := j + 1;
    }
    assert ps[..|ps|] == ps;
  }

  /** The response-time loop: for every task, the sum of ceil(T_i / T_j) * C_j
      over the tasks j of strictly higher priority, then R = C + B + I. */
  method ResponseTimes(ps: seq<Profile>) returns (es: seq<Estimate>)
    requires ValidProfiles(ps)
    ensures |es| == |ps|
    ensures forall i :: 0 <= i < |ps| ==> es[i] == OneShot(ps, i)
  {
    es := [];
    var i := 0;
    while i < |ps|
      invariant 0 <= i <= |ps|
      invariant |es| == i
      invariant forall m :: 0 <= m < i ==> es[m] == OneShot(ps, m)
    {
      var p := ps[i];
      var interference := HigherDemandLoop(ps, p.priority, p.period);
      var e := Estimate(p.wcet, p.blocking, interference, p.wcet + p.blocking + interference);
      assert e == OneShot(ps, i);
      es := es + [e];
      i := i + 1;
    }
  }
}

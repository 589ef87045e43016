/**
  The in-memory trace `outputdata` and the task table (`tasks`, `priorities`,
  `interarrival`) that the schedulability analysis reads.
 */
module Trace {

  import opened Wrappers

  /** The fifth field of a trace record. */
  datatype Kind = Start | Enter | Exit | Finish

  /**
    One trace record: the ktest file of the run, the task, the cycle count since
    the task was called (the counter is reset before each call), the level
    (the resource ceiling for Enter/Exit, the task priority for Start/Finish)
    and the kind.
   */
  datatype Event = Event(run: string, task: string, cycles: nat, level: int, kind: Kind)

  /** A row of the task table. A larger priority number is a higher priority. */
  datatype Task = Task(name: string, priority: int, period: int)

  /** A `Finish` record of task `name` that counts as a measurement (a zero
      timestamp marks a skipped run). */
  predicate IsTimedFinish(e: Event, name: string) {
    e.kind == Finish && e.cycles != 0 && e.task == name
  }

  /** Every period is positive (a zero period divides by zero in the source). */
  predicate PositivePeriods(ts: seq<Task>) {
    forall j :: 0 <= j < |ts| ==> ts[j].period > 0
  }

  /** No two tasks share a static priority (unsupported by the analysis). */
  predicate DistinctPriorities(ts: seq<Task>) {
    forall j, k :: 0 <= j < k < |ts| ==> ts[j].priority != ts[k].priority
  }

  /** The task table the analyses accept. */
  predicate ValidTable(ts: seq<Task>) {
    PositivePeriods(ts) && DistinctPriorities(ts)
  }

  /** Priority of the first task called `name`, if any. */
  function PriorityOf(ts: seq<Task>, name: string): (r: Option<int>)
    ensures r.Some? <==> exists j :: 0 <= j < |ts| && ts[j].name == name
    ensures r.Some? ==> exists j :: 0 <= j < |ts| && ts[j].name == name && ts[j].priority == r.value
  {
    if ts == [] then None
    else if ts[0].name == name then Some(ts[0].priority)
    else
      var r := PriorityOf(ts[1..], name);
      assert forall j :: 1 <= j < |ts| ==> ts[j] == ts[1..][j - 1];
      r
  }
}

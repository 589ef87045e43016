/**
  Pairing every `Exit` record with the `Enter` record that opened the same
  resource claim, giving the claim durations from which blocking is computed.
 */
module Claims {

  import opened Wrappers
  import opened Trace

  /** A closed resource claim: the task that held it, the level recorded at
      its `Exit` (the resource ceiling) and how long it was held. */
  datatype Claim = Claim(task: string, ceiling: int, duration: int)

  /** The claim closed by `exit` and opened by `enter`. */
  function ClaimOf(exit: Event, enter: Event): Claim {
    Claim(exit.task, exit.level, exit.cycles - enter.cycles)
  }

  /** Python's `s[k]` for `k < |s|`: a negative index counts from the end, one
      below `-|s|` raises IndexError (None). */
  function PyIndex(s: seq<Event>, k: int): Option<Event> {
    if 0 <= k < |s| then Some(s[k])
    else if -|s| <= k < 0 then Some(s[|s| + k])
    else None
  }

  // ---------------------------------------------------------------------------
  // Pairing through the `offset` counter, as the source does it
  // ---------------------------------------------------------------------------

  /**
    The offset scan from record `k` on, with the counter at `offset` and the
    claims `acc` already closed: an `Exit` at index k is paired with the record
    at `k - offset` and adds 2 to the counter; a timed `Finish` resets the
    counter to 1. None is the IndexError of an out-of-range index.
   */
  function OffsetScan(t: seq<Event>, k: nat, offset: int, acc: seq<Claim>): Option<seq<Claim>>
    requires k <= |t|
    decreases |t| - k
  {
    if k == |t| then Some(acc)
    else if t[k].kind == Exit then
      match PyIndex(t, k - offset)
      case None => None
      case Some(enter) => OffsetScan(t, k + 1, offset + 2, acc + [ClaimOf(t[k], enter)])
    else if t[k].kind == Finish && t[k].cycles != 0 then OffsetScan(t, k + 1, 1, acc)
    else OffsetScan(t, k + 1, offset, acc)
  }

  /** The claim-time loop run once all ktest files are done. */
  method PairByOffset(t: seq<Event>) returns (r: Option<seq<Claim>>)
    ensures r == OffsetScan(t, 0, 1, [])
  {
    var offset := 1;
    var claims: seq<Claim> := [];
    var k := 0;
    while k < |t|
      invariant 0 <= k <= |t|
      invariant OffsetScan(t, 0, 1, []) == OffsetScan(t, k, offset, claims)
    {
      var e := t[k];
      if e.kind == Exit {
        var enter := PyIndex(t, k - offset);
        if enter.None? {
          return None;
        }
        claims := claims + [ClaimOf(e, enter.value)];
        offset := offset + 2;
      } else if e.kind == Finish && e.cycles != 0 {
        offset := 1;
      }
      k := k + 1;
    }
    r := Some(claims);
  }

  // ---------------------------------------------------------------------------
  // Pairing through a stack of open claims
  // ---------------------------------------------------------------------------

  /** Inconsistent traces: an `Exit` with no open claim, or claims left open
      at a `Finish` (or at the end of the trace). */
  datatype TraceError = UnmatchedExit(at: nat) | UnclosedClaim(at: nat)

  /** Indices of the open `Enter` records, all before position k. */
  predicate OpenBefore(open: seq<nat>, k: nat) {
    forall q :: 0 <= q < |open| ==> open[q] < k
  }

  /**
    Stack pairing from record `k` on, with the open `Enter` indices `open`
    (innermost last) and the claims `acc` already closed: an `Enter` is
    pushed, an `Exit` closes the innermost open claim.
   */
  function StackScan(t: seq<Event>, k: nat, open: seq<nat>, acc: seq<Claim>): Result<seq<Claim>, TraceError>
    requires k <= |t| && OpenBefore(open, k)
    decreases |t| - k
  {
    if k == |t| then
      if open == [] then Success(acc) else Failure(UnclosedClaim(k))
    else
      match t[k].kind
      case Start => StackScan(t, k + 1, open, acc)
      case Enter => StackScan(t, k + 1, open + [k], acc)
      case Exit =>
        if open == [] then Failure(UnmatchedExit(k))
        else StackScan(t, k + 1, open[..|open| - 1], acc + [ClaimOf(t[k], t[open[|open| - 1]])])
      case Finish =>
        if open != [] then Failure(UnclosedClaim(k)) else StackScan(t, k + 1, [], acc)
  }

  /** The claims of a trace under LIFO pairing, in the order of their `Exit`s. */
  method PairClaims(t: seq<Event>) returns (r: Result<seq<Claim>, TraceError>)
    ensures r == StackScan(t, 0, [], [])
  {
    var open: seq<nat> := [];
    var claims: seq<Claim> := [];
    var k := 0;
    while k < |t|
      invariant 0 <= k <= |t|
      invariant OpenBefore(open, k)
      invariant StackScan(t, 0, [], []) == StackScan(t, k, open, claims)
    {
      var e := t[k];
      match e.kind {
        case Start =>
        case Enter =>
          open := open + [k];
        case Exit =>
          if open == [] {
            return Failure(UnmatchedExit(k));
          }
          claims := claims + [ClaimOf(e, t[open[|open| - 1]])];
          open := open[..|open| - 1];
        case Finish =>
          if open != [] {
            return Failure(UnclosedClaim(k));
          }
      }
      k := k + 1;
    }
    if open != [] {
      return Failure(UnclosedClaim(k));
    }
    r := Success(claims);
  }

  // ---------------------------------------------------------------------------
  // On runs whose claims form one nested chain, both pairings agree
  // ---------------------------------------------------------------------------

  /** The run at p is a `Start`, n `Enter`s, n `Exit`s and a timed `Finish`:
      its claims are nested one inside the other. */
  predicate ChainRunAt(t: seq<Event>, p: nat, n: nat) {
    && p + 2 * n + 2 <= |t|
    && t[p].kind == Start
    && (forall q :: p < q <= p + n ==> t[q].kind == Enter)
    && (forall q :: p + n < q <= p + 2 * n ==> t[q].kind == Exit)
    && t[p + 2 * n + 1].kind == Finish && t[p + 2 * n + 1].cycles != 0
  }

  /** From p on, the trace is a series of chain runs of the given depths. */
  predicate ChainRuns(t: seq<Event>, p: nat, depths: seq<nat>)
    decreases depths
  {
    if depths == [] then p == |t|
    else ChainRunAt(t, p, depths[0]) && ChainRuns(t, p + 2 * depths[0] + 2, depths[1..])
  }

  /** LIFO pairing of a chain run at p of depth n: the m-th `Exit` closes the
      (n-1-m)-th `Enter`. */
  function RunClaims(t: seq<Event>, p: nat, n: nat): (cs: seq<Claim>)
    requires p + 2 * n + 2 <= |t|
    ensures |cs| == n
  {
    seq(n, m requires 0 <= m < n => ClaimOf(t[p + n + 1 + m], t[p + n - m]))
  }

  /** The claims of a series of chain runs, run after run. */
  function ChainClaims(t: seq<Event>, p: nat, depths: seq<nat>): seq<Claim>
    decreases depths
  {
    if depths == [] || |t| < p + 2 * depths[0] + 2 then []
    else RunClaims(t, p, depths[0]) + ChainClaims(t, p + 2 * depths[0] + 2, depths[1..])
  }

  lemma {:induction false} OffsetSkipsEnters(t: seq<Event>, p: nat, n: nat, q: nat, offset: int, acc: seq<Claim>)
    requires ChainRunAt(t, p, n) && p < q <= p + n + 1
    ensures OffsetScan(t, q, offset, acc) == OffsetScan(t, p + n + 1, offset, acc)
    decreases p + n + 1 - q
  {
    if q < p + n + 1 {
      OffsetSkipsEnters(t, p, n, q + 1, offset, acc);
    }
  }

  lemma {:induction false} OffsetPairsExits(t: seq<Event>, p: nat, n: nat, m: nat, acc: seq<Claim>)
    requires ChainRunAt(t, p, n) && m <= n
    ensures OffsetScan(t, p + n + 1 + m, 1 + 2 * m, acc + RunClaims(t, p, n)[..m])
         == OffsetScan(t, p + 2 * n + 1, 1 + 2 * n, acc + RunClaims(t, p, n))
    decreases n - m
  {
    var rc := RunClaims(t, p, n);
    if m < n {
      var k := p + n + 1 + m;
      assert t[k].kind == Exit;
      assert PyIndex(t, k - (1 + 2 * m)) == Some(t[p + n - m]);
      assert (acc + rc[..m]) + [rc[m]] == acc + rc[..m + 1];
      OffsetPairsExits(t, p, n, m + 1, acc);
    } else {
      assert rc[..n] == rc;
    }
  }

  /** The offset scan over one chain run closes exactly its LIFO claims and
      leaves the counter at 1. */
  lemma OffsetRun(t: seq<Event>, p: nat, n: nat, acc: seq<Claim>)
    requires ChainRunAt(t, p, n)
    ensures OffsetScan(t, p, 1, acc) == OffsetScan(t, p + 2 * n + 2, 1, acc + RunClaims(t, p, n))
  {
    OffsetSkipsEnters(t, p, n, p + 1, 1, acc);
    assert acc + RunClaims(t, p, n)[..0] == acc;
    OffsetPairsExits(t, p, n, 0, acc);
  }

  lemma {:induction false} OffsetChains(t: seq<Event>, p: nat, depths: seq<nat>, acc: seq<Claim>)
    requires ChainRuns(t, p, depths)
    ensures OffsetScan(t, p, 1, acc) == Some(acc + ChainClaims(t, p, depths))
    decreases depths
  {
    if depths == [] {
      assert acc + [] == acc;
    } else {
      var n := depths[0];
      OffsetRun(t, p, n, acc);
      OffsetChains(t, p + 2 * n + 2, depths[1..], acc + RunClaims(t, p, n));
      assert acc + RunClaims(t, p, n) + ChainClaims(t, p + 2 * n + 2, depths[1..])
          == acc + ChainClaims(t, p, depths);
    }
  }

  /** The stack of a chain run at p after its first m `Enter`s. */
  function Opened(p: nat, m: nat): (open: seq<nat>)
    ensures OpenBefore(open, p + 1 + m)
  {
    seq(m, j requires 0 <= j < m => p + 1 + j)
  }

  lemma {:induction false} StackPushesEnters(t: seq<Event>, p: nat, n: nat, m: nat, acc: seq<Claim>)
    requires ChainRunAt(t, p, n) && m <= n
    ensures StackScan(t, p + 1 + m, Opened(p, m), acc) == StackScan(t, p + n + 1, Opened(p, n), acc)
    decreases n - m
  {
    if m < n {
      assert t[p + 1 + m].kind == Enter;
      assert Opened(p, m) + [p + 1 + m] == Opened(p, m + 1);
      StackPushesEnters(t, p, n, m + 1, acc);
    }
  }

  lemma {:induction false} StackPopsExits(t: seq<Event>, p: nat, n: nat, m: nat, acc: seq<Claim>)
    requires ChainRunAt(t, p, n) && m <= n
    ensures OpenBefore(Opened(p, n - m), p + n + 1 + m)
    ensures StackScan(t, p + n + 1 + m, Opened(p, n - m), acc + RunClaims(t, p, n)[..m])
         == StackScan(t, p + 2 * n + 1, [], acc + RunClaims(t, p, n))
    decreases n - m
  {
    assert OpenBefore(Opened(p, n - m), p + n + 1 + m) by {
      assert OpenBefore(Opened(p, n - m), p + 1 + (n - m));
    }
    if m < n {
      StackPopStep(t, p, n, m, acc);
      StackPopsExits(t, p, n, m + 1, acc);
    } else {
      assert RunClaims(t, p, n)[..n] == RunClaims(t, p, n);
      assert Opened(p, 0) == [];
    }
  }

  /** The exit m of a run pops the enter that opened claim m. */
  lemma StackPopStep(t: seq<Event>, p: nat, n: nat, m: nat, acc: seq<Claim>)
    requires ChainRunAt(t, p, n) && m < n
    requires OpenBefore(Opened(p, n - m), p + n + 1 + m)
    ensures OpenBefore(Opened(p, n - (m + 1)), p + n + 2 + m)
    ensures StackScan(t, p + n + 1 + m, Opened(p, n - m), acc + RunClaims(t, p, n)[..m])
         == StackScan(t, p + n + 2 + m, Opened(p, n - (m + 1)), acc + RunClaims(t, p, n)[..m + 1])
  {
    var rc := RunClaims(t, p, n);
    var open := Opened(p, n - m);
    var k := p + n + 1 + m;
    assert t[k].kind == Exit;
    assert open[|open| - 1] == p + n - m;
    assert open[..|open| - 1] == Opened(p, n - (m + 1));
    assert (acc + rc[..m]) + [rc[m]] == acc + rc[..m + 1];
  }

  /** The stack scan over one chain run closes exactly its LIFO claims and
      leaves the stack empty. */
  lemma StackRun(t: seq<Event>, p: nat, n: nat, acc: seq<Claim>)
    requires ChainRunAt(t, p, n)
    ensures StackScan(t, p, [], acc) == StackScan(t, p + 2 * n + 2, [], acc + RunClaims(t, p, n))
  {
    assert Opened(p, 0) == [];
    StackPushesEnters(t, p, n, 0, acc);
    assert acc + RunClaims(t, p, n)[..0] == acc;
    StackPopsExits(t, p, n, 0, acc);
  }

  lemma {:induction false} StackChains(t: seq<Event>, p: nat, depths: seq<nat>, acc: seq<Claim>)
    requires ChainRuns(t, p, depths)
    ensures StackScan(t, p, [], acc) == Success(acc + ChainClaims(t, p, depths))
    decreases depths
  {
    if depths == [] {
      assert acc + [] == acc;
    } else {
      var n := depths[0];
      StackRun(t, p, n, acc);
      StackChains(t, p + 2 * n + 2, depths[1..], acc + RunClaims(t, p, n));
      assert acc + RunClaims(t, p, n) + ChainClaims(t, p + 2 * n + 2, depths[1..])
          == acc + ChainClaims(t, p, depths);
    }
  }

  /** When every run's claims form one nested chain, the offset counter pairs
      each `Exit` with its matching `Enter` exactly as LIFO pairing does. */
  lemma OffsetAgreesOnChains(t: seq<Event>, depths: seq<nat>)
    requires ChainRuns(t, 0, depths)
    ensures OffsetScan(t, 0, 1, []) == Some(ChainClaims(t, 0, depths))
    ensures StackScan(t, 0, [], []) == Success(ChainClaims(t, 0, depths))
  {
    OffsetChains(t, 0, depths, []);
    StackChains(t, 0, depths, []);
    assert [] + ChainClaims(t, 0, depths) == ChainClaims(t, 0, depths);
  }

  // ---------------------------------------------------------------------------
  // Two claims one after the other in the same run
  // ---------------------------------------------------------------------------

  /** A run that claims one resource, releases it, then claims another. */
  const SequentialRun: seq<Event> := [
    Event("t", "A", 0, 1, Start),
    Event("t", "A", 5, 2, Enter),
    Event("t", "A", 7, 2, Exit),
    Event("t", "A", 10, 3, Enter),
    Event("t", "A", 20, 3, Exit),
    Event("t", "A", 25, 1, Finish)
  ]

  /** The offset counter pairs the second `Exit` (at 20) with the first
      `Enter` (at 5), giving 15 where the claim lasted 10. */
  lemma OffsetMispairsSequentialClaims()
    ensures OffsetScan(SequentialRun, 0, 1, []) == Some([Claim("A", 2, 2), Claim("A", 3, 15)])
    ensures StackScan(SequentialRun, 0, [], []) == Success([Claim("A", 2, 2), Claim("A", 3, 10)])
  {
    var t := SequentialRun;
    var c1, c2, c2' := Claim("A", 2, 2), Claim("A", 3, 15), Claim("A", 3, 10);
    assert t[1].cycles == 5 && t[2].kind == Exit && t[4].kind == Exit;
    assert [c1] + [c2] == [c1, c2] && [c1] + [c2'] == [c1, c2'] && [] + [c1] == [c1];
    assert OffsetScan(t, 5, 5, [c1, c2]) == Some([c1, c2]);
    assert OffsetScan(t, 4, 3, [c1]) == OffsetScan(t, 5, 5, [c1] + [c2]);
    assert OffsetScan(t, 3, 3, [c1]) == OffsetScan(t, 4, 3, [c1]);
    assert OffsetScan(t, 2, 1, []) == OffsetScan(t, 3, 3, [] + [c1]);
    assert OffsetScan(t, 0, 1, []) == OffsetScan(t, 2, 1, []);
    assert StackScan(t, 5, [], [c1, c2']) == Success([c1, c2']);
    assert StackScan(t, 4, [3], [c1]) == StackScan(t, 5, [], [c1] + [c2']);
    assert StackScan(t, 3, [], [c1]) == StackScan(t, 4, [3], [c1]);
    assert StackScan(t, 2, [1], []) == StackScan(t, 3, [], [] + [c1]);
    assert StackScan(t, 0, [], []) == StackScan(t, 2, [1], []);
  }
}

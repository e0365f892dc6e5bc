/**
 The wall-clock budget (e2e_workflow/e2e_workflow.js, the elapsed clock, the final-phase reserve
 and agentTimeoutFor): elapsed time is known only through timers that may fire late and in any
 order, and it still bounds when an agent is cut off. All times are in whole milliseconds.
 */
module Clock {

  const CLOCK_TICK_MS := 60000
  const CLOCK_MAX_RUNGS := 2048
  const AGENT_FLOOR_MS := 120000

  function Max(a: int, b: int): int { if a >= b then a else b }

  function Min(a: int, b: int): int { if a <= b then a else b }

  /** `Math.ceil(a / b)` for positive `b`. */
  function CeilDiv(a: int, b: int): int
    requires b > 0
  {
    -((-a) / b)
  }

  // ---- arming the rungs -----------------------------------------------------------

  function StepMs(budget: int): (step: int)
    ensures step > 0
  {
    if CeilDiv(budget, CLOCK_TICK_MS) <= CLOCK_MAX_RUNGS then CLOCK_TICK_MS else CeilDiv(budget, CLOCK_MAX_RUNGS)
  }

  /** One rung per step, up to one past the budget. */
  ghost predicate AreRungs(marks: seq<int>, budget: int, step: int) {
    && (forall i :: 0 <= i < |marks| ==> marks[i] == (i + 1) * step)
    && (marks != [] ==> |marks| * step <= budget + step)
    && (|marks| + 1) * step > budget + step
  }

  method ArmRungs(budget: int) returns (marks: seq<int>)
    ensures AreRungs(marks, budget, StepMs(budget))
  {
    var step := StepMs(budget);
    marks := [];
    var at := step;
    while at <= budget + step
      invariant at == (|marks| + 1) * step
      invariant forall i :: 0 <= i < |marks| ==> marks[i] == (i + 1) * step
      invariant marks != [] ==> |marks| * step <= budget + step
      decreases budget + step - at
    {
      marks := marks + [at];
      at := at + step;
      assert at == |marks| * step + step;
    }
  }

  /** However large the budget, at most 2049 timers are armed. */
  lemma {:induction false} RungsBounded(marks: seq<int>, budget: int)
    requires AreRungs(marks, budget, StepMs(budget))
    ensures |marks| <= CLOCK_MAX_RUNGS + 1
  {
    var step, n := StepMs(budget), |marks|;
    if n > 0 {
      CeilDivCovers(budget, CLOCK_TICK_MS);
      CeilDivCovers(budget, CLOCK_MAX_RUNGS);
      assert budget <= CLOCK_MAX_RUNGS * step;
      assert (n - 1) * step == n * step - step;
      Unscale(n - 1, CLOCK_MAX_RUNGS, step);
    }
  }

  lemma {:induction false} Unscale(a: int, b: int, k: int)
    requires k > 0 && a * k <= b * k
    ensures a <= b
  {
    if a > b { Scale(b + 1, a, k); }
  }

  lemma {:induction false} CeilDivCovers(a: int, b: int)
    requires b > 0
    ensures a <= CeilDiv(a, b) * b < a + b
  {
  }

  lemma {:induction false} Scale(a: int, b: int, k: int)
    requires a <= b && k >= 0
    ensures a * k <= b * k
  {
  }

  // ---- the clock ---------------------------------------------------------------------

  /** ELAPSED_MS and the callback of one rung. */
  class Elapsed {
    var ms: int

    constructor ()
      ensures ms == 0
    {
      ms := 0;
    }

    method Rung(mark: int)
      modifies this
      ensures ms == Max(old(ms), mark)
    {
      if mark > ms { ms := mark; }
    }
  }

  function Remaining(budget: int, elapsed: int): int { Max(0, budget - elapsed) }

  /** A rung of offset `mark` whose callback ran at real time `at`. */
  datatype Firing = Firing(mark: int, at: int)

  function ElapsedAfter(trace: seq<Firing>): int {
    if trace == [] then 0 else Max(ElapsedAfter(trace[..|trace| - 1]), trace[|trace| - 1].mark)
  }

  /**
   What may have happened by real time `now`: only armed rungs fired, none before its offset, and
   every rung whose offset passed at least `late` ago did fire. The order is arbitrary.
   */
  ghost predicate Plausible(trace: seq<Firing>, marks: seq<int>, late: int, now: int) {
    && (forall f :: f in trace ==> f.mark in marks && f.mark <= f.at <= now)
    && (forall m :: m in marks && m + late <= now ==> exists f :: f in trace && f.mark == m)
  }

  lemma {:induction false} ElapsedIsMax(trace: seq<Firing>)
    ensures ElapsedAfter(trace) >= 0
    ensures forall f :: f in trace ==> f.mark <= ElapsedAfter(trace)
    ensures ElapsedAfter(trace) == 0 || exists f :: f in trace && f.mark == ElapsedAfter(trace)
  {
    if trace != [] {
      ElapsedIsMax(trace[..|trace| - 1]);
      assert trace == trace[..|trace| - 1] + [trace[|trace| - 1]];
    }
  }

  /** Elapsed time never runs backwards. */
  lemma {:induction false} ElapsedMonotone(trace: seq<Firing>, more: seq<Firing>)
    ensures ElapsedAfter(trace) <= ElapsedAfter(trace + more)
  {
    if more == [] {
      assert trace + more == trace;
    } else {
      ElapsedMonotone(trace, more[..|more| - 1]);
      assert (trace + more)[..|trace + more| - 1] == trace + more[..|more| - 1];
    }
  }

  /**
   Elapsed time never exceeds real time, and until nothing remains of the budget it lags behind by
   less than one step plus the lateness of the timers.
   */
  lemma {:induction false} ElapsedTracksTime(trace: seq<Firing>, marks: seq<int>, budget: int, late: int, now: int)
    requires AreRungs(marks, budget, StepMs(budget)) && Plausible(trace, marks, late, now)
    requires late >= 0 && now >= 0
    ensures 0 <= ElapsedAfter(trace) <= now
    ensures Remaining(budget, ElapsedAfter(trace)) == 0
            || now - ElapsedAfter(trace) < StepMs(budget) + late
  {
    ElapsedIsMax(trace);
    if marks == [] {
      NoRungsNoBudget(marks, budget);
    } else if now - late >= StepMs(budget) {
      var m := DueRung(marks, budget, late, now);
      var f :| f in trace && f.mark == m;
    }
  }

  lemma {:induction false} NoRungsNoBudget(marks: seq<int>, budget: int)
    requires AreRungs(marks, budget, StepMs(budget)) && marks == []
    ensures budget < 0
  {
    assert (|marks| + 1) * StepMs(budget) == StepMs(budget);
  }

  /** A rung that must have fired by now: the latest one due, or the one past the budget. */
  lemma {:induction false} DueRung(marks: seq<int>, budget: int, late: int, now: int) returns (m: int)
    requires AreRungs(marks, budget, StepMs(budget)) && marks != [] && now - late >= StepMs(budget)
    ensures m in marks && m + late <= now
    ensures m > now - late - StepMs(budget) || m > budget
  {
    var step := StepMs(budget);
    var q := (now - late) / step;
    Division(now - late, step);
    Quotient(now - late, step);
    var i := Min(q, |marks|) - 1;
    m := marks[i];
    Scale(i + 1, q, step);
    assert (q + 1) * step == q * step + step;
    assert (|marks| + 1) * step == |marks| * step + step;
  }

  lemma {:induction false} Division(a: int, b: int)
    requires b > 0
    ensures (a / b) * b <= a < (a / b + 1) * b
  {
  }

  lemma {:induction false} Quotient(a: int, b: int)
    requires b > 0 && a >= b
    ensures a / b >= 1
  {
    Division(a, b);
    if a / b <= 0 { Scale(a / b + 1, 1, b); }
  }

  // ---- when an agent is cut off ---------------------------------------------------------

  /** FINAL_RESERVE_MS: the configured reserve, at most a fifth of the budget. */
  function FinalReserve(configuredMs: int, budget: int): int { Min(configuredMs, budget / 5) }

  function AgentTimeout(budget: int, reserve: int, cap: int, elapsed: int, finalPhase: bool): int {
    if finalPhase then cap
    else Max(AGENT_FLOOR_MS, Min(cap, Remaining(budget, elapsed) - reserve))
  }

  /**
   An agent armed at real time `now`, before the final phase, is cut off (by a timer that is itself
   late by at most `late`) no later than its floor after it started or one step and two latenesses into the
   reserve, whichever is later. A negative reserve can take the place of the floor.
   */
  lemma {:induction false} AgentCutInTime(trace: seq<Firing>, marks: seq<int>, budget: int, reserve: int, cap: int,
                       late: int, now: int, cut: int)
    requires AreRungs(marks, budget, StepMs(budget)) && Plausible(trace, marks, late, now)
    requires late >= 0 && now >= 0
    requires cut <= now + AgentTimeout(budget, reserve, cap, ElapsedAfter(trace), false) + late
    ensures cut <= Max(now + Max(AGENT_FLOOR_MS, -reserve), budget - reserve + StepMs(budget) + late) + late
  {
    ElapsedTracksTime(trace, marks, budget, late, now);
  }

  // ---- what can be known about the time ---------------------------------------------------

  /** The first `k` rungs fired, each on time, and no other. */
  function OnTime(marks: seq<int>, k: nat): (trace: seq<Firing>)
    requires k <= |marks|
    ensures |trace| == k && forall i :: 0 <= i < k ==> trace[i] == Firing(marks[i], marks[i])
  {
    seq(k, i requires 0 <= i < k => Firing(marks[i], marks[i]))
  }

  /** Real time `now` can pass with exactly the first `k` rungs fired. */
  predicate CanShow(marks: seq<int>, step: int, late: int, now: int, k: int) {
    0 <= k <= |marks| && k * step <= now && (k < |marks| ==> now < (k + 1) * step + late)
  }

  lemma {:induction false} RungsGrow(marks: seq<int>, budget: int, i: nat, j: nat)
    requires AreRungs(marks, budget, StepMs(budget)) && i < j < |marks|
    ensures 0 < marks[i] < marks[j]
  {
    Scale(1, i + 1, StepMs(budget));
    Scale(i + 2, j + 1, StepMs(budget));
    assert (i + 2) * StepMs(budget) == (i + 1) * StepMs(budget) + StepMs(budget);
  }

  lemma {:induction false} RungPositive(marks: seq<int>, budget: int, i: nat)
    requires AreRungs(marks, budget, StepMs(budget)) && i < |marks|
    ensures marks[i] == (i + 1) * StepMs(budget) > 0
  {
    Scale(1, i + 1, StepMs(budget));
  }

  /** What the record shows is some number of steps, and real time is then not past the next rung and its lateness. */
  lemma {:induction false} ShownIsSteps(trace: seq<Firing>, marks: seq<int>, budget: int, late: int, now: int)
    returns (k: nat)
    requires AreRungs(marks, budget, StepMs(budget)) && Plausible(trace, marks, late, now)
    requires late >= 0 && now >= 0
    ensures CanShow(marks, StepMs(budget), late, now, k) && ElapsedAfter(trace) == k * StepMs(budget)
  {
    ElapsedIsMax(trace);
    k := 0;
    if ElapsedAfter(trace) != 0 {
      var f :| f in trace && f.mark == ElapsedAfter(trace);
      var i :| 0 <= i < |marks| && marks[i] == f.mark;
      k := i + 1;
    }
    if k < |marks| {
      RungPositive(marks, budget, k);
      NextStep(k, StepMs(budget));
      NextNotDue(trace, marks, budget, late, now, k);
    }
  }

  lemma {:induction false} NextNotDue(trace: seq<Firing>, marks: seq<int>, budget: int, late: int, now: int, k: nat)
    requires Plausible(trace, marks, late, now)
    requires k < |marks| && ElapsedAfter(trace) < marks[k] == (k + 1) * StepMs(budget)
    ensures now < (k + 1) * StepMs(budget) + late
  {
    DueIsShown(trace, marks, late, now, marks[k]);
  }

  lemma {:induction false} NextStep(k: int, step: int)
    ensures (k + 1) * step == k * step + step
  {
  }

  /** A rung that is due, lateness included, is on record. */
  lemma {:induction false} DueIsShown(trace: seq<Firing>, marks: seq<int>, late: int, now: int, m: int)
    requires Plausible(trace, marks, late, now) && m in marks
    ensures m + late <= now ==> m <= ElapsedAfter(trace)
  {
    ElapsedIsMax(trace);
  }

  /** And every such moment is possible. */
  lemma {:induction false} StepsCanShow(marks: seq<int>, budget: int, late: int, now: int, k: nat)
    requires AreRungs(marks, budget, StepMs(budget)) && late >= 0 && CanShow(marks, StepMs(budget), late, now, k)
    ensures Plausible(OnTime(marks, k), marks, late, now)
    ensures ElapsedAfter(OnTime(marks, k)) == k * StepMs(budget)
  {
    OnTimePlausible(marks, budget, late, now, k);
    OnTimeElapsed(marks, budget, k);
  }

  lemma {:induction false} OnTimePlausible(marks: seq<int>, budget: int, late: int, now: int, k: nat)
    requires AreRungs(marks, budget, StepMs(budget)) && late >= 0 && CanShow(marks, StepMs(budget), late, now, k)
    ensures Plausible(OnTime(marks, k), marks, late, now)
  {
    var trace := OnTime(marks, k);
    forall f | f in trace ensures f.mark in marks && f.mark <= f.at <= now {
      var i :| 0 <= i < k && trace[i] == f;
      if i < k - 1 { RungsGrow(marks, budget, i, k - 1); }
    }
    forall m | m in marks && m + late <= now ensures exists f :: f in trace && f.mark == m {
      var i :| 0 <= i < |marks| && marks[i] == m;
      if k < i { RungsGrow(marks, budget, k, i); }
      assert trace[i] in trace;
    }
  }

  lemma {:induction false} OnTimeElapsed(marks: seq<int>, budget: int, k: nat)
    requires AreRungs(marks, budget, StepMs(budget)) && k <= |marks|
    ensures ElapsedAfter(OnTime(marks, k)) == k * StepMs(budget)
  {
    if k > 0 {
      OnTimeElapsed(marks, budget, k - 1);
      assert OnTime(marks, k)[..k - 1] == OnTime(marks, k - 1);
      Scale(k - 1, k, StepMs(budget));
    }
  }

  /** The rungs reach past the budget. */
  lemma {:induction false} RungsSuffice(marks: seq<int>, budget: int, k: nat)
    requires AreRungs(marks, budget, StepMs(budget)) && k * StepMs(budget) <= budget
    ensures k < |marks|
  {
    var step := StepMs(budget);
    assert (|marks| + 1) * step == |marks| * step + step;
    if |marks| <= k { Scale(|marks|, k, step); }
  }

  lemma {:induction false} AllShown(marks: seq<int>, budget: int)
    requires AreRungs(marks, budget, StepMs(budget))
    ensures |marks| * StepMs(budget) > budget
  {
    assert (|marks| + 1) * StepMs(budget) == |marks| * StepMs(budget) + StepMs(budget);
  }

  // ---- exactly when the budget holds ----------------------------------------------------------

  /** The timers' lateness: that of the rungs is at most `late`, that of an agent's own timer is `own`. */
  datatype Lag = Lag(late: nat, own: nat)

  /**
   What the reserve is for: on every clock with that lateness, an agent that starts at any time is cut off by
   the end of its floor, or `keep` before the end of the budget.
   */
  ghost predicate BudgetHolds(marks: seq<int>, budget: int, configuredMs: int, cap: int, lag: Lag, keep: nat) {
    forall trace, now :: now >= 0 && Plausible(trace, marks, lag.late, now) ==>
      CutBy(budget - keep, budget, FinalReserve(configuredMs, budget), cap, ElapsedAfter(trace), now, lag)
  }

  predicate CutBy(end: int, budget: int, reserve: int, cap: int, elapsed: int, now: int, lag: Lag) {
    now + AgentTimeout(budget, reserve, cap, elapsed, false) + lag.own <= Max(now + AGENT_FLOOR_MS + lag.own, end)
  }

  /** The first rung whose firing leaves an agent no more than its floor. */
  function LastStart(budget: int, reserve: int): int {
    ((budget - reserve - AGENT_FLOOR_MS - 1) / StepMs(budget) + 1) * StepMs(budget)
  }

  /**
   The reserve covers what is to be kept, one step and both latenesses; or no agent is ever given more than its
   floor; or even the last one that is given more is cut by its cap in time.
   */
  predicate ReserveSuffices(budget: int, configuredMs: int, cap: int, lag: Lag, keep: nat) {
    var reserve, slack := FinalReserve(configuredMs, budget), lag.late + lag.own - 1;
    || keep + StepMs(budget) + slack <= reserve
    || Remaining(budget, 0) - reserve <= AGENT_FLOOR_MS || cap <= AGENT_FLOOR_MS
    || (budget >= 0 && LastStart(budget, reserve) + slack + cap <= budget - keep)
  }

  /** The budget holds exactly then. */
  lemma {:induction false} BudgetHoldsIff(marks: seq<int>, budget: int, configuredMs: int, cap: int, lag: Lag,
                                          keep: nat)
    requires AreRungs(marks, budget, StepMs(budget))
    ensures BudgetHolds(marks, budget, configuredMs, cap, lag, keep)
            <==> ReserveSuffices(budget, configuredMs, cap, lag, keep)
  {
    if ReserveSuffices(budget, configuredMs, cap, lag, keep) {
      forall trace, now | now >= 0 && Plausible(trace, marks, lag.late, now)
        ensures CutBy(budget - keep, budget, FinalReserve(configuredMs, budget), cap, ElapsedAfter(trace), now, lag)
      {
        HoldsWhenSufficient(trace, marks, budget, configuredMs, cap, lag, keep, now);
      }
    } else {
      var k, now := OverrunAt(marks, budget, configuredMs, cap, lag, keep);
      StepsCanShow(marks, budget, lag.late, now, k);
    }
  }

  lemma {:induction false} HoldsWhenSufficient(trace: seq<Firing>, marks: seq<int>, budget: int, configuredMs: int,
                                               cap: int, lag: Lag, keep: nat, now: int)
    requires AreRungs(marks, budget, StepMs(budget)) && Plausible(trace, marks, lag.late, now) && now >= 0
    requires ReserveSuffices(budget, configuredMs, cap, lag, keep)
    ensures CutBy(budget - keep, budget, FinalReserve(configuredMs, budget), cap, ElapsedAfter(trace), now, lag)
  {
    var reserve, step := FinalReserve(configuredMs, budget), StepMs(budget);
    var k := ShownIsSteps(trace, marks, budget, lag.late, now);
    var elapsed := k * step;
    NextStep(k, step);
    if Remaining(budget, elapsed) - reserve > AGENT_FLOOR_MS && cap > AGENT_FLOOR_MS {
      if k == |marks| {
        AllShown(marks, budget);
        StartsBefore(budget, reserve, 0);
      } else {
        StartsBefore(budget, reserve, k);
      }
    }
  }

  /** Whoever starts with `k` steps on record and is given more than the floor does so before `LastStart`. */
  lemma {:induction false} StartsBefore(budget: int, reserve: int, k: nat)
    ensures budget - reserve - AGENT_FLOOR_MS <= LastStart(budget, reserve)
    ensures budget - k * StepMs(budget) - reserve > AGENT_FLOOR_MS ==>
              (k + 1) * StepMs(budget) <= LastStart(budget, reserve)
  {
    var step, d := StepMs(budget), budget - reserve - AGENT_FLOOR_MS - 1;
    Division(d, step);
    if k * step <= d {
      if k > d / step { Scale(d / step + 1, k, step); }
      Scale(k + 1, d / step + 1, step);
    }
  }

  /** Otherwise there is a moment at which an agent that starts is cut off too late. */
  lemma {:induction false} OverrunAt(marks: seq<int>, budget: int, configuredMs: int, cap: int, lag: Lag, keep: nat)
    returns (k: nat, now: int)
    requires AreRungs(marks, budget, StepMs(budget))
    requires !ReserveSuffices(budget, configuredMs, cap, lag, keep)
    ensures now >= 0 && CanShow(marks, StepMs(budget), lag.late, now, k)
    ensures !CutBy(budget - keep, budget, FinalReserve(configuredMs, budget), cap, k * StepMs(budget), now, lag)
  {
    var reserve, step := FinalReserve(configuredMs, budget), StepMs(budget);
    if reserve < -AGENT_FLOOR_MS {
      AllShown(marks, budget);
      k, now := |marks|, |marks| * step;
    } else {
      var d := budget - reserve - AGENT_FLOOR_MS - 1;
      Division(d, step);
      if d / step < 0 { Scale(d / step + 1, 0, step); }
      k := d / step;
      RungsSuffice(marks, budget, k);
      now := (k + 1) * step + lag.late - 1;
      NextStep(k, step);
      Scale(0, k, step);
    }
  }

  /** For a cap that nobody knows, only the first two of these help. */
  lemma {:induction false} EveryCapIff(marks: seq<int>, budget: int, configuredMs: int, lag: Lag, keep: nat)
    requires AreRungs(marks, budget, StepMs(budget))
    ensures (forall cap :: BudgetHolds(marks, budget, configuredMs, cap, lag, keep)) <==>
            var reserve := FinalReserve(configuredMs, budget);
            || keep + StepMs(budget) + lag.late + lag.own - 1 <= reserve
            || Remaining(budget, 0) - reserve <= AGENT_FLOOR_MS
  {
    var reserve := FinalReserve(configuredMs, budget);
    forall cap { BudgetHoldsIff(marks, budget, configuredMs, cap, lag, keep); }
    var tooLong := Max(AGENT_FLOOR_MS + 1, budget - LastStart(budget, reserve) - lag.late - lag.own + 2);
    assert LastStart(budget, reserve) + lag.late + lag.own - 1 + tooLong > budget;
    assert ReserveSuffices(budget, configuredMs, tooLong, lag, keep) <==>
           || keep + StepMs(budget) + lag.late + lag.own - 1 <= reserve
           || Remaining(budget, 0) - reserve <= AGENT_FLOOR_MS;
  }

  /**
   The reserve as a whole is never held back: for that, no agent may ever be given more than its floor, or each
   that is must be cut by its cap.
   */
  lemma {:induction false} ReserveKeptIff(marks: seq<int>, budget: int, configuredMs: int, cap: int, lag: Lag)
    requires AreRungs(marks, budget, StepMs(budget)) && FinalReserve(configuredMs, budget) >= 0
    ensures var reserve := FinalReserve(configuredMs, budget);
            BudgetHolds(marks, budget, configuredMs, cap, lag, reserve) <==>
            || Remaining(budget, 0) - reserve <= AGENT_FLOOR_MS || cap <= AGENT_FLOOR_MS
            || LastStart(budget, reserve) + lag.late + lag.own - 1 + cap <= budget - reserve
  {
    BudgetHoldsIff(marks, budget, configuredMs, cap, lag, FinalReserve(configuredMs, budget));
    StepOf(budget);
  }

  /** Every agent that has room for its floor when it starts is cut off within the budget. */
  ghost predicate BudgetRespected(marks: seq<int>, budget: int, configuredMs: int, lag: Lag) {
    forall trace, now, cap ::
      now >= 0 && Plausible(trace, marks, lag.late, now) && now + AGENT_FLOOR_MS + lag.own <= budget ==>
        CutBy(budget, budget, FinalReserve(configuredMs, budget), cap, ElapsedAfter(trace), now, lag)
  }

  /** That holds exactly if no such agent could exist, or the budget holds for all agents. */
  lemma {:induction false} BudgetRespectedIff(marks: seq<int>, budget: int, configuredMs: int, lag: Lag)
    requires AreRungs(marks, budget, StepMs(budget))
    ensures BudgetRespected(marks, budget, configuredMs, lag) <==>
            var reserve := FinalReserve(configuredMs, budget);
            || budget < AGENT_FLOOR_MS + lag.own
            || StepMs(budget) + lag.late + lag.own - 1 <= reserve || budget - reserve <= AGENT_FLOOR_MS
  {
    var reserve, step := FinalReserve(configuredMs, budget), StepMs(budget);
    EveryCapIff(marks, budget, configuredMs, lag, 0);
    if budget < AGENT_FLOOR_MS + lag.own {
      assert BudgetRespected(marks, budget, configuredMs, lag);
    } else if step + lag.late + lag.own - 1 <= reserve || budget - reserve <= AGENT_FLOOR_MS {
      forall trace, now, cap | now >= 0 && Plausible(trace, marks, lag.late, now)
        ensures CutBy(budget, budget, reserve, cap, ElapsedAfter(trace), now, lag)
      {
        assert BudgetHolds(marks, budget, configuredMs, cap, lag, 0);
      }
    } else {
      var now := Min(step + lag.late - 1, budget - AGENT_FLOOR_MS - lag.own);
      StepsCanShow(marks, budget, lag.late, now, 0);
      assert !CutBy(budget, budget, reserve, budget - reserve, 0, now, lag);
    }
  }

  // ---- the reserve as it is configured by default ----------------------------------------------

  const DEFAULT_RESERVE_MS := 3600000
  const AGENT_TIMEOUT_MS := 7200000

  lemma {:induction false} StepOf(budget: int)
    ensures StepMs(budget) >= CLOCK_TICK_MS
    ensures StepMs(budget) <= DEFAULT_RESERVE_MS + 1 <==> budget <= CLOCK_MAX_RUNGS * (DEFAULT_RESERVE_MS + 1)
  {
    CeilDivCovers(budget, CLOCK_TICK_MS);
    CeilDivCovers(budget, CLOCK_MAX_RUNGS);
  }

  /** Even with perfect timers, an hour is enough only up to 150 seconds, and from 299.995 seconds to 85 days. */
  lemma {:induction false} DefaultReserveIff(marks: seq<int>, budget: int)
    requires AreRungs(marks, budget, StepMs(budget)) && budget >= 0
    ensures (forall cap :: BudgetHolds(marks, budget, DEFAULT_RESERVE_MS, cap, Lag(0, 0), 0))
            <==> budget <= 150000 || 299995 <= budget <= 7372802048
  {
    EveryCapIff(marks, budget, DEFAULT_RESERVE_MS, Lag(0, 0), 0);
    StepOf(budget);
  }

  /** A budget of four minutes, perfect timers, and an agent that starts just before the first rung. */
  lemma {:induction false} DefaultReserveOverruns(marks: seq<int>)
    requires AreRungs(marks, 240000, StepMs(240000))
    ensures Plausible([], marks, 0, 59999)
    ensures var reserve := FinalReserve(DEFAULT_RESERVE_MS, 240000);
            && 59999 + AgentTimeout(240000, reserve, AGENT_TIMEOUT_MS, ElapsedAfter([]), false) == 251999
            && AgentTimeout(240000, reserve, AGENT_TIMEOUT_MS, ElapsedAfter([]), true) == 7200000
  {
    StepsCanShow(marks, 240000, 0, 59999, 0);
    assert OnTime(marks, 0) == [];
  }

  // ---- agents that start when the budget is spent ------------------------------------------------

  /** An agent that starts at the end of the budget or later gets no more than its floor. */
  ghost predicate SpentMeansFloor(marks: seq<int>, budget: int, configuredMs: int, cap: int, late: int) {
    forall trace, now :: now >= 0 && now >= budget && Plausible(trace, marks, late, now) ==>
      AgentTimeout(budget, FinalReserve(configuredMs, budget), cap, ElapsedAfter(trace), false) <= AGENT_FLOOR_MS
  }

  /** How many rungs must have fired when the budget ends. */
  function DueAtEnd(budget: int, late: int): nat { Max(0, (budget - late) / StepMs(budget)) }

  /** That holds exactly if the reserve and the floor cover what may not be on record yet. */
  lemma {:induction false} SpentMeansFloorIff(marks: seq<int>, budget: int, configuredMs: int, cap: int, late: int)
    requires AreRungs(marks, budget, StepMs(budget)) && late >= 0
    ensures SpentMeansFloor(marks, budget, configuredMs, cap, late) <==>
            || cap <= AGENT_FLOOR_MS
            || Remaining(budget, DueAtEnd(budget, late) * StepMs(budget))
               <= FinalReserve(configuredMs, budget) + AGENT_FLOOR_MS
  {
    var k, reserve := DueAtEnd(budget, late), FinalReserve(configuredMs, budget);
    EndCanShow(marks, budget, late);
    StepsCanShow(marks, budget, late, Max(0, budget), k);
    forall trace, now | now >= 0 && now >= budget && Plausible(trace, marks, late, now)
      ensures ElapsedAfter(trace) >= k * StepMs(budget)
    {
      AtLeastDue(trace, marks, budget, late, now);
    }
    assert AgentTimeout(budget, reserve, cap, k * StepMs(budget), false) <= AGENT_FLOOR_MS <==>
           cap <= AGENT_FLOOR_MS || Remaining(budget, k * StepMs(budget)) <= reserve + AGENT_FLOOR_MS;
  }

  lemma {:induction false} EndCanShow(marks: seq<int>, budget: int, late: int)
    requires AreRungs(marks, budget, StepMs(budget)) && late >= 0
    ensures CanShow(marks, StepMs(budget), late, Max(0, budget), DueAtEnd(budget, late))
    ensures DueAtEnd(budget, late) * StepMs(budget) <= Max(0, budget)
  {
    var step, k := StepMs(budget), DueAtEnd(budget, late);
    Division(budget - late, step);
    if (budget - late) / step < 0 { Scale((budget - late) / step + 1, 0, step); }
    if budget >= 0 { RungsSuffice(marks, budget, k); } else { NoRungs(marks, budget); }
  }

  lemma {:induction false} NoRungs(marks: seq<int>, budget: int)
    requires AreRungs(marks, budget, StepMs(budget)) && budget < 0
    ensures marks == []
  {
    if marks != [] { Scale(1, |marks|, StepMs(budget)); }
  }

  lemma {:induction false} AtLeastDue(trace: seq<Firing>, marks: seq<int>, budget: int, late: int, now: int)
    requires AreRungs(marks, budget, StepMs(budget)) && Plausible(trace, marks, late, now)
    requires late >= 0 && now >= 0 && now >= budget
    ensures ElapsedAfter(trace) >= DueAtEnd(budget, late) * StepMs(budget)
  {
    var step, k := StepMs(budget), DueAtEnd(budget, late);
    ElapsedIsMax(trace);
    if k > 0 {
      EndCanShow(marks, budget, late);
      RungPositive(marks, budget, k - 1);
      Division(budget - late, step);
      DueIsShown(trace, marks, late, now, marks[k - 1]);
    }
  }

  /** Zero is not enough for a budget of five days: its rungs are 200 seconds apart. */
  lemma {:induction false} LateStartOverruns(marks: seq<int>)
    requires AreRungs(marks, 409599000, StepMs(409599000))
    ensures !SpentMeansFloor(marks, 409599000, 0, AGENT_TIMEOUT_MS, 0)
  {
    SpentMeansFloorIff(marks, 409599000, 0, AGENT_TIMEOUT_MS, 0);
  }

  /** With a negative reserve, an agent that starts with the clock may run past the budget by the whole of it. */
  lemma {:induction false} FirstAgentOverruns(marks: seq<int>, budget: int, configuredMs: int, cap: int)
    requires AreRungs(marks, budget, StepMs(budget)) && budget >= 0
    requires configuredMs < 0 && budget - configuredMs > AGENT_FLOOR_MS && cap >= budget - configuredMs
    ensures Plausible([], marks, 0, 0)
    ensures AgentTimeout(budget, FinalReserve(configuredMs, budget), cap, ElapsedAfter([]), false)
            == budget - configuredMs > Max(AGENT_FLOOR_MS, budget)
  {
    StepsCanShow(marks, budget, 0, 0, 0);
    assert OnTime(marks, 0) == [];
  }

  /**
   And if it is negative by more than the floor, then even when every rung fired on time and all of the budget
   is on record, an agent that starts may run on for as long as the reserve is negative.
   */
  lemma {:induction false} NegativeReserveOverruns(marks: seq<int>, budget: int, configuredMs: int, cap: int)
    returns (trace: seq<Firing>, now: int)
    requires AreRungs(marks, budget, StepMs(budget)) && budget >= 0
    requires configuredMs < -AGENT_FLOOR_MS && cap >= -configuredMs
    ensures Plausible(trace, marks, 0, now) && now > budget
    ensures Remaining(budget, ElapsedAfter(trace)) == 0
    ensures now + AgentTimeout(budget, FinalReserve(configuredMs, budget), cap, ElapsedAfter(trace), false)
            == now - configuredMs > budget + AGENT_FLOOR_MS
  {
    AllShown(marks, budget);
    trace, now := OnTime(marks, |marks|), |marks| * StepMs(budget);
    StepsCanShow(marks, budget, 0, now, |marks|);
  }

  // ---- what an agent is given ---------------------------------------------------------------------

  /** The reserve is the greatest number that is neither above the configured one nor above a fifth of the budget. */
  lemma {:induction false} ReserveIs(configuredMs: int, budget: int, reserve: int)
    ensures reserve == FinalReserve(configuredMs, budget) <==>
            && reserve <= configuredMs && 5 * reserve <= budget
            && (reserve < configuredMs ==> 5 * (reserve + 1) > budget)
  {
  }

  /**
   Before the final phase an agent is given two minutes or more; more only within its cap and within what remains
   above the reserve; and less than its cap only if no more remains.
   */
  lemma {:induction false} AgentTimeIs(budget: int, reserve: int, cap: int, elapsed: int, t: int)
    ensures t == AgentTimeout(budget, reserve, cap, elapsed, false) <==>
            && 120000 <= t
            && (t > 120000 ==> t <= cap && (t + reserve + elapsed <= budget || t + reserve <= 0))
            && (t < cap ==> t + reserve + elapsed >= budget && t + reserve >= 0)
  {
  }

  /** In the final phase every agent is given its whole cap, whatever is on record and whatever the reserve. */
  ghost predicate FinalPhaseIsWhole(marks: seq<int>, budget: int, configuredMs: int, cap: int, late: int) {
    forall trace, now :: now >= 0 && Plausible(trace, marks, late, now) ==>
      AgentTimeout(budget, FinalReserve(configuredMs, budget), cap, ElapsedAfter(trace), true) == cap
  }

  /** Entering the final phase shortens no agent's time. */
  ghost predicate FinalPhaseNeverShortens(marks: seq<int>, budget: int, configuredMs: int, cap: int, late: int) {
    forall trace, now :: now >= 0 && Plausible(trace, marks, late, now) ==>
      var reserve, elapsed := FinalReserve(configuredMs, budget), ElapsedAfter(trace);
      AgentTimeout(budget, reserve, cap, elapsed, false) <= AgentTimeout(budget, reserve, cap, elapsed, true)
  }

  /** The first holds always, the second exactly if the cap is no less than the floor. */
  lemma {:induction false} FinalPhaseIff(marks: seq<int>, budget: int, configuredMs: int, cap: int, late: int)
    requires AreRungs(marks, budget, StepMs(budget)) && late >= 0
    ensures FinalPhaseIsWhole(marks, budget, configuredMs, cap, late)
    ensures FinalPhaseNeverShortens(marks, budget, configuredMs, cap, late) <==> cap >= 120000
  {
    StepsCanShow(marks, budget, late, 0, 0);
  }

  /**
   The final phase gives an agent strictly more exactly if it has a cap above its floor that reaches into the
   reserve, or past the budget, from where it starts.
   */
  lemma {:induction false} FinalPhaseGivesMoreIff(budget: int, reserve: int, cap: int, elapsed: int)
    ensures AgentTimeout(budget, reserve, cap, elapsed, false) < AgentTimeout(budget, reserve, cap, elapsed, true)
            <==> cap > 120000 && cap + reserve > 0 && elapsed + cap + reserve > budget
  {
  }
}

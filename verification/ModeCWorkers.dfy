/**
 The concurrent pull-request workers of a Mode C action (arguss/web/github_action.py:229-354) and the
 record their events are mirrored into under one lock (arguss/web/mode_c_workflow.py:187-206), as a
 transition system: any worker may take its next step whenever that step is enabled.
 */
module ModeCWorkers {
  import opened Basics
  import opened Sorting
  import opened ActionRuns
  import opened ActionRecords

  /** Where one `run_one` task is: before the semaphore, inside it, after it. */
  datatype Phase =
    | Waiting
    | Holding
    | Working
    | Reporting(result: ActionResult)
    | Done(result: ActionResult)

  datatype System = System(phases: seq<Phase>, record: Record)

  /** Acquire the semaphore; mirror `action_started`; get a result; mirror `action_completed` and release. */
  datatype Move =
    | Acquire(i: nat)
    | MirrorStarted(i: nat)
    | Finish(i: nat, result: ActionResult)
    | MirrorCompleted(i: nat)

  function HoldsPermit(p: Phase): nat {
    if p.Holding? || p.Working? || p.Reporting? then 1 else 0
  }

  function InFlight(phases: seq<Phase>): nat {
    if phases == [] then 0 else HoldsPermit(phases[0]) + InFlight(phases[1..])
  }

  function StepsLeft(p: Phase): nat {
    match p
    case Waiting => 4
    case Holding => 3
    case Working => 2
    case Reporting(_) => 1
    case Done(_) => 0
  }

  function Remaining(phases: seq<Phase>): nat {
    if phases == [] then 0 else StepsLeft(phases[0]) + Remaining(phases[1..])
  }

  /** A result is always that of the worker's own candidate: `open_fix_pr` and the exception arm fill it in. */
  predicate Enabled(plan: seq<Planned>, permits: nat, s: System, m: Move) {
    && m.i < |s.phases| == |plan|
    && match m
       case Acquire(i) => s.phases[i].Waiting? && InFlight(s.phases) < permits
       case MirrorStarted(i) => s.phases[i].Holding?
       case Finish(i, result) => s.phases[i].Working? && result.candidateId == plan[i].candidateId
       case MirrorCompleted(i) => s.phases[i].Reporting?
  }

  function After(plan: seq<Planned>, permits: nat, s: System, m: Move): System
    requires Enabled(plan, permits, s, m)
  {
    match m
    case Acquire(i) => s.(phases := s.phases[i := Holding])
    case MirrorStarted(i) => System(s.phases[i := Working], Mirrored(s.record, ActionStarted(plan[i])))
    case Finish(i, result) => s.(phases := s.phases[i := Reporting(result)])
    case MirrorCompleted(i) =>
      var result := s.phases[i].result;
      System(s.phases[i := Done(result)], Mirrored(s.record, ActionCompleted(plan[i], result)))
  }

  /** After `actions_planned` is mirrored, before any worker moves. */
  function Initial(plan: seq<Planned>): System {
    System(seq(|plan|, i => Waiting), Mirrored(Record([], RecordPending, None), ActionsPlanned(plan)))
  }

  /** An interleaving: every move is enabled where it is made. */
  predicate Schedule(plan: seq<Planned>, permits: nat, s: System, moves: seq<Move>)
    decreases |moves|
  {
    moves == [] || (Enabled(plan, permits, s, moves[0]) &&
        Schedule(plan, permits, After(plan, permits, s, moves[0]), moves[1..]))
  }

  function Interleave(plan: seq<Planned>, permits: nat, s: System, moves: seq<Move>): System
    requires Schedule(plan, permits, s, moves)
    decreases |moves|
  {
    if moves == [] then s else Interleave(plan, permits, After(plan, permits, s, moves[0]), moves[1..])
  }

  predicate AllDone(phases: seq<Phase>) {
    forall p | p in phases :: p.Done?
  }

  /** `asyncio.gather`: the results in plan order. */
  function Results(phases: seq<Phase>): (results: seq<ActionResult>)
    requires AllDone(phases)
    ensures |results| == |phases|
  {
    seq(|phases|, i requires 0 <= i < |phases| => assert phases[i] in phases; phases[i].result)
  }

  function CountResults(results: seq<ActionResult>, how: ActionStatus): nat {
    if results == [] then 0 else (if results[0].status == how then 1 else 0) + CountResults(results[1..], how)
  }

  /** The `scan_complete` event. */
  function CompleteEvent(results: seq<ActionResult>): ActionEvent {
    ScanComplete(|results|, OutcomeCounts(CountResults(results, Opened), CountResults(results, AlreadyExists),
        CountResults(results, Failed), CountResults(results, Skipped)))
  }

  function Closed(s: System): Record
    requires AllDone(s.phases)
  {
    Mirrored(s.record, CompleteEvent(Results(s.phases)))
  }

  // ---- What every interleaving keeps ----

  function OutcomeIn(p: Planned, phase: Phase): PrOutcome {
    if phase.Done? then CompletedOutcome(p, phase.result) else PendingOutcome(p)
  }

  function OutcomesIn(plan: seq<Planned>, phases: seq<Phase>): seq<PrOutcome>
    requires |plan| == |phases|
  {
    seq(|plan|, i requires 0 <= i < |plan| => OutcomeIn(plan[i], phases[i]))
  }

  predicate OwnResult(p: Planned, phase: Phase) {
    phase.Reporting? || phase.Done? ==> phase.result.candidateId == p.candidateId
  }

  /**
   The record shows each planned candidate once; with no repeats in the plan, in plan order and with its
   latest mirrored state.
   */
  ghost predicate Consistent(plan: seq<Planned>, permits: nat, s: System) {
    && |s.phases| == |plan|
    && InFlight(s.phases) <= permits
    && (forall i: nat | i < |plan| :: OwnResult(plan[i], s.phases[i]))
    && IdsOf(s.record.outcomes) == Dedup(PlanIds(plan))
    && s.record.status == RecordPending && s.record.reasons == None
    && (DistinctPlan(plan) ==> s.record.outcomes == OutcomesIn(plan, s.phases))
  }

  lemma {:induction false} InFlightChange(phases: seq<Phase>, i: nat, p: Phase)
    requires i < |phases|
    ensures InFlight(phases[i := p]) + HoldsPermit(phases[i]) == InFlight(phases) + HoldsPermit(p)
    ensures Remaining(phases[i := p]) + StepsLeft(phases[i]) == Remaining(phases) + StepsLeft(p)
  {
    if i > 0 {
      InFlightChange(phases[1..], i - 1, p);
      assert phases[i := p][1..] == phases[1..][i - 1 := p];
    } else {
      assert phases[i := p][1..] == phases[1..];
    }
  }

  lemma {:induction false} OutcomesAreDistinct(plan: seq<Planned>, s: System)
    requires DistinctPlan(plan) && |s.phases| == |plan| && forall i: nat | i < |plan| :: OwnResult(plan[i], s.phases[i])
    ensures DistinctOutcomes(OutcomesIn(plan, s.phases))
  {
    var outcomes := OutcomesIn(plan, s.phases);
    forall i, j | 0 <= i < j < |outcomes| ensures outcomes[i].plan.candidateId != outcomes[j].plan.candidateId {
      assert OwnResult(plan[i], s.phases[i]) && OwnResult(plan[j], s.phases[j]);
    }
  }

  /** A mirrored outcome of a planned candidate adds no candidate. */
  lemma {:induction false} MirrorKeepsIds(plan: seq<Planned>, i: nat, outcomes: seq<PrOutcome>, o: PrOutcome)
    requires IdsOf(outcomes) == Dedup(PlanIds(plan)) && i < |plan| && o.plan.candidateId == plan[i].candidateId
    ensures IdsOf(Updated(outcomes, o)) == Dedup(PlanIds(plan))
  {
    DedupIsDistinct(PlanIds(plan));
    assert PlanIds(plan)[i] in PlanIds(plan);
    UpdateKeepsIds(outcomes, o);
  }

  lemma {:induction false} MirrorKeepsOutcomes(plan: seq<Planned>, s: System, i: nat, o: PrOutcome, phase: Phase)
    requires DistinctPlan(plan) && |s.phases| == |plan| && i < |plan|
    requires forall j: nat | j < |plan| :: OwnResult(plan[j], s.phases[j])
    requires s.record.outcomes == OutcomesIn(plan, s.phases) && !s.phases[i].Done?
    requires o == OutcomeIn(plan[i], phase) && o.plan.candidateId == plan[i].candidateId
    requires phase == Working || (phase.Done? && o.plan == plan[i])
    ensures Updated(s.record.outcomes, o) == OutcomesIn(plan, s.phases[i := phase])
  {
    hide DistinctPlan, DistinctOutcomes, CompletedOutcome;
    OutcomesAreDistinct(plan, s);
    UpdateInPlace(s.record.outcomes, i, o);
    assert MergedOutcome(o, PendingOutcome(plan[i])) == o;
  }

  lemma {:induction false} MoveKeeps(plan: seq<Planned>, permits: nat, s: System, m: Move)
    requires Consistent(plan, permits, s) && Enabled(plan, permits, s, m)
    ensures Consistent(plan, permits, After(plan, permits, s, m))
    ensures Remaining(After(plan, permits, s, m).phases) + 1 == Remaining(s.phases)
  {
    hide InFlight, Remaining, DistinctPlan, FinalStatus, RunReasons, Updated, IdsOf, PlanIds, Dedup;
    var i, s' := m.i, After(plan, permits, s, m);
    InFlightChange(s.phases, i, s'.phases[i]);
    assert OwnResult(plan[i], s.phases[i]);
    if m.MirrorStarted? || m.MirrorCompleted? {
      var o := OutcomeIn(plan[i], s'.phases[i]);
      MirrorKeepsIds(plan, i, s.record.outcomes, o);
      if DistinctPlan(plan) { MirrorKeepsOutcomes(plan, s, i, o, s'.phases[i]); }
    } else {
      assert OutcomesIn(plan, s'.phases) == OutcomesIn(plan, s.phases);
    }
  }

  /**
   What a move leaves in the record when the worker's candidate has its entry at place `k`: a start makes that entry
   pending, an end gives it the result's status, and no other move and no other entry changes.
   */
  lemma {:induction false} MoveShows(plan: seq<Planned>, permits: nat, s: System, m: Move, k: nat)
    returns (x: PrOutcome)
    requires Enabled(plan, permits, s, m) && k < |s.record.outcomes|
    requires m.MirrorCompleted? ==> OwnResult(plan[m.i], s.phases[m.i])
    requires s.record.outcomes[k].plan.candidateId == plan[m.i].candidateId
    requires forall j | 0 <= j < k :: s.record.outcomes[j].plan.candidateId != plan[m.i].candidateId
    ensures var was, now := s.record.outcomes, After(plan, permits, s, m).record.outcomes;
      match m
      case Acquire(_) => now == was
      case Finish(_, _) => now == was
      case MirrorStarted(i) =>
        now == was[k := x] && IsMergeOf(x, PrOutcome(plan[i], Pending, None, None, None), was[k])
      case MirrorCompleted(i) =>
        var r := s.phases[i].result;
        now == was[k := x] && IsMergeOf(x, PrOutcome(plan[i], Ended(r.status), r.prNumber, r.prUrl,
            if r.status == Failed || r.status == Skipped then r.reason else None), was[k])
    ensures After(plan, permits, s, m).record.status == s.record.status
  {
    hide IsMergeOf, Updated, InFlight;
    match m
    case MirrorStarted(i) => x := UpdatedSays(s.record.outcomes, PendingOutcome(plan[i]), k);
    case MirrorCompleted(i) => x := UpdatedSays(s.record.outcomes, CompletedOutcome(plan[i], s.phases[i].result), k);
    case Acquire(_) => x := s.record.outcomes[k];
    case Finish(_, _) => x := s.record.outcomes[k];
  }

  lemma {:induction false} InitialIsConsistent(plan: seq<Planned>, permits: nat)
    ensures Consistent(plan, permits, Initial(plan)) && Remaining(Initial(plan).phases) == 4 * |plan|
  {
    PlanIdsAreLaidOut(plan);
    AllWaiting(Initial(plan).phases);
    if DistinctPlan(plan) {
      PlanIsLaidOut(plan);
      assert Initial(plan).record.outcomes == OutcomesIn(plan, Initial(plan).phases);
    }
  }

  lemma {:induction false} AllWaiting(phases: seq<Phase>)
    requires forall i | 0 <= i < |phases| :: phases[i] == Waiting
    ensures InFlight(phases) == 0 && Remaining(phases) == 4 * |phases|
  {
    if phases != [] { AllWaiting(phases[1..]); }
  }

  lemma {:induction false} ScheduleKeeps(plan: seq<Planned>, permits: nat, s: System, moves: seq<Move>)
    requires Consistent(plan, permits, s) && Schedule(plan, permits, s, moves)
    ensures Consistent(plan, permits, Interleave(plan, permits, s, moves))
    ensures |moves| + Remaining(Interleave(plan, permits, s, moves).phases) == Remaining(s.phases)
    decreases |moves|
  {
    if moves != [] {
      MoveKeeps(plan, permits, s, moves[0]);
      ScheduleKeeps(plan, permits, After(plan, permits, s, moves[0]), moves[1..]);
    }
  }

  /**
   However the workers interleave, at every point the work in flight is within the semaphore, the record lists
   each planned candidate once, and exactly 4 moves per worker have been or will be made; with no repeats in
   the plan the record is in plan order and shows each worker's latest mirrored state.
   */
  lemma {:induction false} EveryInterleavingIsConsistent(plan: seq<Planned>, permits: nat, moves: seq<Move>)
    requires Schedule(plan, permits, Initial(plan), moves)
    ensures var s := Interleave(plan, permits, Initial(plan), moves);
      && InFlight(s.phases) <= permits
      && |moves| + Remaining(s.phases) == 4 * |plan| == 4 * |s.phases|
      && IdsOf(s.record.outcomes) == Dedup(PlanIds(plan))
      && (DistinctPlan(plan) ==> s.record.outcomes == OutcomesIn(plan, s.phases))
  {
    InitialIsConsistent(plan, permits);
    ScheduleKeeps(plan, permits, Initial(plan), moves);
  }

  // ---- No deadlock ----

  lemma {:induction false} SomeoneHolds(phases: seq<Phase>) returns (i: nat)
    requires InFlight(phases) > 0
    ensures i < |phases| && HoldsPermit(phases[i]) == 1
  {
    if HoldsPermit(phases[0]) == 1 { i := 0; } else {
      i := SomeoneHolds(phases[1..]);
      i := i + 1;
    }
  }

  /** With a positive semaphore some worker can always move until all are done, whatever results are to come. */
  lemma {:induction false} NeverStuck(plan: seq<Planned>, permits: nat, moves: seq<Move>, arbitrary: ActionResult)
    requires Schedule(plan, permits, Initial(plan), moves) && permits > 0
    ensures var s := Interleave(plan, permits, Initial(plan), moves);
      AllDone(s.phases) || exists m :: Enabled(plan, permits, s, m)
  {
    EveryInterleavingIsConsistent(plan, permits, moves);
    var s := Interleave(plan, permits, Initial(plan), moves);
    if InFlight(s.phases) > 0 {
      var i := SomeoneHolds(s.phases);
      var result := arbitrary.(candidateId := plan[i].candidateId);
      var m := if s.phases[i].Holding? then MirrorStarted(i)
        else if s.phases[i].Working? then Finish(i, result) else MirrorCompleted(i);
      assert Enabled(plan, permits, s, m);
    } else if !AllDone(s.phases) {
      var p :| p in s.phases && !p.Done?;
      var i: nat :| i < |s.phases| && s.phases[i] == p;
      NobodyHolds(s.phases, i);
      assert Enabled(plan, permits, s, Acquire(i));
    }
  }

  lemma {:induction false} NobodyHolds(phases: seq<Phase>, i: nat)
    requires InFlight(phases) == 0 && i < |phases|
    ensures HoldsPermit(phases[i]) == 0
  {
    if i > 0 { NobodyHolds(phases[1..], i - 1); }
  }

  // ---- The closed record ----

  lemma {:induction false} CountsAgree(outcomes: seq<PrOutcome>, results: seq<ActionResult>, how: ActionStatus)
    requires |outcomes| == |results|
    requires forall i | 0 <= i < |results| :: outcomes[i].status == Ended(results[i].status)
    ensures CountOutcomes(outcomes, how) == CountResults(results, how)
  {
    if results != [] { CountsAgree(outcomes[1..], results[1..], how); }
  }

  lemma {:induction false} CountsSum(results: seq<ActionResult>)
    ensures CountResults(results, Opened) + CountResults(results, AlreadyExists) + CountResults(results, Failed)
      + CountResults(results, Skipped) == |results|
  {
    if results != [] { CountsSum(results[1..]); }
  }

  /** Failed or skipped, as the run status sees it. */
  predicate Unsuccessful(r: ActionResult) {
    r.status in {Failed, Skipped}
  }

  lemma {:induction false} CountIsZeroIff(results: seq<ActionResult>, how: ActionStatus)
    ensures CountResults(results, how) == 0 <==> forall r | r in results :: r.status != how
  {
    if results != [] {
      assert results == [results[0]] + results[1..];
      CountIsZeroIff(results[1..], how);
    }
  }

  lemma {:induction false} StatusOfResults(results: seq<ActionResult>)
    ensures StatusReports(FinalStatus(|results|, CompleteEvent(results).counts), results)
  {
    hide CountResults, FinalStatus;
    CountsSum(results);
    CountIsZeroIff(results, Opened);
    CountIsZeroIff(results, AlreadyExists);
    CountIsZeroIff(results, Failed);
    CountIsZeroIff(results, Skipped);
    var c := CompleteEvent(results).counts;
    StatusSaysWhatFailed(|results|, c);
    assert c.failed + c.skipped == 0 <==> forall r | r in results :: !Unsuccessful(r);
    assert c.newlyOpened + c.alreadyExists == 0 <==> forall r | r in results :: Unsuccessful(r);
  }

  /** At most one outcome a candidate is counted. */
  lemma {:induction false} CountedAtMostOnce(outcomes: seq<PrOutcome>)
    ensures CountOutcomes(outcomes, Opened) + CountOutcomes(outcomes, AlreadyExists) + CountOutcomes(outcomes, Failed)
      + CountOutcomes(outcomes, Skipped) <= |outcomes|
  {
    if outcomes != [] { CountedAtMostOnce(outcomes[1..]); }
  }

  /** The positions of the results of this kind. */
  function ResultPlaces(results: seq<ActionResult>, how: ActionStatus): set<nat> {
    set i: nat | i < |results| && results[i].status == how
  }

  /** The event counts the results of each kind and their number. */
  lemma {:induction false} CompleteEventSays(results: seq<ActionResult>)
    ensures var e := CompleteEvent(results);
      && e.ScanComplete? && e.total == |results|
      && e.counts.newlyOpened == |ResultPlaces(results, Opened)|
      && e.counts.alreadyExists == |ResultPlaces(results, AlreadyExists)|
      && e.counts.failed == |ResultPlaces(results, Failed)| && e.counts.skipped == |ResultPlaces(results, Skipped)|
  {
    hide ResultPlaces, CountResults;
    CountIsResultPlaces(results, Opened);
    CountIsResultPlaces(results, AlreadyExists);
    CountIsResultPlaces(results, Failed);
    CountIsResultPlaces(results, Skipped);
  }

  lemma {:induction false} CountIsResultPlaces(results: seq<ActionResult>, how: ActionStatus)
    ensures CountResults(results, how) == |ResultPlaces(results, how)|
  {
    if results != [] {
      var init, last := results[..|results| - 1], results[|results| - 1];
      CountIsResultPlaces(init, how);
      CountOfLastResult(results, how);
      var places := ResultPlaces(init, how);
      if last.status == how {
        assert ResultPlaces(results, how) == places + {|init|};
      } else {
        assert ResultPlaces(results, how) == places;
      }
    }
  }

  lemma {:induction false} CountOfLastResult(results: seq<ActionResult>, how: ActionStatus)
    requires results != []
    ensures CountResults(results, how) ==
      CountResults(results[..|results| - 1], how) + (if results[|results| - 1].status == how then 1 else 0)
  {
    if |results| > 1 {
      CountOfLastResult(results[1..], how);
      assert results[1..][..|results| - 2] == results[..|results| - 1][1..];
    }
  }

  function Sum(c: OutcomeCounts): nat {
    c.newlyOpened + c.alreadyExists + c.failed + c.skipped
  }

  /** The run status against the results: whether no, some or every candidate was unsuccessful. */
  ghost predicate StatusReports(status: RecordStatus, results: seq<ActionResult>) {
    && (status == RecordCompleted <==> forall r | r in results :: !Unsuccessful(r))
    && (status == RecordFailed <==> results != [] && forall r | r in results :: Unsuccessful(r))
    && (status == RecordPartial <==>
          (exists r | r in results :: Unsuccessful(r)) && exists r | r in results :: !Unsuccessful(r))
  }

  /** The record shows, in plan order, the outcome each worker reported. */
  ghost predicate Shows(outcomes: seq<PrOutcome>, plan: seq<Planned>, results: seq<ActionResult>) {
    && |outcomes| == |plan| == |results|
    && forall i: nat | i < |plan| ::
         && outcomes[i].plan == plan[i] && results[i].candidateId == plan[i].candidateId
         && outcomes[i].status == Ended(results[i].status)
         && outcomes[i].prNumber == results[i].prNumber && outcomes[i].prUrl == results[i].prUrl
         && outcomes[i].error == (if results[i].status in {Failed, Skipped} then results[i].reason else None)
  }

  /**
   After `scan_complete`, for every plan and every interleaving: the record lists each planned candidate once;
   the run is completed, partial or failed exactly when no, some or every candidate was unsuccessful; the
   counts of the event sum to the total; and the record gives the same counts exactly when no candidate is
   planned twice. Then it also shows each worker's result, in plan order.
   */
  lemma {:induction false} ClosedRecord(plan: seq<Planned>, permits: nat, moves: seq<Move>)
    requires Schedule(plan, permits, Initial(plan), moves)
    requires AllDone(Interleave(plan, permits, Initial(plan), moves).phases)
    ensures var s := Interleave(plan, permits, Initial(plan), moves);
      var rec, results := Closed(s), Results(s.phases);
      var counts := CompleteEvent(results).counts;
      && |results| == |plan| && IdsOf(rec.outcomes) == Dedup(PlanIds(plan))
      && StatusReports(rec.status, results) && Sum(counts) == |plan|
      && (CountsFromOutcomes(rec.outcomes) == counts <==> DistinctPlan(plan))
      && (DistinctPlan(plan) ==> Shows(rec.outcomes, plan, results))
  {
    hide Consistent, StatusReports, Shows, DistinctPlan, InFlight;
    InitialIsConsistent(plan, permits);
    ScheduleKeeps(plan, permits, Initial(plan), moves);
    var s := Interleave(plan, permits, Initial(plan), moves);
    ClosedIsTallied(plan, permits, s);
  }

  lemma {:induction false} DistinctPlanIff(plan: seq<Planned>)
    ensures DistinctPlan(plan) <==> Distinct(PlanIds(plan))
  {
    if Distinct(PlanIds(plan)) {
      forall i, j | 0 <= i < j < |plan| ensures plan[i].candidateId != plan[j].candidateId {
        assert PlanIds(plan)[i] != PlanIds(plan)[j];
      }
    }
  }

  lemma {:induction false} ClosedIsTallied(plan: seq<Planned>, permits: nat, s: System)
    requires Consistent(plan, permits, s) && AllDone(s.phases)
    ensures var rec, results := Closed(s), Results(s.phases);
      var counts := CompleteEvent(results).counts;
      && |results| == |plan| && IdsOf(rec.outcomes) == Dedup(PlanIds(plan))
      && StatusReports(rec.status, results) && Sum(counts) == |plan|
      && (CountsFromOutcomes(rec.outcomes) == counts <==> DistinctPlan(plan))
      && (DistinctPlan(plan) ==> Shows(rec.outcomes, plan, results))
  {
    hide InFlight, FinalStatus, RunReasons, CountOutcomes, CountResults, Unsuccessful, DistinctPlan, Dedup, PlanIds,
        Shows;
    var results, rec := Results(s.phases), Closed(s);
    CountsSum(results);
    StatusOfResults(results);
    CountedAtMostOnce(rec.outcomes);
    DedupIsShorterIff(PlanIds(plan));
    DistinctPlanIff(plan);
    PlanIdsLength(plan);
    assert |rec.outcomes| == |IdsOf(rec.outcomes)|;
    if DistinctPlan(plan) {
      DoneShows(plan, s);
      ShownCountsAgree(rec.outcomes, plan, results);
    }
  }

  lemma {:induction false} PlanIdsLength(plan: seq<Planned>)
    ensures |PlanIds(plan)| == |plan|
  {
  }

  lemma {:induction false} DoneShows(plan: seq<Planned>, s: System)
    requires |s.phases| == |plan| && AllDone(s.phases) && forall i: nat | i < |plan| :: OwnResult(plan[i], s.phases[i])
    ensures Shows(OutcomesIn(plan, s.phases), plan, Results(s.phases))
  {
    forall i: nat | i < |plan| ensures s.phases[i].Done? && OwnResult(plan[i], s.phases[i]) {
      assert s.phases[i] in s.phases;
    }
  }

  lemma {:induction false} ShownCountsAgree(outcomes: seq<PrOutcome>, plan: seq<Planned>, results: seq<ActionResult>)
    requires Shows(outcomes, plan, results)
    ensures CountsFromOutcomes(outcomes) == CompleteEvent(results).counts
  {
    CountsAgree(outcomes, results, Opened);
    CountsAgree(outcomes, results, AlreadyExists);
    CountsAgree(outcomes, results, Failed);
    CountsAgree(outcomes, results, Skipped);
  }
}

/**
 The persistent record of a pull-request action and the events mirrored into it
 (arguss/web/action_records.py, arguss/web/completion_summary.py).
 */
module ActionRecords {
  import opened Basics
  import opened Findings
  import opened Sorting
  import opened ActionRuns

  /** What an event says of its candidate besides the outcome. */
  datatype Planned = Planned(candidateId: CandidateId, pkg: string, from: string, to: string, kind: string)

  datatype OutcomeStatus = Pending | Ended(how: ActionStatus)

  datatype PrOutcome = PrOutcome(
    plan: Planned, status: OutcomeStatus, prNumber: Option<int>, prUrl: Option<string>, error: Option<string>)

  datatype OutcomeCounts = OutcomeCounts(newlyOpened: nat, alreadyExists: nat, failed: nat, skipped: nat)

  datatype ActionEvent =
    | ActionsPlanned(plan: seq<Planned>)
    | ActionStarted(started: Planned)
    | ActionCompleted(ended: Planned, result: ActionResult)
    | ScanComplete(total: nat, counts: OutcomeCounts)
    | ScanFailed(reason: Option<string>)

  datatype RecordStatus = RecordPending | RecordCompleted | RecordPartial | RecordFailed

  /** `reasons` are the lines of `failure_reason`. */
  datatype Record = Record(outcomes: seq<PrOutcome>, status: RecordStatus, reasons: Option<seq<string>>)

  // ---- Outcomes ----

  /** `_outcome_from_planned_candidate` and `_outcome_from_started` */
  function PendingOutcome(p: Planned): PrOutcome {
    PrOutcome(p, Pending, None, None, None)
  }

  /** `_outcome_from_completed` */
  function CompletedOutcome(p: Planned, r: ActionResult): PrOutcome {
    PrOutcome(p.(candidateId := r.candidateId), Ended(r.status), r.prNumber, r.prUrl,
        if r.status in {Skipped, Failed} then r.reason else None)
  }

  function OrElse(text: string, existing: string): string {
    if text != "" then text else existing
  }

  function IfSome<T>(o: Option<T>, existing: Option<T>): Option<T> {
    if o.Some? then o else existing
  }

  /** A later outcome for a recorded candidate; it never blanks a field. */
  function MergedOutcome(o: PrOutcome, existing: PrOutcome): PrOutcome {
    var p := Planned(o.plan.candidateId, OrElse(o.plan.pkg, existing.plan.pkg), OrElse(o.plan.from, existing.plan.from),
        OrElse(o.plan.to, existing.plan.to), OrElse(o.plan.kind, existing.plan.kind));
    PrOutcome(p, o.status, IfSome(o.prNumber, existing.prNumber), IfSome(o.prUrl, existing.prUrl),
        IfSome(o.error, existing.error))
  }

  /** The first outcome of the same candidate is replaced; a new candidate goes last. */
  function Updated(outcomes: seq<PrOutcome>, o: PrOutcome): seq<PrOutcome> {
    if outcomes == [] then [o]
    else if outcomes[0].plan.candidateId == o.plan.candidateId then [MergedOutcome(o, outcomes[0])] + outcomes[1..]
    else [outcomes[0]] + Updated(outcomes[1..], o)
  }

  function UpdatedAll(outcomes: seq<PrOutcome>, plan: seq<Planned>): seq<PrOutcome> {
    if plan == [] then outcomes
    else Updated(UpdatedAll(outcomes, plan[..|plan| - 1]), PendingOutcome(plan[|plan| - 1]))
  }

  // ---- Closing the record ----

  /** `_finalize_status_from_scan_complete` */
  function FinalStatus(total: nat, c: OutcomeCounts): RecordStatus {
    var succeeded, failed := c.newlyOpened + c.alreadyExists, c.failed + c.skipped;
    if total == 0 || succeeded >= total then RecordCompleted
    else if succeeded == 0 && failed > 0 then RecordFailed
    else if failed > 0 then RecordPartial
    else RecordCompleted
  }

  predicate HasReason(o: PrOutcome) {
    o.status in {Ended(Failed), Ended(Skipped)} && o.error.Some? && o.error.value != ""
  }

  function ReasonsOf(outcomes: seq<PrOutcome>): seq<string> {
    if outcomes == [] then []
    else
      var o := outcomes[|outcomes| - 1];
      ReasonsOf(outcomes[..|outcomes| - 1]) +
      (if HasReason(o) then [o.error.value] else [])
  }

  /** `distinct_failure_reasons`, for reasons without outer whitespace. */
  method DistinctFailureReasons(outcomes: seq<PrOutcome>) returns (reasons: seq<string>)
    ensures reasons == Dedup(ReasonsOf(outcomes))
  {
    reasons := [];
    var i := 0;
    while i < |outcomes|
      invariant 0 <= i <= |outcomes| && reasons == Dedup(ReasonsOf(outcomes[..i]))
    {
      assert outcomes[..i + 1][..i] == outcomes[..i];
      var o := outcomes[i];
      if HasReason(o) {
        assert ReasonsOf(outcomes[..i + 1])[..|ReasonsOf(outcomes[..i])|] == ReasonsOf(outcomes[..i]);
        if o.error.value !in reasons { reasons := reasons + [o.error.value]; }
      } else {
        assert ReasonsOf(outcomes[..i]) + [] == ReasonsOf(outcomes[..i]);
      }
      i := i + 1;
    }
    assert outcomes[..i] == outcomes;
  }

  /** `finalize_action_record`: a reason is kept when no new one is given. */
  function Finalized(rec: Record, status: RecordStatus, reasons: Option<seq<string>>): Record {
    rec.(status := status, reasons := IfSome(reasons, rec.reasons))
  }

  /** The reason a run whose candidates all failed is closed with. */
  function RunReasons(outcomes: seq<PrOutcome>, status: RecordStatus): Option<seq<string>> {
    var reasons := Dedup(ReasonsOf(outcomes));
    if status == RecordFailed && reasons != [] then Some(reasons) else None
  }

  /** What `mirror_action_event` makes of a record. */
  function Mirrored(rec: Record, e: ActionEvent): Record {
    match e
    case ActionsPlanned(plan) => rec.(outcomes := UpdatedAll(rec.outcomes, plan))
    case ActionStarted(p) => rec.(outcomes := Updated(rec.outcomes, PendingOutcome(p)))
    case ActionCompleted(p, r) => rec.(outcomes := Updated(rec.outcomes, CompletedOutcome(p, r)))
    case ScanComplete(total, counts) =>
      Finalized(rec, FinalStatus(total, counts), RunReasons(rec.outcomes, FinalStatus(total, counts)))
    case ScanFailed(reason) =>
      Finalized(rec, RecordFailed, if reason.Some? && reason.value != "" then Some([reason.value]) else None)
  }

  // ---- Counting ----

  function CountOutcomes(outcomes: seq<PrOutcome>, how: ActionStatus): nat {
    if outcomes == [] then 0
    else (if outcomes[0].status == Ended(how) then 1 else 0) + CountOutcomes(outcomes[1..], how)
  }

  /** `counts_from_pr_outcomes` */
  function CountsFromOutcomes(outcomes: seq<PrOutcome>): OutcomeCounts {
    OutcomeCounts(CountOutcomes(outcomes, Opened), CountOutcomes(outcomes, AlreadyExists),
        CountOutcomes(outcomes, Failed), CountOutcomes(outcomes, Skipped))
  }

  // ---- The stored record, rewritten in place ----

  class ActionRecord {
    var outcomes: seq<PrOutcome>
    var status: RecordStatus
    var reasons: Option<seq<string>>

    ghost function Contents(): Record
      reads this
    {
      Record(outcomes, status, reasons)
    }

    /** `create_action_record` */
    constructor ()
      ensures Contents() == Record([], RecordPending, None)
    {
      outcomes, status, reasons := [], RecordPending, None;
    }

    /** `update_pr_outcome` */
    method UpdatePrOutcome(o: PrOutcome)
      modifies this`outcomes
      ensures outcomes == Updated(old(outcomes), o)
    {
      var i := 0;
      while i < |outcomes|
        invariant 0 <= i <= |outcomes| && outcomes == old(outcomes)
        invariant outcomes[..i] + Updated(outcomes[i..], o) == Updated(outcomes, o)
      {
        var existing := outcomes[i];
        if existing.plan.candidateId == o.plan.candidateId {
          assert outcomes[i..][1..] == outcomes[i + 1..];
          outcomes := outcomes[i := MergedOutcome(o, existing)];
          return;
        }
        assert outcomes[i..][1..] == outcomes[i + 1..];
        assert outcomes[..i] + ([outcomes[i]] + Updated(outcomes[i + 1..], o)) ==
            outcomes[..i + 1] + Updated(outcomes[i + 1..], o);
        i := i + 1;
      }
      assert outcomes[..i] == outcomes && outcomes[i..] == [];
      outcomes := outcomes + [o];
    }

    method FinalizeActionRecord(newStatus: RecordStatus, newReasons: Option<seq<string>>)
      modifies this`status, this`reasons
      ensures Contents() == Finalized(old(Contents()), newStatus, newReasons)
    {
      status := newStatus;
      if newReasons.Some? { reasons := newReasons; }
    }

    /** `mirror_action_event` */
    method MirrorActionEvent(e: ActionEvent)
      modifies this
      ensures Contents() == Mirrored(old(Contents()), e)
    {
      match e
      case ActionsPlanned(plan) =>
        var i := 0;
        while i < |plan|
          invariant 0 <= i <= |plan|
          invariant Contents() == Mirrored(old(Contents()), ActionsPlanned(plan[..i]))
        {
          assert plan[..i + 1][..i] == plan[..i];
          UpdatePrOutcome(PendingOutcome(plan[i]));
          i := i + 1;
        }
        assert plan[..i] == plan;
      case ActionStarted(p) =>
        UpdatePrOutcome(PendingOutcome(p));
      case ActionCompleted(p, r) =>
        UpdatePrOutcome(CompletedOutcome(p, r));
      case ScanComplete(total, counts) =>
        var resolved := FinalStatus(total, counts);
        var lines: Option<seq<string>> := None;
        if resolved == RecordFailed {
          var found := DistinctFailureReasons(outcomes);
          if found != [] { lines := Some(found); }
        }
        FinalizeActionRecord(resolved, lines);
      case ScanFailed(reason) =>
        FinalizeActionRecord(RecordFailed, if reason.Some? && reason.value != "" then Some([reason.value]) else None);
    }
  }

  // ---- Laws of the record ----

  ghost predicate DistinctOutcomes(outcomes: seq<PrOutcome>) {
    forall i, j | 0 <= i < j < |outcomes| :: outcomes[i].plan.candidateId != outcomes[j].plan.candidateId
  }

  /** An outcome for the i-th recorded candidate rewrites that entry and no other. */
  lemma {:induction false} UpdateInPlace(outcomes: seq<PrOutcome>, i: nat, o: PrOutcome)
    requires DistinctOutcomes(outcomes) && i < |outcomes| && outcomes[i].plan.candidateId == o.plan.candidateId
    ensures Updated(outcomes, o) == outcomes[i := MergedOutcome(o, outcomes[i])]
  {
    if i > 0 {
      UpdateInPlace(outcomes[1..], i - 1, o);
      assert outcomes == [outcomes[0]] + outcomes[1..];
    }
  }

  /** An outcome for a candidate not recorded yet goes last. */
  lemma {:induction false} UpdateAppends(outcomes: seq<PrOutcome>, o: PrOutcome)
    requires forall e | e in outcomes :: e.plan.candidateId != o.plan.candidateId
    ensures Updated(outcomes, o) == outcomes + [o]
  {
    if outcomes != [] {
      UpdateAppends(outcomes[1..], o);
      assert outcomes == [outcomes[0]] + outcomes[1..];
      assert outcomes + [o] == [outcomes[0]] + (outcomes[1..] + [o]);
    }
  }

  ghost predicate DistinctPlan(plan: seq<Planned>) {
    forall i, j | 0 <= i < j < |plan| :: plan[i].candidateId != plan[j].candidateId
  }

  function IdsOf(outcomes: seq<PrOutcome>): seq<CandidateId> {
    seq(|outcomes|, i requires 0 <= i < |outcomes| => outcomes[i].plan.candidateId)
  }

  function PlanIds(plan: seq<Planned>): seq<CandidateId> {
    seq(|plan|, i requires 0 <= i < |plan| => plan[i].candidateId)
  }

  lemma {:induction false} IdsOfCons(first: PrOutcome, rest: seq<PrOutcome>)
    ensures IdsOf([first] + rest) == [first.plan.candidateId] + IdsOf(rest)
  {
  }

  lemma {:induction false} MergedKeepsId(o: PrOutcome, existing: PrOutcome)
    ensures MergedOutcome(o, existing).plan.candidateId == o.plan.candidateId
  {
  }

  /** An outcome adds its candidate to the record once. */
  lemma {:induction false} UpdateKeepsIds(outcomes: seq<PrOutcome>, o: PrOutcome)
    ensures IdsOf(Updated(outcomes, o)) ==
      if o.plan.candidateId in IdsOf(outcomes) then IdsOf(outcomes) else IdsOf(outcomes) + [o.plan.candidateId]
  {
    hide IdsOf, MergedOutcome;
    if outcomes == [] {
      NoIds();
      IdsOfCons(o, []);
      assert [o] + [] == [o];
    } else {
      var first, rest := outcomes[0], outcomes[1..];
      assert outcomes == [first] + rest;
      IdsOfCons(first, rest);
      if first.plan.candidateId == o.plan.candidateId {
        MergedKeepsId(o, first);
        IdsOfCons(MergedOutcome(o, first), rest);
      } else {
        UpdateKeepsIds(rest, o);
        IdsOfCons(first, Updated(rest, o));
      }
    }
  }

  lemma {:induction false} NoIds()
    ensures IdsOf([]) == []
  {
  }

  /** After the plan event the record lists each planned candidate once, in order of first appearance. */
  lemma {:induction false} PlanIdsAreLaidOut(plan: seq<Planned>)
    ensures IdsOf(UpdatedAll([], plan)) == Dedup(PlanIds(plan))
  {
    hide IdsOf, Updated, PlanIds;
    PlanIdsOfLast(plan);
    if plan == [] {
      NoIds();
    } else {
      var init, last := plan[..|plan| - 1], plan[|plan| - 1];
      PlanIdsAreLaidOut(init);
      UpdateKeepsIds(UpdatedAll([], init), PendingOutcome(last));
    }
  }

  lemma {:induction false} PlanIdsOfLast(plan: seq<Planned>)
    ensures var ids := PlanIds(plan);
      if plan == [] then ids == []
      else
        && ids != [] && ids[|ids| - 1] == plan[|plan| - 1].candidateId
        && ids[..|ids| - 1] == PlanIds(plan[..|plan| - 1])
  {
  }

  /** The plan event lays the record out in plan order, all pending. */
  lemma {:induction false} PlanIsLaidOut(plan: seq<Planned>)
    requires DistinctPlan(plan)
    ensures UpdatedAll([], plan) == seq(|plan|, i requires 0 <= i < |plan| => PendingOutcome(plan[i]))
  {
    if plan != [] {
      var init := plan[..|plan| - 1];
      PlanIsLaidOut(init);
      UpdateAppends(UpdatedAll([], init), PendingOutcome(plan[|plan| - 1]));
    }
  }

  /**
   With every candidate ended, the run is completed, partial or failed exactly when none, some or all of
   its candidates failed or were skipped; an empty run is completed.
   */
  lemma {:induction false} StatusSaysWhatFailed(total: nat, c: OutcomeCounts)
    requires c.newlyOpened + c.alreadyExists + c.failed + c.skipped == total
    ensures var bad := c.failed + c.skipped;
      && (FinalStatus(total, c) == RecordCompleted <==> bad == 0)
      && (FinalStatus(total, c) == RecordFailed <==> bad == total > 0)
      && (FinalStatus(total, c) == RecordPartial <==> 0 < bad < total)
  {
  }

  // ---- Events, spelled out ----

  /** A recorded candidate keeps its place, and its fields where the later outcome is blank. */
  lemma {:induction false} UpdatedSays(outcomes: seq<PrOutcome>, o: PrOutcome, i: nat) returns (x: PrOutcome)
    requires i < |outcomes| && outcomes[i].plan.candidateId == o.plan.candidateId
    requires forall j | 0 <= j < i :: outcomes[j].plan.candidateId != o.plan.candidateId
    ensures Updated(outcomes, o) == outcomes[i := x] && IsMergeOf(x, o, outcomes[i])
  {
    hide MergedOutcome, IsMergeOf;
    if i == 0 {
      x := MergedOutcome(o, outcomes[0]);
      MergedIsMerge(o, outcomes[0]);
    } else {
      x := UpdatedSays(outcomes[1..], o, i - 1);
      assert [outcomes[0]] + outcomes[1..][i - 1 := x] == outcomes[i := x];
    }
  }

  predicate Overrides(x: string, text: string, old': string) {
    if text == "" then x == old' else x == text
  }

  predicate IsMergeOf(x: PrOutcome, o: PrOutcome, existing: PrOutcome) {
    && x.plan.candidateId == o.plan.candidateId && x.status == o.status
    && Overrides(x.plan.pkg, o.plan.pkg, existing.plan.pkg) && Overrides(x.plan.from, o.plan.from, existing.plan.from)
    && Overrides(x.plan.to, o.plan.to, existing.plan.to) && Overrides(x.plan.kind, o.plan.kind, existing.plan.kind)
    && x.prNumber == (if o.prNumber.None? then existing.prNumber else o.prNumber)
    && x.prUrl == (if o.prUrl.None? then existing.prUrl else o.prUrl)
    && x.error == (if o.error.None? then existing.error else o.error)
  }

  lemma {:induction false} MergedIsMerge(o: PrOutcome, existing: PrOutcome)
    ensures IsMergeOf(MergedOutcome(o, existing), o, existing)
  {
  }

  /** A started candidate is pending; an ended one has its result, with a reason only if it failed or was skipped. */
  lemma {:induction false} CandidateEventsSay(rec: Record, p: Planned, r: ActionResult)
    ensures Mirrored(rec, ActionStarted(p)) == Record(
        Updated(rec.outcomes, PrOutcome(p, Pending, None, None, None)), rec.status, rec.reasons)
    ensures Mirrored(rec, ActionCompleted(p, r)) == Record(
        Updated(rec.outcomes, PrOutcome(Planned(r.candidateId, p.pkg, p.from, p.to, p.kind), Ended(r.status),
            r.prNumber, r.prUrl, if r.status == Failed || r.status == Skipped then r.reason else None)),
        rec.status, rec.reasons)
    ensures Mirrored(rec, ActionsPlanned([])) == rec
  {
  }

  lemma {:induction false} PlannedEventSays(rec: Record, plan: seq<Planned>, p: Planned)
    ensures Mirrored(rec, ActionsPlanned(plan + [p])) == Mirrored(Mirrored(rec, ActionsPlanned(plan)), ActionStarted(p))
  {
    assert (plan + [p])[..|plan|] == plan;
  }

  /** How the two events that end a run close its record; outcomes stay as they are. */
  lemma {:induction false} ClosingEventsSay(rec: Record, total: nat, c: OutcomeCounts, reason: Option<string>)
    ensures var done := Mirrored(rec, ScanComplete(total, c));
      var ok, bad := c.newlyOpened + c.alreadyExists, c.failed + c.skipped;
      && done.outcomes == rec.outcomes
      && (done.status == RecordFailed <==> ok == 0 && bad > 0 && total > 0)
      && (done.status == RecordPartial <==> 0 < ok < total && bad > 0)
      && done.status != RecordPending
      && done.reasons ==
           if done.status == RecordFailed && ReasonsOf(rec.outcomes) != [] then Some(Dedup(ReasonsOf(rec.outcomes)))
           else rec.reasons
    ensures var failed := Mirrored(rec, ScanFailed(reason));
      && failed.outcomes == rec.outcomes && failed.status == RecordFailed
      && failed.reasons == match reason case None => rec.reasons
                           case Some(text) => if text == "" then rec.reasons else Some([text])
  {
    DedupIsDistinct(ReasonsOf(rec.outcomes));
    var reasons := ReasonsOf(rec.outcomes);
    if reasons != [] { assert reasons[0] in Dedup(reasons); }
  }

  /** The reasons are the non-empty errors of failed and skipped outcomes, in order. */
  lemma {:induction false} ReasonsSay(outcomes: seq<PrOutcome>) returns (places: seq<nat>)
    ensures |places| == |ReasonsOf(outcomes)| && (forall p, q | 0 <= p < q < |places| :: places[p] < places[q])
    ensures forall j: nat :: j in places <==>
      && j < |outcomes| && (outcomes[j].status == Ended(Failed) || outcomes[j].status == Ended(Skipped))
      && outcomes[j].error.Some? && outcomes[j].error.value != ""
    ensures forall p | 0 <= p < |places| ::
      places[p] < |outcomes| && outcomes[places[p]].error == Some(ReasonsOf(outcomes)[p])
  {
    places := [];
    if outcomes != [] {
      var init, o := outcomes[..|outcomes| - 1], outcomes[|outcomes| - 1];
      places := ReasonsSay(init);
      var reasons := ReasonsOf(init);
      assert ReasonsOf(outcomes) == reasons + (if HasReason(o) then [o.error.value] else []);
      forall p | 0 <= p < |places| ensures outcomes[places[p]].error == Some(reasons[p]) {
        assert outcomes[places[p]] == init[places[p]];
      }
      forall j: nat ensures j in places <==> j < |init| && HasReason(outcomes[j]) {
        if j < |init| { assert outcomes[j] == init[j]; }
      }
      if HasReason(o) { places := places + [|init|]; }
    }
  }

  /** The positions at which outcomes ended this way. */
  function EndedPlaces(outcomes: seq<PrOutcome>, how: ActionStatus): set<nat> {
    set i: nat | i < |outcomes| && outcomes[i].status == Ended(how)
  }

  /** The counts are the numbers of outcomes that ended each way. */
  lemma {:induction false} CountsSay(outcomes: seq<PrOutcome>)
    ensures var c := CountsFromOutcomes(outcomes);
      && c.newlyOpened == |EndedPlaces(outcomes, Opened)| && c.alreadyExists == |EndedPlaces(outcomes, AlreadyExists)|
      && c.failed == |EndedPlaces(outcomes, Failed)| && c.skipped == |EndedPlaces(outcomes, Skipped)|
  {
    hide EndedPlaces, CountOutcomes;
    CountIsPlaces(outcomes, Opened);
    CountIsPlaces(outcomes, AlreadyExists);
    CountIsPlaces(outcomes, Failed);
    CountIsPlaces(outcomes, Skipped);
  }

  lemma {:induction false} CountIsPlaces(outcomes: seq<PrOutcome>, how: ActionStatus)
    ensures CountOutcomes(outcomes, how) == |EndedPlaces(outcomes, how)|
  {
    if outcomes != [] {
      var init, last := outcomes[..|outcomes| - 1], outcomes[|outcomes| - 1];
      CountIsPlaces(init, how);
      CountOfLast(outcomes, how);
      var places := EndedPlaces(init, how);
      if last.status == Ended(how) {
        assert EndedPlaces(outcomes, how) == places + {|init|};
      } else {
        assert EndedPlaces(outcomes, how) == places;
      }
    }
  }

  lemma {:induction false} CountOfLast(outcomes: seq<PrOutcome>, how: ActionStatus)
    requires outcomes != []
    ensures CountOutcomes(outcomes, how) == CountOutcomes(outcomes[..|outcomes| - 1], how)
      + (if outcomes[|outcomes| - 1].status == Ended(how) then 1 else 0)
  {
    if |outcomes| > 1 {
      CountOfLast(outcomes[1..], how);
      assert outcomes[1..][..|outcomes| - 2] == outcomes[..|outcomes| - 1][1..];
    }
  }
}

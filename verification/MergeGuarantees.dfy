/**
 The promises of the wait-and-merge task over whole runs, in every environment
 (arguss/web/action_merge.py, arguss/web/action_runs.py, arguss/web/mode_c_workflow.py).
 */
module MergeGuarantees {
  import opened Basics
  import opened FixConfidence
  import opened Findings
  import opened Proposal
  import opened ActionRuns
  import opened ActionMerge
  import opened MergeLaws

  // ---- Safety ----

  /**
   A merge request is made only for a row seeded to wait, pinned to the row's one head, with the row's
   own authorization, right after a non-empty, all-completed, all-green answer for that head.
   */
  lemma {:induction false} MergeSafety(cfg: Config, start: real, env: Environment, seeded: seq<Row>, p: nat)
    requires cfg.pollInterval > 0.0 && OrdersRows(env, |seeded|)
    requires var history := RunTask(cfg, start, env, seeded).0.history; p < |history| && history[p].call.MergePr?
    ensures var t := RunTask(cfg, start, env, seeded).0;
      var Event(i, merge) := t.history[p];
      && i < |seeded| && !Terminal(seeded[i].state)
      && p > 0 && t.history[p - 1].row == i && Clears(t.history[p - 1].call, merge)
      && t.rows[i].headSha == Some(merge.sha) && (seeded[i].headSha.Some? ==> seeded[i].headSha == Some(merge.sha))
      && seeded[i].prNumber == Some(merge.pr) && seeded[i].auth == merge.auth
  {
    hide RunTask, Green, AppendCount, EmptySince, WaitedInVain, EndsAreAnswered, NoneRaised, CallsOf;
    RunIsSound(seeded, cfg, start, env);
    var t := RunTask(cfg, start, env, seeded).0;
    var Event(i, merge) := t.history[p];
    assert FollowsLook(t.history, p) && t.history[p] in t.history;
    var calls := CallsOf(t.history, i);
    CallsOfHas(t.history, i, merge);
    assert RowSound(seeded, t, cfg.grace, i);
    var q: nat :| q < |calls| && calls[q] == merge;
    assert Cleared(calls, q, t.rows[i]);
  }

  /** A row is merged, stopped on a failed check or on a moved head exactly when GitHub answered so. */
  lemma {:induction false} EndsFollowAnswers(cfg: Config, start: real, env: Environment, seeded: seq<Row>, i: nat,
      state: CandidateState)
    requires cfg.pollInterval > 0.0 && OrdersRows(env, |seeded|) && i < |seeded|
    requires state in {Merged, CiFailed, ShaConflict} && seeded[i].state != state
    ensures var t := RunTask(cfg, start, env, seeded).0;
      t.rows[i].state == state <==> exists e | e in t.history :: e.row == i && Settles(e.call) == Some(state)
  {
    hide RunTask, AppendCount, EmptySince, WaitedInVain, NoneRaised, CallsOf, Settles, MergesCleared,
        MergesFollowLooks;
    RunIsSound(seeded, cfg, start, env);
    var t := RunTask(cfg, start, env, seeded).0;
    assert RowSound(seeded, t, cfg.grace, i);
    var calls := CallsOf(t.history, i);
    if t.rows[i].state == state {
      var c :| c in calls && Settles(c) == Some(state);
      CallsOfHas(t.history, i, c);
      assert Event(i, c) in t.history;
    }
    forall e | e in t.history && e.row == i && Settles(e.call) == Some(state) ensures t.rows[i].state == state {
      assert e == Event(i, e.call);
      CallsOfHas(t.history, i, e.call);
      assert Settled(calls, state);
    }
  }

  /**
   `no_checks` exactly when an unbroken stretch of empty answers lasted the grace period, with no other
   answer since.
   */
  lemma {:induction false} NoChecksIffWaitedGrace(cfg: Config, start: real, env: Environment, seeded: seq<Row>, i: nat)
    requires cfg.pollInterval > 0.0 && OrdersRows(env, |seeded|) && i < |seeded| && seeded[i].state != NoChecks
    ensures var t := RunTask(cfg, start, env, seeded).0;
      t.rows[i].state == NoChecks <==> WaitedInVain(CallsOf(t.history, i), cfg.grace)
  {
    hide RunTask, AppendCount, StretchIs, WaitedInVain, EndsAreAnswered, NoneRaised, CallsOf, MergesCleared,
        MergesFollowLooks;
    RunIsSound(seeded, cfg, start, env);
    assert RowSound(seeded, RunTask(cfg, start, env, seeded).0, cfg.grace, i);
  }

  /** The authorization line is written to a pull request at most once, and not again once recorded. */
  lemma {:induction false} BodyAppendedAtMostOnce(cfg: Config, start: real, env: Environment, seeded: seq<Row>, i: nat)
    requires cfg.pollInterval > 0.0 && OrdersRows(env, |seeded|) && i < |seeded|
    ensures var n := AppendCount(CallsOf(RunTask(cfg, start, env, seeded).0.history, i));
      n <= 1 && (seeded[i].appended ==> n == 0)
  {
    hide RunTask, AppendCount, EmptySince, EndsAreAnswered, NoneRaised, CallsOf, MergesCleared, MergesFollowLooks,
        WaitedInVain;
    RunIsSound(seeded, cfg, start, env);
    assert RowSound(seeded, RunTask(cfg, start, env, seeded).0, cfg.grace, i);
  }

  // ---- From any point of a run on ----

  lemma {:induction false} JudgeForward(row: Row, sha: string, since: Option<real>, grace: real, obs: Observation,
      calls: seq<Call>)
    requires !Terminal(row.state)
    ensures Forward(row, Judge(row, sha, since, grace, obs, calls).row)
  {
    hide Green, AnyFailed;
  }

  lemma {:induction false} ProcessForward(row: Row, since: Option<real>, grace: real, obs: Observation)
    ensures Forward(row, Process(row, since, grace, obs).row)
  {
    hide Judge;
    var announce := row.auth.Some? && !row.appended;
    var calls := AnnounceCalls(row);
    var marked := if announce then row.(appended := true) else row;
    if !Terminal(row.state) {
      if row.headSha.Some? {
        JudgeForward(marked, row.headSha.value, since, grace, obs, calls);
      } else if row.prNumber.Some? {
        var head := obs.head(row.prNumber.value);
        if head.Got? && head.value.Some? {
          JudgeForward(marked.(headSha := head.value), head.value.value, since, grace, obs,
              calls + [FetchHead(row.prNumber.value, head)]);
        }
      }
    }
  }

  ghost predicate RowsForward(rows: seq<Row>, rows': seq<Row>) {
    |rows| == |rows'| && forall i | 0 <= i < |rows| :: Forward(rows[i], rows'[i])
  }

  /** Rows not asked about are left alone. */
  lemma {:induction false} PassForward(t: Task, active: seq<nat>, grace: real, obs: nat -> Observation)
    requires forall i | i in active :: i < |t.rows|
    ensures var t' := ProcessAll(t, active, grace, obs).0;
      && RowsForward(t.rows, t'.rows)
      && forall i: nat | i < |t.rows| && i !in active ::
          t'.rows[i] == t.rows[i] && CallsOf(t'.history, i) == CallsOf(t.history, i)
    decreases |active|
  {
    hide Process, CallsOf, Forward;
    forall i | 0 <= i < |t.rows| ensures Forward(t.rows[i], t.rows[i]) { ForwardIsReflexive(t.rows[i]); }
    if active != [] {
      var a := active[0];
      assert a in active && forall j | j in active[1..] :: j in active;
      var s := StepAt(t, a, grace, obs(a));
      var t' := Apply(t, a, s);
      ProcessForward(t.rows[a], SinceOf(t.since, a), grace, obs(a));
      forall i: nat | i != a ensures CallsOf(t'.history, i) == CallsOf(t.history, i) {
        CallsOfStep(t.history, a, s.calls, i);
        assert CallsOf(t.history, i) + [] == CallsOf(t.history, i);
      }
      if !s.crashed {
        PassForward(t', active[1..], grace, obs);
        ForwardIsTransitive(t.rows, t'.rows, ProcessAll(t, active, grace, obs).0.rows);
      }
    }
  }

  lemma {:induction false} ForwardIsReflexive(row: Row)
    ensures Forward(row, row)
  {
  }

  lemma {:induction false} ForwardIsTransitive(a: seq<Row>, b: seq<Row>, c: seq<Row>)
    requires RowsForward(a, b) && RowsForward(b, c)
    ensures RowsForward(a, c)
  {
    forall i | 0 <= i < |a| ensures Forward(a[i], c[i]) { assert Forward(a[i], b[i]) && Forward(b[i], c[i]); }
  }

  lemma {:induction false} EndForward(rows: seq<Row>, state: CandidateState)
    requires Terminal(state)
    ensures RowsForward(rows, EndAll(rows, state))
  {
  }

  /** Finished rows of `t`: nothing is written to them and no request is made for them. */
  ghost predicate FinishedLeftAlone(t: Task, t': Task) {
    |t.rows| == |t'.rows| && forall i: nat | i < |t.rows| && Terminal(t.rows[i].state) :: LeftAlone(t, t', i)
  }

  ghost predicate LeftAlone(t: Task, t': Task, i: nat)
    requires i < |t.rows| == |t'.rows|
  {
    t'.rows[i] == t.rows[i] && CallsOf(t'.history, i) == CallsOf(t.history, i)
  }

  lemma {:induction false} PollForward(cfg: Config, start: real, t: Task, p: Poll)
    requires forall i | i in p.order :: i < |t.rows|
    ensures var t' := PollOnce(cfg, start, t, p).0; RowsForward(t.rows, t'.rows) && FinishedLeftAlone(t, t')
  {
    hide ProcessAll, CallsOf, Forward;
    EndForward(t.rows, Killed);
    EndForward(t.rows, TimedOut);
    forall i | 0 <= i < |t.rows| ensures Forward(t.rows[i], t.rows[i]) { ForwardIsReflexive(t.rows[i]); }
    PassForward(t, Active(t.rows, p.order), cfg.grace, p.obs);
  }

  /**
   From any poll of any run to its end: identity and authorization never change, the head SHA is written
   once, states only move from `pr_opened` over `ci_running` to a terminal one, and a terminal row is final.
   */
  lemma {:induction false} RunMovesForward(cfg: Config, start: real, env: Environment, t: Task, k: nat)
    requires cfg.pollInterval > 0.0 && OrdersRows(env, |t.rows|)
    ensures var t' := RunFrom(cfg, start, env, t, k).0; RowsForward(t.rows, t'.rows) && FinishedLeftAlone(t, t')
    decreases Horizon(cfg) - k
  {
    hide PollOnce, CallsOf, Forward, Horizon;
    assert Lists(env(k).order, |t.rows|);
    PollForward(cfg, start, t, env(k));
    var (t', outcome) := PollOnce(cfg, start, t, env(k));
    if outcome == Continue && k < Horizon(cfg) {
      RunMovesForward(cfg, start, env, t', k + 1);
      var end := RunFrom(cfg, start, env, t', k + 1).0;
      ForwardIsTransitive(t.rows, t'.rows, end.rows);
      forall i: nat | i < |t.rows| && Terminal(t.rows[i].state) ensures LeftAlone(t, end, i) {
        assert LeftAlone(t, t', i) && LeftAlone(t', end, i);
      }
    }
  }

  // ---- Progress ----

  lemma {:induction false} PollOutcome(cfg: Config, start: real, t: Task, p: Poll)
    requires Lists(p.order, |t.rows|)
    ensures var (t', outcome) := PollOnce(cfg, start, t, p);
      && (outcome == Returned ==> AllTerminal(t'.rows) && (t'.completed <==> t.completed || t.rows != []))
      && (outcome != Returned ==> t'.completed == t.completed)
  {
    PassKeepsCompleted(t, Active(t.rows, p.order), cfg.grace, p.obs);
  }

  lemma {:induction false} PassKeepsCompleted(t: Task, active: seq<nat>, grace: real, obs: nat -> Observation)
    requires forall i | i in active :: i < |t.rows|
    ensures ProcessAll(t, active, grace, obs).0.completed == t.completed
    decreases |active|
  {
    hide Process;
    if active != [] {
      assert active[0] in active && forall j | j in active[1..] :: j in active;
      PassKeepsCompleted(Apply(t, active[0], StepAt(t, active[0], grace, obs(active[0]))), active[1..], grace, obs);
    }
  }

  lemma {:induction false} RunFromEnds(cfg: Config, start: real, env: Environment, t: Task, k: nat)
    requires ClockAdvances(cfg, start, env) && OrdersRows(env, |t.rows|) && k <= Horizon(cfg)
    ensures var (t', outcome, polls) := RunFrom(cfg, start, env, t, k);
      && outcome != Continue && k < polls <= Horizon(cfg) + 1
      && (outcome == Returned ==> AllTerminal(t'.rows) && (t'.completed <==> t.completed || t.rows != []))
      && (outcome == Crashed ==> t'.completed == t.completed)
    decreases Horizon(cfg) - k
  {
    hide PollOnce, Horizon, AllTerminal;
    assert Lists(env(k).order, |t.rows|);
    PollOutcome(cfg, start, t, env(k));
    var (t', outcome) := PollOnce(cfg, start, t, env(k));
    if outcome == Continue {
      ContinueIsEarly(cfg, start, env, t, k);
      RunFromEnds(cfg, start, env, t', k + 1);
    }
  }

  /**
   Whatever GitHub answers, the merge task stops after at most cap / interval + 2 polls. Unless a request
   raised, every row is then terminal, and a run is marked completed exactly when it has rows; a request
   that raises leaves the run open.
   */
  lemma {:induction false} RunEnds(cfg: Config, start: real, env: Environment, seeded: seq<Row>)
    requires ClockAdvances(cfg, start, env) && OrdersRows(env, |seeded|)
    ensures var (t, outcome, polls) := RunTask(cfg, start, env, seeded);
      && polls <= Horizon(cfg) + 1
      && (outcome == Crashed <==> exists e | e in t.history :: Raises(e.call))
      && (outcome == Crashed || (outcome == Returned && AllTerminal(t.rows)))
      && (t.completed <==> outcome == Returned && seeded != [])
  {
    hide TaskSound, RunFrom, Raises, Horizon, AllTerminal;
    RunIsSound(seeded, cfg, start, env);
    RunFromEnds(cfg, start, env, Start(seeded), 0);
  }

  /** No request of this step is answered by an exception. */
  ghost predicate Answered(obs: Observation) {
    && (forall pr :: obs.head(pr).Got?) && (forall sha :: obs.checks(sha).Got?)
    && forall pr, sha :: obs.merge(pr, sha).Got?
  }

  ghost predicate AlwaysAnswered(env: Environment) {
    forall k: nat, i: nat :: Answered(env(k).obs(i))
  }

  lemma {:induction false} AnsweredStepGoesOn(row: Row, since: Option<real>, grace: real, obs: Observation)
    requires Answered(obs)
    ensures !Process(row, since, grace, obs).crashed
  {
    hide Green, AnyFailed;
  }

  lemma {:induction false} AnsweredPassGoesOn(t: Task, active: seq<nat>, grace: real, obs: nat -> Observation)
    requires (forall i | i in active :: i < |t.rows|) && forall i: nat :: Answered(obs(i))
    ensures !ProcessAll(t, active, grace, obs).1
    decreases |active|
  {
    hide Process, Answered;
    if active != [] {
      var a := active[0];
      assert a in active && forall j | j in active[1..] :: j in active;
      assert Answered(obs(a));
      AnsweredStepGoesOn(t.rows[a], SinceOf(t.since, a), grace, obs(a));
      AnsweredPassGoesOn(Apply(t, a, StepAt(t, a, grace, obs(a))), active[1..], grace, obs);
    }
  }

  lemma {:induction false} AnsweredPollGoesOn(cfg: Config, start: real, t: Task, p: Poll)
    requires Lists(p.order, |t.rows|) && forall i: nat :: Answered(p.obs(i))
    ensures PollOnce(cfg, start, t, p).1 != Crashed
  {
    hide ProcessAll, Answered;
    AnsweredPassGoesOn(t, Active(t.rows, p.order), cfg.grace, p.obs);
  }

  lemma {:induction false} AnsweredRunGoesOn(cfg: Config, start: real, env: Environment, t: Task, k: nat)
    requires cfg.pollInterval > 0.0 && OrdersRows(env, |t.rows|) && AlwaysAnswered(env)
    ensures RunFrom(cfg, start, env, t, k).1 != Crashed
    decreases Horizon(cfg) - k
  {
    hide PollOnce, Horizon, Answered;
    assert Lists(env(k).order, |t.rows|);
    forall i: nat ensures Answered(env(k).obs(i)) {}
    AnsweredPollGoesOn(cfg, start, t, env(k));
    var (t', outcome) := PollOnce(cfg, start, t, env(k));
    if outcome == Continue && k < Horizon(cfg) { AnsweredRunGoesOn(cfg, start, env, t', k + 1); }
  }

  /** If every request is answered, whatever the answers, the run ends every row and is completed when it has any. */
  lemma {:induction false} AnsweredRunsComplete(cfg: Config, start: real, env: Environment, seeded: seq<Row>)
    requires ClockAdvances(cfg, start, env) && OrdersRows(env, |seeded|) && AlwaysAnswered(env)
    ensures var (t, outcome, _) := RunTask(cfg, start, env, seeded);
      outcome == Returned && AllTerminal(t.rows) && (t.completed <==> seeded != [])
  {
    hide RunFrom, AllTerminal, Horizon, AlwaysAnswered;
    RunEnds(cfg, start, env, seeded);
    AnsweredRunGoesOn(cfg, start, env, Start(seeded), 0);
  }

  /**
   A run that fails: populate has made its one row, to be merged, from a pull request whose head is not known,
   and asking for the head raises at the first poll.
   */
  lemma {:induction false} RaisedHeadLeavesRunOpen(a: ActionResult, byId: map<CandidateId, Entry>,
      ids: set<CandidateId>, cfg: Config, start: real, env: Environment)
    requires HasPr(a) && a.candidateId in byId && a.candidateId in ids && !AuthorizesDecline(byId, ids)
    requires a.headSha.None? && a.prNumber.Some?
    requires cfg.pollInterval > 0.0 && OrdersRows(env, 1)
    requires !env(0).killed && env(0).clock - start < cfg.cap && env(0).order == [0]
    requires env(0).obs(0).head(a.prNumber.value).Raised?
    ensures var seeded := SeedRows([a], byId, ids);
      && |seeded| == 1 && Entitled(seeded[0], byId, ids) && seeded[0].state == PrOpened
      && var (t, outcome, polls) := RunTask(cfg, start, env, seeded);
         outcome == Crashed && polls == 1 && t.rows == [seeded[0].(appended := true)] && !t.completed
  {
    hide RunTask, SeedRows, AuthorizesDecline, Entitled, AuthorizationFor;
    OneSeeded(a, byId, ids);
    RaisedHeadCrashes(cfg, start, env, SeedRows([a], byId, ids)[0]);
  }

  lemma {:induction false} OneSeeded(a: ActionResult, byId: map<CandidateId, Entry>, ids: set<CandidateId>)
    requires HasPr(a) && a.candidateId in byId && a.candidateId in ids && !AuthorizesDecline(byId, ids)
    ensures var seeded := SeedRows([a], byId, ids);
      && |seeded| == 1 && Entitled(seeded[0], byId, ids) && seeded == [seeded[0]]
      && seeded[0] == WaitingRow(a, byId[a.candidateId].verdict, seeded[0].auth) && seeded[0].auth.Some?
  {
    assert [a][..0] == [] && SeedRows([], byId, ids) == [];
    SeededRowsAreEntitled([a], byId, ids);
    var r := SeedRow(a, byId, ids).value;
    assert SeedRows([a], byId, ids) == [r] && r in SeedRows([a], byId, ids);
  }

  lemma {:induction false} RaisedHeadCrashes(cfg: Config, start: real, env: Environment, row: Row)
    requires cfg.pollInterval > 0.0 && OrdersRows(env, 1)
    requires row.state == PrOpened && row.headSha.None? && row.prNumber.Some? && row.auth.Some? && !row.appended
    requires !env(0).killed && env(0).clock - start < cfg.cap && env(0).order == [0]
    requires env(0).obs(0).head(row.prNumber.value).Raised?
    ensures var (t, outcome, polls) := RunTask(cfg, start, env, [row]);
      outcome == Crashed && polls == 1 && t.rows == [row.(appended := true)] && !t.completed
  {
    var t, p := Start([row]), env(0);
    assert Lists(p.order, 1);
    assert Active(t.rows, [0]) == [0];
    var s := StepAt(t, 0, cfg.grace, p.obs(0));
    assert s.crashed && s.row == row.(appended := true);
    assert ProcessAll(t, [0], cfg.grace, p.obs) == (Apply(t, 0, s), true);
  }

  // ---- Kill switch and cap ----

  /** Only the switch and the cap end rows as killed or timed out. */
  predicate StoppedBefore(row: Row, row': Row) {
    row'.state in {Killed, TimedOut} ==> row'.state == row.state
  }

  lemma {:induction false} JudgeStopsNobody(row: Row, sha: string, since: Option<real>, grace: real,
      obs: Observation, calls: seq<Call>)
    ensures StoppedBefore(row, Judge(row, sha, since, grace, obs, calls).row)
  {
    hide Green, AnyFailed;
  }

  lemma {:induction false} ProcessStopsNobody(row: Row, since: Option<real>, grace: real, obs: Observation)
    ensures StoppedBefore(row, Process(row, since, grace, obs).row)
  {
    hide Judge;
    var announce := row.auth.Some? && !row.appended;
    var calls := AnnounceCalls(row);
    var marked := if announce then row.(appended := true) else row;
    if row.headSha.Some? {
      JudgeStopsNobody(marked, row.headSha.value, since, grace, obs, calls);
    } else if row.prNumber.Some? {
      var head := obs.head(row.prNumber.value);
      var fetched := calls + [FetchHead(row.prNumber.value, head)];
      if head.Got? && head.value.Some? {
        JudgeStopsNobody(marked.(headSha := head.value), head.value.value, since, grace, obs, fetched);
      }
    }
  }

  lemma {:induction false} PassStopsNobody(t: Task, active: seq<nat>, grace: real, obs: nat -> Observation)
    requires forall i | i in active :: i < |t.rows|
    ensures var t' := ProcessAll(t, active, grace, obs).0;
      forall i: nat | i < |t.rows| :: StoppedBefore(t.rows[i], t'.rows[i])
    decreases |active|
  {
    hide Process;
    if active != [] {
      var a := active[0];
      assert a in active && forall j | j in active[1..] :: j in active;
      var s := StepAt(t, a, grace, obs(a));
      ProcessStopsNobody(t.rows[a], SinceOf(t.since, a), grace, obs(a));
      if !s.crashed { PassStopsNobody(Apply(t, a, s), active[1..], grace, obs); }
    }
  }

  /** Whether a poll at this clock is past the cap. */
  predicate PastCap(cfg: Config, start: real, p: Poll) {
    p.clock - start >= cfg.cap
  }

  /** What `p`, the last poll, says of rows newly killed or timed out between `t` and `t'`. */
  ghost predicate StoppedBy(cfg: Config, start: real, p: Poll, t: Task, t': Task) {
    && |t.rows| == |t'.rows|
    && (forall i: nat | i < |t.rows| && !StoppedBefore(t.rows[i], t'.rows[i]) ::
          if t'.rows[i].state == Killed then p.killed else !p.killed && PastCap(cfg, start, p))
  }

  /** A poll after which the run goes on saw neither the switch nor the cap, and stopped no row. */
  lemma {:induction false} PollStops(cfg: Config, start: real, t: Task, p: Poll)
    requires forall i | i in p.order :: i < |t.rows|
    ensures var (t', outcome) := PollOnce(cfg, start, t, p);
      && StoppedBy(cfg, start, p, t, t')
      && (outcome == Continue ==> !p.killed && !PastCap(cfg, start, p) && NobodyStopped(t, t'))
  {
    hide ProcessAll, Process;
    PassStopsNobody(t, Active(t.rows, p.order), cfg.grace, p.obs);
  }

  ghost predicate NobodyStopped(t: Task, t': Task) {
    |t.rows| == |t'.rows| && forall i: nat | i < |t.rows| :: StoppedBefore(t.rows[i], t'.rows[i])
  }

  lemma {:induction false} StoppedLater(cfg: Config, start: real, p: Poll, t: Task, now: Task, end: Task)
    requires NobodyStopped(t, now) && StoppedBy(cfg, start, p, now, end)
    ensures StoppedBy(cfg, start, p, t, end)
  {
    forall i: nat | i < |t.rows| && StoppedBefore(now.rows[i], end.rows[i])
      ensures StoppedBefore(t.rows[i], end.rows[i])
    {
      assert StoppedBefore(t.rows[i], now.rows[i]);
    }
  }

  /**
   A run never gets past a poll that sees the kill switch on or the cap reached; a row ends killed only when
   the last poll saw the switch, and timed out only when it saw the cap reached and the switch off.
   */
  lemma {:induction false} SwitchAndCapStopTheRun(cfg: Config, start: real, env: Environment, t: Task, k: nat)
    requires cfg.pollInterval > 0.0 && OrdersRows(env, |t.rows|)
    ensures var (t', _, polls) := RunFrom(cfg, start, env, t, k);
      && k < polls
      && (forall j: nat | k <= j < polls - 1 :: !env(j).killed && !PastCap(cfg, start, env(j)))
      && StoppedBy(cfg, start, env(polls - 1), t, t')
    decreases Horizon(cfg) - k
  {
    hide PollOnce, Horizon, PastCap, StoppedBy, NobodyStopped;
    assert Lists(env(k).order, |t.rows|);
    PollStops(cfg, start, t, env(k));
    var (t', outcome) := PollOnce(cfg, start, t, env(k));
    if outcome == Continue && k < Horizon(cfg) {
      SwitchAndCapStopTheRun(cfg, start, env, t', k + 1);
      var (end, _, polls) := RunFrom(cfg, start, env, t', k + 1);
      StoppedLater(cfg, start, env(polls - 1), t, t', end);
    }
  }

  // ---- From the selection to the merge ----

  /**
   Whatever is merged was selected for merging, its verdict is not DECLINE, and the request carried the
   authorization that verdict's tier earns. (Rows exist only when populating them did not raise.)
   */
  lemma {:induction false} EntitledRowsMerge(byId: map<CandidateId, Entry>, ids: set<CandidateId>,
      actions: seq<ActionResult>, cfg: Config, start: real, env: Environment, p: nat)
    requires !AuthorizesDecline(byId, ids)
    requires var seeded := SeedRows(actions, byId, ids);
      && cfg.pollInterval > 0.0 && OrdersRows(env, |seeded|)
      && p < |RunTask(cfg, start, env, seeded).0.history| && RunTask(cfg, start, env, seeded).0.history[p].call.MergePr?
    ensures var seeded := SeedRows(actions, byId, ids);
      var Event(i, merge) := RunTask(cfg, start, env, seeded).0.history[p];
      && i < |seeded| && seeded[i].candidateId in ids && seeded[i].candidateId in byId
      && byId[seeded[i].candidateId].verdict.tier in {AutoMerge, ReviewRequired}
      && (merge.auth == Some(Engine) <==> byId[seeded[i].candidateId].verdict.tier == AutoMerge)
      && (merge.auth == Some(HumanOverride) <==> byId[seeded[i].candidateId].verdict.tier == ReviewRequired)
  {
    hide RunTask, SeedRows;
    var seeded := SeedRows(actions, byId, ids);
    SeededRowsAreEntitled(actions, byId, ids);
    MergeSafety(cfg, start, env, seeded, p);
    var i := RunTask(cfg, start, env, seeded).0.history[p].row;
    assert seeded[i] in seeded && Entitled(seeded[i], byId, ids);
  }
}

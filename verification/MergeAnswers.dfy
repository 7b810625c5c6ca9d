/**
 The history of a merge task against the environment it ran in (arguss/web/action_merge.py): every request is the
 row's own and has the environment's answer to it, and each poll makes all the requests a waiting row is due.
 */
module MergeAnswers {
  import opened Basics
  import opened ActionRuns
  import opened ActionMerge
  import opened MergeLaws
  import opened MergeGuarantees

  // ---- One step ----

  /** Asked for the row's own pull request and head, and answered as the environment answers it. */
  predicate IsAnswered(row: Row, obs: Observation, c: Call) {
    match c
    case AppendBody(pr) => row.prNumber == Some(pr)
    case FetchHead(pr, head) => row.prNumber == Some(pr) && head == obs.head(pr)
    case FetchChecks(sha, runs, at) => row.headSha == Some(sha) && runs == obs.checks(sha) && at == obs.at
    case MergePr(pr, sha, auth, status) =>
      row.prNumber == Some(pr) && row.headSha == Some(sha) && row.auth == auth && status == obs.merge(pr, sha)
  }

  ghost predicate AllAnswered(row: Row, obs: Observation, calls: seq<Call>) {
    forall c | c in calls :: IsAnswered(row, obs, c)
  }

  lemma {:induction false} OneMoreAnswered(row: Row, obs: Observation, calls: seq<Call>, c: Call)
    requires AllAnswered(row, obs, calls) && IsAnswered(row, obs, c)
    ensures AllAnswered(row, obs, calls + [c])
  {
  }

  lemma {:induction false} StaysAnswered(row: Row, row': Row, obs: Observation, calls: seq<Call>)
    requires AllAnswered(row, obs, calls) && Forward(row, row')
    ensures AllAnswered(row', obs, calls)
  {
  }

  lemma {:induction false} JudgeIsAnswered(row: Row, sha: string, since: Option<real>, grace: real, obs: Observation,
      calls: seq<Call>)
    requires row.headSha == Some(sha) && AllAnswered(row, obs, calls)
    ensures var s := Judge(row, sha, since, grace, obs, calls); AllAnswered(s.row, obs, s.calls)
  {
    hide Green, AnyFailed;
    var look := FetchChecks(sha, obs.checks(sha), obs.at);
    OneMoreAnswered(row, obs, calls, look);
    if row.prNumber.Some? {
      var pr := row.prNumber.value;
      OneMoreAnswered(row, obs, calls + [look], MergePr(pr, sha, row.auth, obs.merge(pr, sha)));
    }
  }

  lemma {:induction false} ProcessIsAnswered(row: Row, since: Option<real>, grace: real, obs: Observation)
    ensures var s := Process(row, since, grace, obs); AllAnswered(s.row, obs, s.calls)
  {
    hide Judge;
    var calls := AnnounceCalls(row);
    var marked := if row.auth.Some? && !row.appended then row.(appended := true) else row;
    if !Terminal(row.state) {
      if row.headSha.Some? {
        JudgeIsAnswered(marked, row.headSha.value, since, grace, obs, calls);
      } else if row.prNumber.Some? {
        var head := obs.head(row.prNumber.value);
        var fetch := FetchHead(row.prNumber.value, head);
        OneMoreAnswered(marked, obs, calls, fetch);
        if head.Got? && head.value.Some? {
          var resolved := marked.(headSha := head.value);
          StaysAnswered(marked, resolved, obs, calls + [fetch]);
          JudgeIsAnswered(resolved, head.value.value, since, grace, obs, calls + [fetch]);
        }
      }
    }
  }

  // ---- Whole runs: which poll each request belongs to ----

  /** Request `p` of the history was made at poll `k` and has the answer of that poll. */
  predicate MadeAt(env: Environment, rows: seq<Row>, history: seq<Event>, p: nat, k: nat)
    requires p < |history|
  {
    var Event(i, c) := history[p];
    !env(k).killed && i < |rows| && IsAnswered(rows[i], env(k).obs(i), c)
  }

  /** `polls` tells for each request its poll; polls come in order, and a merge shares that of the look before it. */
  ghost predicate Traces(env: Environment, rows: seq<Row>, history: seq<Event>, polls: seq<nat>, bound: nat) {
    && |polls| == |history|
    && (forall p: nat | p < |history| :: polls[p] < bound && MadeAt(env, rows, history, p, polls[p]))
    && (forall p, q | 0 <= p < q < |polls| :: polls[p] <= polls[q])
    && forall p: nat | 0 < p < |history| && history[p].call.MergePr? :: polls[p - 1] == polls[p]
  }

  lemma {:induction false} TracesLater(env: Environment, rows: seq<Row>, rows': seq<Row>, history: seq<Event>,
      polls: seq<nat>, bound: nat, bound': nat)
    requires Traces(env, rows, history, polls, bound) && RowsForward(rows, rows') && bound <= bound'
    ensures Traces(env, rows', history, polls, bound')
  {
    forall p: nat | p < |history| ensures MadeAt(env, rows', history, p, polls[p]) {
      assert MadeAt(env, rows, history, p, polls[p]);
      var Event(i, c) := history[p];
      assert Forward(rows[i], rows'[i]);
    }
  }

  lemma {:induction false} StepIsTraced(env: Environment, rows: seq<Row>, history: seq<Event>, polls: seq<nat>,
      k: nat, i: nat, calls: seq<Call>) returns (polls': seq<nat>)
    requires Traces(env, rows, history, polls, k + 1) && !env(k).killed && i < |rows|
    requires AllAnswered(rows[i], env(k).obs(i), calls) && (calls == [] || !calls[0].MergePr?)
    ensures Traces(env, rows, history + Tag(i, calls), polls', k + 1)
  {
    hide IsAnswered;
    polls' := polls + seq(|calls|, p => k);
    var history' := history + Tag(i, calls);
    forall p: nat | p < |history'| ensures polls'[p] < k + 1 && MadeAt(env, rows, history', p, polls'[p]) {
      if p < |history| {
        assert MadeAt(env, rows, history, p, polls[p]);
      } else {
        assert calls[p - |history|] in calls;
      }
    }
    forall p: nat | 0 < p < |history'| && history'[p].call.MergePr? ensures polls'[p - 1] == polls'[p] {
      if p < |history| { assert history[p].call.MergePr?; }
    }
  }

  lemma {:induction false} PassIsTraced(env: Environment, t: Task, polls: seq<nat>, k: nat, active: seq<nat>,
      grace: real) returns (polls': seq<nat>)
    requires Traces(env, t.rows, t.history, polls, k + 1) && !env(k).killed
    requires forall i | i in active :: i < |t.rows|
    ensures var t' := ProcessAll(t, active, grace, env(k).obs).0; Traces(env, t'.rows, t'.history, polls', k + 1)
    decreases |active|
  {
    hide Traces, Process, Forward, AllAnswered;
    polls' := polls;
    if active != [] {
      var a := active[0];
      assert a in active && forall j | j in active[1..] :: j in active;
      var s := StepAt(t, a, grace, env(k).obs(a));
      var t' := Apply(t, a, s);
      ProcessForward(t.rows[a], SinceOf(t.since, a), grace, env(k).obs(a));
      forall i | 0 <= i < |t.rows| ensures Forward(t.rows[i], t'.rows[i]) { ForwardIsReflexive(t.rows[i]); }
      TracesLater(env, t.rows, t'.rows, t.history, polls, k + 1, k + 1);
      ProcessIsAnswered(t.rows[a], SinceOf(t.since, a), grace, env(k).obs(a));
      StepOpens(t.rows[a], SinceOf(t.since, a), grace, env(k).obs(a));
      polls' := StepIsTraced(env, t'.rows, t.history, polls, k, a, s.calls);
      if !s.crashed { polls' := PassIsTraced(env, t', polls', k, active[1..], grace); }
    }
  }

  lemma {:induction false} RunIsTraced(cfg: Config, start: real, env: Environment, t: Task, k: nat, polls: seq<nat>)
    returns (polls': seq<nat>)
    requires cfg.pollInterval > 0.0 && OrdersRows(env, |t.rows|) && Traces(env, t.rows, t.history, polls, k)
    ensures var (t', _, n) := RunFrom(cfg, start, env, t, k); Traces(env, t'.rows, t'.history, polls', n)
    decreases Horizon(cfg) - k
  {
    hide Traces, ProcessAll, Forward, Horizon;
    assert Lists(env(k).order, |t.rows|);
    var (t', outcome) := PollOnce(cfg, start, t, env(k));
    PollForward(cfg, start, t, env(k));
    if outcome == Returned {
      TracesLater(env, t.rows, t'.rows, t.history, polls, k, k + 1);
      polls' := polls;
    } else {
      forall i | 0 <= i < |t.rows| ensures Forward(t.rows[i], t.rows[i]) { ForwardIsReflexive(t.rows[i]); }
      TracesLater(env, t.rows, t.rows, t.history, polls, k, k + 1);
      polls' := PassIsTraced(env, t, polls, k, Active(t.rows, env(k).order), cfg.grace);
      if outcome == Continue && k < Horizon(cfg) { polls' := RunIsTraced(cfg, start, env, t', k + 1, polls'); }
    }
  }

  /**
   Every request of a run was made at one of its polls, in order, for the row's own pull request and head, and what
   is recorded as its answer is what the environment answers to just that request at that poll.
   */
  lemma {:induction false} EveryAnswerIsReal(cfg: Config, start: real, env: Environment, seeded: seq<Row>)
    returns (polls: seq<nat>)
    requires cfg.pollInterval > 0.0 && OrdersRows(env, |seeded|)
    ensures var (t, _, n) := RunTask(cfg, start, env, seeded); Traces(env, t.rows, t.history, polls, n)
  {
    polls := RunIsTraced(cfg, start, env, Start(seeded), 0, []);
  }

  // ---- Ends, in terms of the environment alone ----

  /** Every check listed is completed and well. */
  predicate ChecksPassed(answer: Answer<seq<CheckRun>>) {
    && answer.Got? && answer.value != []
    && forall r | r in answer.value :: r.completed && r.conclusion in {Success, Neutral, SkippedCheck}
  }

  /** Some check is completed and not well. */
  predicate ACheckFailed(answer: Answer<seq<CheckRun>>) {
    answer.Got? && exists r | r in answer.value :: r.completed && r.conclusion !in {Success, Neutral, SkippedCheck}
  }

  /** At poll `k` GitHub settles the row: the answers to requests of its own that lead to `state`. */
  predicate SettledAt(row: Row, obs: Observation, state: CandidateState) {
    match state
    case Merged => MergeAnswer(row, obs) == Some(200)
    case ShaConflict => MergeAnswer(row, obs) == Some(409)
    case CiFailed => row.headSha.Some? && ACheckFailed(obs.checks(row.headSha.value))
    case HeadShaUnresolved => row.prNumber.Some? && obs.head(row.prNumber.value) == Got(None)
    case _ => false
  }

  /** The status of a merge of the row's own head, whose checks have passed. */
  function MergeAnswer(row: Row, obs: Observation): Option<int> {
    if row.prNumber.Some? && row.headSha.Some? && ChecksPassed(obs.checks(row.headSha.value))
       && obs.merge(row.prNumber.value, row.headSha.value).Got?
    then Some(obs.merge(row.prNumber.value, row.headSha.value).value) else None
  }

  /**
   A row ends merged, on a moved head, on a failed check or without a head only if at some poll of the run GitHub
   answered so to a request for the row's own pull request and head.
   */
  lemma {:induction false} EndsAreReal(cfg: Config, start: real, env: Environment, seeded: seq<Row>, i: nat)
    returns (k: nat)
    requires cfg.pollInterval > 0.0 && OrdersRows(env, |seeded|) && i < |seeded|
    requires var row := RunTask(cfg, start, env, seeded).0.rows[i];
      && row.state in {Merged, ShaConflict, CiFailed, HeadShaUnresolved} && seeded[i].state != row.state
      && (row.state == HeadShaUnresolved ==> row.prNumber.Some?)
    ensures var (t, _, n) := RunTask(cfg, start, env, seeded);
      k < n && !env(k).killed && SettledAt(t.rows[i], env(k).obs(i), t.rows[i].state)
  {
    hide RunTask, AppendCount, EmptySince, WaitedInVain, NoneRaised, CallsOf, Settles, Traces;
    var polls := EveryAnswerIsReal(cfg, start, env, seeded);
    RunIsSound(seeded, cfg, start, env);
    var t := RunTask(cfg, start, env, seeded).0;
    assert RowSound(seeded, t, cfg.grace, i);
    var calls := CallsOf(t.history, i);
    var c :| c in calls && Settles(c) == Some(t.rows[i].state);
    CallsOfHas(t.history, i, c);
    var p: nat :| p < |t.history| && t.history[p] == Event(i, c);
    k := SettlesAtItsPoll(cfg, start, env, seeded, polls, p);
  }

  lemma {:induction false} SettlesAtItsPoll(cfg: Config, start: real, env: Environment, seeded: seq<Row>,
      polls: seq<nat>, p: nat) returns (k: nat)
    requires cfg.pollInterval > 0.0 && OrdersRows(env, |seeded|)
    requires var (t, _, n) := RunTask(cfg, start, env, seeded);
      && Traces(env, t.rows, t.history, polls, n) && p < |t.history| && Settles(t.history[p].call).Some?
    ensures var (t, _, n) := RunTask(cfg, start, env, seeded);
      && k < n && !env(k).killed && t.history[p].row < |t.rows|
      && SettledAt(t.rows[t.history[p].row], env(k).obs(t.history[p].row), Settles(t.history[p].call).value)
  {
    hide RunTask, CallsOf, RowSound;
    var t := RunTask(cfg, start, env, seeded).0;
    RunIsSound(seeded, cfg, start, env);
    k := polls[p];
    assert MadeAt(env, t.rows, t.history, p, k);
    if t.history[p].call.MergePr? {
      assert FollowsLook(t.history, p);
      assert MadeAt(env, t.rows, t.history, p - 1, polls[p - 1]);
      GreenIsPassed(t.history[p - 1].call.runs);
    }
  }

  lemma {:induction false} GreenIsPassed(answer: Answer<seq<CheckRun>>)
    requires answer.Got?
    ensures Green(answer.value) <==> ChecksPassed(answer)
  {
  }

  // ---- Every poll makes the requests that are due ----

  /** The requests due for a waiting row in one poll are among `calls`, and a row that cannot be asked about ends. */
  ghost predicate DueIsMade(row: Row, row': Row, obs: Observation, calls: seq<Call>) {
    && (row.auth.Some? && !row.appended && row.prNumber.Some? ==> AppendBody(row.prNumber.value) in calls)
    && (row.headSha.None? && row.prNumber.Some? ==>
          FetchHead(row.prNumber.value, obs.head(row.prNumber.value)) in calls)
    && (row'.headSha.None? ==> row'.state == HeadShaUnresolved)
    && (row'.headSha.Some? ==>
          FetchChecks(row'.headSha.value, obs.checks(row'.headSha.value), obs.at) in calls)
    && (row'.headSha.Some? && ChecksPassed(obs.checks(row'.headSha.value)) ==>
          if row.prNumber.None? then row'.state == HeadShaUnresolved
          else
            var (pr, sha) := (row.prNumber.value, row'.headSha.value);
            MergePr(pr, sha, row.auth, obs.merge(pr, sha)) in calls)
  }

  lemma {:induction false} JudgeMakesDue(row: Row, sha: string, since: Option<real>, grace: real, obs: Observation,
      calls: seq<Call>)
    requires row.headSha == Some(sha) && !Terminal(row.state)
    ensures var s := Judge(row, sha, since, grace, obs, calls);
      && s.row.headSha == Some(sha) && (forall c | c in calls :: c in s.calls)
      && FetchChecks(sha, obs.checks(sha), obs.at) in s.calls
      && (ChecksPassed(obs.checks(sha)) ==>
            if row.prNumber.None? then s.row.state == HeadShaUnresolved
            else MergePr(row.prNumber.value, sha, row.auth, obs.merge(row.prNumber.value, sha)) in s.calls)
  {
    if obs.checks(sha).Got? { GreenIsPassed(obs.checks(sha)); }
  }

  lemma {:induction false} StepMakesDue(row: Row, since: Option<real>, grace: real, obs: Observation)
    requires !Terminal(row.state) && !Process(row, since, grace, obs).crashed
    ensures var s := Process(row, since, grace, obs); DueIsMade(row, s.row, obs, s.calls)
  {
    hide Judge, ChecksPassed;
    var calls := AnnounceCalls(row);
    var marked := if row.auth.Some? && !row.appended then row.(appended := true) else row;
    if row.headSha.Some? {
      JudgeMakesDue(marked, row.headSha.value, since, grace, obs, calls);
    } else if row.prNumber.Some? {
      var head := obs.head(row.prNumber.value);
      if head.Got? && head.value.Some? {
        var fetched := calls + [FetchHead(row.prNumber.value, head)];
        JudgeMakesDue(marked.(headSha := head.value), head.value.value, since, grace, obs, fetched);
      }
    }
  }

  lemma {:induction false} MoreCallsDue(row: Row, row': Row, obs: Observation, calls: seq<Call>, more: seq<Call>)
    requires DueIsMade(row, row', obs, calls) && forall c | c in calls :: c in more
    ensures DueIsMade(row, row', obs, more)
  {
  }

  /** A later row of the same candidate, for a poll that left it waiting or ended it. */
  lemma {:induction false} LaterRowDue(row: Row, mid: Row, end: Row, obs: Observation, calls: seq<Call>)
    requires DueIsMade(row, mid, obs, calls) && Forward(mid, end)
    ensures DueIsMade(row, end.(headSha := mid.headSha), obs, calls)
  {
  }

  ghost predicate DistinctRows(active: seq<nat>) {
    forall p, q | 0 <= p < q < |active| :: active[p] != active[q]
  }

  lemma {:induction false} ActiveIsDistinct(rows: seq<Row>, order: seq<nat>)
    requires (forall i | i in order :: i < |rows|) && DistinctRows(order)
    ensures DistinctRows(Active(rows, order))
  {
    if order != [] {
      assert order[0] in order && order == [order[0]] + order[1..] && forall i | i in order[1..] :: i in order;
      ActiveIsDistinct(rows, order[1..]);
      assert order[0] !in order[1..];
    }
  }

  lemma {:induction false} PassMakesDue(t: Task, active: seq<nat>, grace: real, obs: nat -> Observation, i: nat)
    requires (forall j | j in active :: j < |t.rows|) && DistinctRows(active)
    requires i in active && !Terminal(t.rows[i].state) && !ProcessAll(t, active, grace, obs).1
    ensures var t' := ProcessAll(t, active, grace, obs).0;
      DueIsMade(t.rows[i], t'.rows[i], obs(i), CallsOf(t'.history, i))
    decreases |active|
  {
    hide Process, CallsOf, DueIsMade, Forward;
    var a := active[0];
    assert a in active && active == [a] + active[1..] && forall j | j in active[1..] :: j in active;
    assert a !in active[1..];
    var s := StepAt(t, a, grace, obs(a));
    var t' := Apply(t, a, s);
    if i == a {
      StepMakesDue(t.rows[i], SinceOf(t.since, i), grace, obs(i));
      CallsOfStep(t.history, i, s.calls, i);
      MoreCallsDue(t.rows[i], s.row, obs(i), s.calls, CallsOf(t'.history, i));
      PassForward(t', active[1..], grace, obs);
    } else {
      PassMakesDue(t', active[1..], grace, obs, i);
    }
  }

  // ---- One pass over the rows ----

  /** The rows of a pass are those of the listing that are not terminal, in its order. */
  lemma {:induction false} ActiveFollowsOrder(rows: seq<Row>, order: seq<nat>, i: nat)
    requires (forall j | j in order :: j < |rows|) && i < |rows|
    ensures forall j | j in order + [i] :: j < |rows|
    ensures Active(rows, []) == []
    ensures Active(rows, order + [i]) == Active(rows, order) + (if Terminal(rows[i].state) then [] else [i])
  {
    hide Active, Terminal;
    NoneActive(rows);
    if order == [] {
      ActiveFrom(rows, i, []);
      assert order + [i] == [i] + [];
      assert Active(rows, order) == [];
    } else {
      var first, rest := order[0], order[1..];
      assert first in order && order == [first] + rest && forall j | j in rest :: j in order;
      assert order + [i] == [first] + (rest + [i]);
      ActiveFollowsOrder(rows, rest, i);
      ActiveFrom(rows, first, rest);
      ActiveFrom(rows, first, rest + [i]);
    }
  }

  lemma {:induction false} NoneActive(rows: seq<Row>)
    ensures Active(rows, []) == []
  {
  }

  lemma {:induction false} ActiveFrom(rows: seq<Row>, first: nat, rest: seq<nat>)
    requires first < |rows| && forall j | j in rest :: j < |rows|
    ensures forall j | j in [first] + rest :: j < |rows|
    ensures Active(rows, [first] + rest) == (if Terminal(rows[first].state) then [] else [first]) + Active(rows, rest)
  {
    hide Terminal;
    assert ([first] + rest)[1..] == rest;
  }

  /** One row's step after those before it, none of which raised: only this row changes, and its calls come last. */
  ghost predicate StepsNext(u: Task, i: nat, s: Step, t': Task)
    requires i < |u.rows|
  {
    && t'.rows == u.rows[i := s.row]
    && |t'.history| == |u.history| + |s.calls| && u.history <= t'.history
    && forall p | 0 <= p < |s.calls| :: t'.history[|u.history| + p] == Event(i, s.calls[p])
  }

  /** A pass takes the step of each row in turn and stops at the first in which a request raised. */
  lemma {:induction false} PassInTurn(t: Task, first: seq<nat>, i: nat, grace: real, obs: nat -> Observation)
    requires (forall j | j in first :: j < |t.rows|) && i < |t.rows|
    ensures forall j | j in first + [i] :: j < |t.rows|
    ensures var ((u, stopped), (t', crashed)) :=
        (ProcessAll(t, first, grace, obs), ProcessAll(t, first + [i], grace, obs));
      if stopped then t' == u && crashed
      else
        var s := Process(u.rows[i], SinceOf(u.since, i), grace, obs(i));
        StepsNext(u, i, s, t') && crashed == s.crashed
    decreases |first|
  {
    hide Process;
    if first == [] {
      assert [] + [i] == [i] && [i][1..] == [];
    } else {
      var a, rest := first[0], first[1..];
      assert a in first && first == [a] + rest && forall j | j in rest :: j in first;
      assert (first + [i])[0] == a && (first + [i])[1..] == rest + [i];
      var s := StepAt(t, a, grace, obs(a));
      if !s.crashed { PassInTurn(Apply(t, a, s), rest, i, grace, obs); }
    }
  }

  // ---- From one poll to the end of the run ----

  lemma {:induction false} PassExtends(t: Task, active: seq<nat>, grace: real, obs: nat -> Observation)
    requires forall i | i in active :: i < |t.rows|
    ensures t.history <= ProcessAll(t, active, grace, obs).0.history
    decreases |active|
  {
    hide Process;
    if active != [] {
      assert active[0] in active && forall i | i in active[1..] :: i in active;
      var s := StepAt(t, active[0], grace, obs(active[0]));
      if !s.crashed { PassExtends(Apply(t, active[0], s), active[1..], grace, obs); }
    }
  }

  lemma {:induction false} RunExtends(cfg: Config, start: real, env: Environment, t: Task, k: nat)
    requires cfg.pollInterval > 0.0 && OrdersRows(env, |t.rows|)
    ensures t.history <= RunFrom(cfg, start, env, t, k).0.history
    decreases Horizon(cfg) - k
  {
    hide ProcessAll, Horizon;
    assert Lists(env(k).order, |t.rows|);
    PassExtends(t, Active(t.rows, env(k).order), cfg.grace, env(k).obs);
    var (t', outcome) := PollOnce(cfg, start, t, env(k));
    if outcome == Continue && k < Horizon(cfg) { RunExtends(cfg, start, env, t', k + 1); }
  }

  /** A poll of a run from `t` on that gets through all its rows. */
  ghost predicate IsCompletePoll(cfg: Config, start: real, env: Environment, t: Task, k: nat)
    requires OrdersRows(env, |t.rows|)
  {
    assert Lists(env(k).order, |t.rows|);
    PollOnce(cfg, start, t, env(k)).1 == Continue
  }

  /**
   At every complete poll of a run each waiting row is asked about: its head if that is unknown, then its checks, and
   if all have passed the merge is tried at that very poll; the authorization line is appended if it is still due.
   */
  lemma {:induction false} EachPollAsks(cfg: Config, start: real, env: Environment, t: Task, k: nat, i: nat)
    requires ClockAdvances(cfg, start, env) && OrdersRows(env, |t.rows|) && i < |t.rows|
    requires IsCompletePoll(cfg, start, env, t, k) && !Terminal(t.rows[i].state)
    ensures var end := RunFrom(cfg, start, env, t, k).0;
      DueIsMade(t.rows[i], end.rows[i], env(k).obs(i), CallsOf(end.history, i))
  {
    hide ProcessAll, Horizon, DueIsMade, CallsOf, Forward;
    var p := env(k);
    assert Lists(p.order, |t.rows|) && i in p.order;
    ActiveIsDistinct(t.rows, p.order);
    PassMakesDue(t, Active(t.rows, p.order), cfg.grace, p.obs, i);
    ContinueIsEarly(cfg, start, env, t, k);
    var t' := PollOnce(cfg, start, t, p).0;
    var end := RunFrom(cfg, start, env, t', k + 1).0;
    RunMovesForward(cfg, start, env, t', k + 1);
    RunExtends(cfg, start, env, t', k + 1);
    assert Forward(t'.rows[i], end.rows[i]);
    forall c | c in CallsOf(t'.history, i) ensures c in CallsOf(end.history, i) {
      CallsOfHas(t'.history, i, c);
      CallsOfHas(end.history, i, c);
    }
    MoreCallsDue(t.rows[i], t'.rows[i], p.obs(i), CallsOf(t'.history, i), CallsOf(end.history, i));
    LaterRowDue(t.rows[i], t'.rows[i], end.rows[i], p.obs(i), CallsOf(end.history, i));
    HeadIsKept(t.rows[i], t', end, i, p.obs(i), CallsOf(t'.history, i));
    assert end.rows[i].(headSha := t'.rows[i].headSha) == end.rows[i];
  }

  /** A complete poll leaves a row with a head or ended; either way the head is the one at the end. */
  lemma {:induction false} HeadIsKept(row: Row, t': Task, end: Task, i: nat, obs: Observation, calls: seq<Call>)
    requires i < |t'.rows| == |end.rows| && DueIsMade(row, t'.rows[i], obs, calls)
    requires Forward(t'.rows[i], end.rows[i]) && FinishedLeftAlone(t', end)
    ensures end.rows[i].headSha == t'.rows[i].headSha
  {
    hide CallsOf;
    if t'.rows[i].headSha.None? { assert LeftAlone(t', end, i); }
  }

  lemma {:induction false} FailedIsFailed(answer: Answer<seq<CheckRun>>)
    requires answer.Got?
    ensures AnyFailed(answer.value) <==> ACheckFailed(answer)
  {
  }

  /** And a waiting row that GitHub settles at a complete poll ends so. */
  lemma {:induction false} SettledRowsEnd(cfg: Config, start: real, env: Environment, seeded: seq<Row>, t: Task,
      k: nat, i: nat, state: CandidateState)
    requires ClockAdvances(cfg, start, env) && OrdersRows(env, |t.rows|) && i < |t.rows|
    requires TaskSound(seeded, t, cfg.grace) && Quiet(t.history)
    requires IsCompletePoll(cfg, start, env, t, k) && !Terminal(t.rows[i].state)
    requires state in {Merged, ShaConflict, CiFailed}
    requires SettledAt(RunFrom(cfg, start, env, t, k).0.rows[i], env(k).obs(i), state)
    ensures RunFrom(cfg, start, env, t, k).0.rows[i].state == state
  {
    hide RunFrom, CallsOf, MergesCleared, MergesFollowLooks, AppendCount, StretchIs, WaitedInVain, NoneRaised, Quiet,
        AnyFailed, ACheckFailed, ChecksPassed;
    EachPollAsks(cfg, start, env, t, k, i);
    RunKeeps(seeded, cfg, start, env, t, k);
    RunMovesForward(cfg, start, env, t, k);
    var end := RunFrom(cfg, start, env, t, k).0;
    var row, obs, calls := end.rows[i], env(k).obs(i), CallsOf(end.history, i);
    assert RowSound(seeded, end, cfg.grace, i) && Forward(t.rows[i], row);
    if state == CiFailed {
      var look := FetchChecks(row.headSha.value, obs.checks(row.headSha.value), obs.at);
      GotIfFailed(look.runs);
      FailedIsFailed(look.runs);
      assert look in calls && Settles(look) == Some(state);
    } else {
      var (pr, sha) := (row.prNumber.value, row.headSha.value);
      var merge := MergePr(pr, sha, t.rows[i].auth, obs.merge(pr, sha));
      assert merge in calls && Settles(merge) == Some(state);
    }
    assert Settled(calls, state);
  }

  lemma {:induction false} GotIfFailed(answer: Answer<seq<CheckRun>>)
    requires ACheckFailed(answer)
    ensures answer.Got?
  {
  }
}

/**
 The wait-and-merge task (arguss/web/action_merge.py): it polls CI and merges pinned heads. GitHub,
 the clock and the kill switch are an arbitrary environment, given poll by poll; a request may also
 raise, which ends the merge task.
 */
module ActionMerge {
  import opened Basics
  import opened ActionRuns

  datatype Conclusion = Success | Neutral | SkippedCheck | OtherConclusion

  datatype CheckRun = CheckRun(completed: bool, conclusion: Conclusion)

  /** A response, or an exception from the client (transport, token mint). */
  datatype Answer<+T> = Got(value: T) | Raised

  // ---- Check runs ----

  predicate Green(runs: seq<CheckRun>) {
    runs != [] && forall r | r in runs :: r.completed && r.conclusion != OtherConclusion
  }

  predicate AnyFailed(runs: seq<CheckRun>) {
    exists r | r in runs :: r.completed && r.conclusion == OtherConclusion
  }

  /** `_check_runs_green` */
  method CheckRunsGreen(runs: seq<CheckRun>) returns (green: bool)
    ensures green <==> Green(runs)
  {
    if runs == [] { return false; }
    var i := 0;
    while i < |runs|
      invariant 0 <= i <= |runs|
      invariant forall r | r in runs[..i] :: r.completed && r.conclusion != OtherConclusion
    {
      assert runs[i] in runs && runs[..i + 1] == runs[..i] + [runs[i]];
      if !runs[i].completed { return false; }
      if runs[i].conclusion == OtherConclusion { return false; }
      i := i + 1;
    }
    assert runs[..i] == runs;
    green := true;
  }

  /** `_check_runs_failed` */
  method CheckRunsFailed(runs: seq<CheckRun>) returns (failed: bool)
    ensures failed <==> AnyFailed(runs)
  {
    var i := 0;
    while i < |runs|
      invariant 0 <= i <= |runs|
      invariant forall r | r in runs[..i] :: !(r.completed && r.conclusion == OtherConclusion)
    {
      assert runs[i] in runs && runs[..i + 1] == runs[..i] + [runs[i]];
      if runs[i].completed && runs[i].conclusion == OtherConclusion { return true; }
      i := i + 1;
    }
    assert runs[..i] == runs;
    failed := false;
  }

  // ---- One candidate, one poll ----

  /** What the environment would answer to each request of this step. */
  datatype Observation = Observation(
    head: int -> Answer<Option<string>>,
    checks: string -> Answer<seq<CheckRun>>,
    at: real,
    merge: (int, string) -> Answer<int>)

  /** Requests made, with their answers; `at` is the clock read after an empty check list. */
  datatype Call =
    | AppendBody(pr: int)
    | FetchHead(pr: int, head: Answer<Option<string>>)
    | FetchChecks(sha: string, runs: Answer<seq<CheckRun>>, at: real)
    | MergePr(pr: int, sha: string, auth: Option<Authorization>, status: Answer<int>)

  datatype Step = Step(row: Row, since: Option<real>, calls: seq<Call>, crashed: bool)

  /** The merge request on a green head, and what its status does to the row. */
  function TryMerge(row: Row, sha: string, obs: Observation, calls: seq<Call>): Step {
    if row.prNumber.None? then Step(row.(state := HeadShaUnresolved), None, calls, false)
    else
      var pr := row.prNumber.value;
      var status := obs.merge(pr, sha);
      var made := calls + [MergePr(pr, sha, row.auth, status)];
      if status.Raised? then Step(row, None, made, true)
      else if status.value == 200 then Step(row.(state := Merged), None, made, false)
      else if status.value == 409 then Step(row.(state := ShaConflict), None, made, false)
      else Step(row, None, made, false)
  }

  /** From the check-run request on, for a known head. */
  function Judge(row: Row, sha: string, since: Option<real>, grace: real, obs: Observation, calls: seq<Call>): Step {
    var answer := obs.checks(sha);
    var made := calls + [FetchChecks(sha, answer, obs.at)];
    var waiting := if row.state == PrOpened then row.(state := CiRunning) else row;
    if answer.Raised? then Step(row, since, made, true)
    else if answer.value == [] then
      var started := if since.Some? then since.value else obs.at;
      if obs.at - started >= grace then Step(row.(state := NoChecks), Some(started), made, false)
      else Step(waiting, Some(started), made, false)
    else if AnyFailed(answer.value) then Step(row.(state := CiFailed), None, made, false)
    else if !Green(answer.value) then Step(waiting, None, made, false)
    else TryMerge(row, sha, obs, made)
  }

  /** The head is read once and kept; only then are checks looked at. */
  function ResolveAndJudge(row: Row, since: Option<real>, grace: real, obs: Observation, calls: seq<Call>): Step {
    if row.headSha.Some? then Judge(row, row.headSha.value, since, grace, obs, calls)
    else if row.prNumber.None? then Step(row.(state := HeadShaUnresolved), since, calls, false)
    else
      var head := obs.head(row.prNumber.value);
      var made := calls + [FetchHead(row.prNumber.value, head)];
      if head.Raised? then Step(row, since, made, true)
      else if head.value.None? then Step(row.(state := HeadShaUnresolved), since, made, false)
      else Judge(row.(headSha := head.value), head.value.value, since, grace, obs, made)
  }

  /** The append to the PR body, where one is due; its failure is only logged. */
  function AnnounceCalls(row: Row): seq<Call> {
    if row.auth.Some? && !row.appended && row.prNumber.Some? then [AppendBody(row.prNumber.value)] else []
  }

  /** `_process_candidate` */
  function Process(row: Row, since: Option<real>, grace: real, obs: Observation): Step {
    var announce := row.auth.Some? && !row.appended;
    var calls := AnnounceCalls(row);
    var marked := if announce then row.(appended := true) else row;
    if Terminal(row.state) then Step(marked, since, calls, false)
    else ResolveAndJudge(marked, since, grace, obs, calls)
  }

  // ---- The merge task ----

  datatype Event = Event(row: nat, call: Call)

  datatype Task = Task(rows: seq<Row>, since: map<nat, real>, completed: bool, history: seq<Event>)

  function Tag(i: nat, calls: seq<Call>): seq<Event> {
    seq(|calls|, p requires 0 <= p < |calls| => Event(i, calls[p]))
  }

  function SinceOf(since: map<nat, real>, i: nat): Option<real> {
    if i in since then Some(since[i]) else None
  }

  function SetSince(since: map<nat, real>, i: nat, s: Option<real>): map<nat, real> {
    if s.Some? then since[i := s.value] else since - {i}
  }

  function Apply(t: Task, i: nat, s: Step): Task
    requires i < |t.rows|
  {
    t.(rows := t.rows[i := s.row], since := SetSince(t.since, i, s.since), history := t.history + Tag(i, s.calls))
  }

  function StepAt(t: Task, i: nat, grace: real, obs: Observation): Step
    requires i < |t.rows|
  {
    Process(t.rows[i], SinceOf(t.since, i), grace, obs)
  }

  /** `for candidate in active`, abandoned at the first exception. */
  function ProcessAll(t: Task, active: seq<nat>, grace: real, obs: nat -> Observation): (r: (Task, bool))
    requires forall i | i in active :: i < |t.rows|
    ensures |r.0.rows| == |t.rows|
    decreases |active|
  {
    if active == [] then (t, false)
    else
      assert active[0] in active && forall i | i in active[1..] :: i in active;
      var s := StepAt(t, active[0], grace, obs(active[0]));
      var t' := Apply(t, active[0], s);
      if s.crashed then (t', true) else ProcessAll(t', active[1..], grace, obs)
  }

  /** One pass of the loop, as the environment answers it; `order` is the load order of the rows. */
  datatype Poll = Poll(killed: bool, clock: real, order: seq<nat>, obs: nat -> Observation)

  datatype Config = Config(pollInterval: real, grace: real, cap: real)

  datatype Outcome = Continue | Returned | Crashed

  /** Load order lists every row once. */
  ghost predicate Lists(order: seq<nat>, n: nat) {
    && (forall i | i in order :: i < n)
    && (forall i: nat | i < n :: i in order)
    && forall p, q | 0 <= p < q < |order| :: order[p] != order[q]
  }

  function Active(rows: seq<Row>, order: seq<nat>): (active: seq<nat>)
    requires forall i | i in order :: i < |rows|
    ensures forall i :: i in active <==> i in order && !Terminal(rows[i].state)
  {
    if order == [] then []
    else
      assert order[0] in order && order == [order[0]] + order[1..] && forall i | i in order[1..] :: i in order;
      (if Terminal(rows[order[0]].state) then [] else [order[0]]) + Active(rows, order[1..])
  }

  /** All non-terminal rows moved to `state`, as both early exits do. */
  function EndAll(rows: seq<Row>, state: CandidateState): seq<Row> {
    seq(|rows|, i requires 0 <= i < |rows| => if Terminal(rows[i].state) then rows[i] else rows[i].(state := state))
  }

  predicate AllTerminal(rows: seq<Row>) {
    forall r | r in rows :: Terminal(r.state)
  }

  /** `finalize_action_run_if_terminal` */
  function Finalize(t: Task): Task {
    t.(completed := t.completed || (t.rows != [] && AllTerminal(t.rows)))
  }

  function PollOnce(cfg: Config, start: real, t: Task, p: Poll): (r: (Task, Outcome))
    requires forall i | i in p.order :: i < |t.rows|
    ensures |r.0.rows| == |t.rows|
  {
    if p.killed then (Finalize(t.(rows := EndAll(t.rows, Killed))), Returned)
    else if Active(t.rows, p.order) == [] then (Finalize(t), Returned)
    else if p.clock - start >= cfg.cap then (Finalize(t.(rows := EndAll(t.rows, TimedOut))), Returned)
    else
      var (t', crashed) := ProcessAll(t, Active(t.rows, p.order), cfg.grace, p.obs);
      (t', if crashed then Crashed else Continue)
  }

  type Environment = nat -> Poll

  /** Polls are at least the poll interval apart, starting no earlier than the run. */
  ghost predicate ClockAdvances(cfg: Config, start: real, env: Environment) {
    && cfg.pollInterval > 0.0 && env(0).clock >= start
    && forall k: nat :: env(k + 1).clock >= env(k).clock + cfg.pollInterval
  }

  ghost predicate OrdersRows(env: Environment, n: nat) {
    forall k: nat :: Lists(env(k).order, n)
  }

  /** No poll with this index or a later one goes round again. */
  function Horizon(cfg: Config): nat
    requires cfg.pollInterval > 0.0
  {
    if cfg.cap <= 0.0 then 0 else (cfg.cap / cfg.pollInterval).Floor + 1
  }

  /** The run from poll `k`: final task, how it ended, and the number of polls made by then. */
  ghost function RunFrom(cfg: Config, start: real, env: Environment, t: Task, k: nat): (r: (Task, Outcome, nat))
    requires cfg.pollInterval > 0.0 && OrdersRows(env, |t.rows|)
    ensures |r.0.rows| == |t.rows|
    decreases Horizon(cfg) - k
  {
    assert Lists(env(k).order, |t.rows|);
    var (t', outcome) := PollOnce(cfg, start, t, env(k));
    if outcome != Continue || k >= Horizon(cfg) then (t', outcome, k + 1) else RunFrom(cfg, start, env, t', k + 1)
  }

  lemma {:induction false} ClockAt(cfg: Config, start: real, env: Environment, k: nat)
    requires ClockAdvances(cfg, start, env)
    ensures env(k).clock - start >= k as real * cfg.pollInterval
  {
    if k > 0 {
      ClockAt(cfg, start, env, k - 1);
      assert env(k - 1 + 1).clock >= env(k - 1).clock + cfg.pollInterval;
      assert k as real * cfg.pollInterval == (k - 1) as real * cfg.pollInterval + cfg.pollInterval;
    }
  }

  lemma {:induction false} HorizonIsEnough(cfg: Config, k: nat)
    requires cfg.pollInterval > 0.0 && k >= Horizon(cfg)
    ensures k as real * cfg.pollInterval >= cfg.cap
  {
    if cfg.cap > 0.0 {
      var q := cfg.cap / cfg.pollInterval;
      assert q * cfg.pollInterval == cfg.cap;
      assert k as real >= q;
      assert k as real * cfg.pollInterval >= q * cfg.pollInterval;
    } else {
      assert k as real * cfg.pollInterval >= 0.0;
    }
  }

  /** Past the horizon a poll cannot ask for another. */
  lemma {:induction false} ContinueIsEarly(cfg: Config, start: real, env: Environment, t: Task, k: nat)
    requires ClockAdvances(cfg, start, env) && OrdersRows(env, |t.rows|)
    requires assert Lists(env(k).order, |t.rows|); PollOnce(cfg, start, t, env(k)).1 == Continue
    ensures k < Horizon(cfg)
  {
    ClockAt(cfg, start, env, k);
    if k >= Horizon(cfg) { HorizonIsEnough(cfg, k); }
  }

  // ---- The merge task as the source runs it: rows rewritten in place ----

  lemma {:induction false} TagGrows(i: nat, calls: seq<Call>, c: Call)
    ensures Tag(i, calls + [c]) == Tag(i, calls) + [Event(i, c)]
  {
  }

  class MergeTask {
    var rows: seq<Row>
    var since: map<nat, real>
    var completed: bool
    ghost var history: seq<Event>

    ghost function Snapshot(): Task
      reads this
    {
      Task(rows, since, completed, history)
    }

    constructor (seeded: seq<Row>)
      ensures Snapshot() == Task(seeded, map[], false, [])
    {
      rows, since, completed, history := seeded, map[], false, [];
    }

    method Record(i: nat, call: Call)
      modifies this`history
      ensures history == old(history) + [Event(i, call)]
    {
      history := history + [Event(i, call)];
    }

    method SetState(i: nat, state: CandidateState)
      requires i < |rows|
      modifies this`rows
      ensures rows == old(rows)[i := old(rows)[i].(state := state)]
    {
      rows := rows[i := rows[i].(state := state)];
    }

    /** `_process_candidate` up to its first check of the state. */
    method Announce(i: nat) returns (ghost calls: seq<Call>)
      requires i < |rows|
      modifies this`rows, this`history
      ensures var row := old(rows)[i];
        && calls == AnnounceCalls(row)
        && rows == old(rows)[i := if row.auth.Some? && !row.appended then row.(appended := true) else row]
        && history == old(history) + Tag(i, calls)
    {
      calls := [];
      if rows[i].auth.Some? && !rows[i].appended {
        if rows[i].prNumber.Some? {
          calls := [AppendBody(rows[i].prNumber.value)];
          Record(i, AppendBody(rows[i].prNumber.value));
        }
        rows := rows[i := rows[i].(appended := true)];
      }
    }

    /** `_process_candidate` from the check-run request on. */
    method JudgeCandidate(i: nat, sha: string, grace: real, obs: Observation, ghost calls: seq<Call>,
        ghost before: seq<Event>)
      returns (crashed: bool)
      requires i < |rows| && history == before + Tag(i, calls)
      modifies this`rows, this`since, this`history
      ensures var s := Judge(old(rows)[i], sha, SinceOf(old(since), i), grace, obs, calls);
        && rows == old(rows)[i := s.row] && since == SetSince(old(since), i, s.since)
        && history == before + Tag(i, s.calls) && crashed == s.crashed
    {
      ghost var made := calls + [FetchChecks(sha, obs.checks(sha), obs.at)];
      TagGrows(i, calls, FetchChecks(sha, obs.checks(sha), obs.at));
      Record(i, FetchChecks(sha, obs.checks(sha), obs.at));
      if obs.checks(sha).Raised? { return true; }
      crashed := false;
      var checkRuns := obs.checks(sha).value;
      if checkRuns == [] {
        if i !in since { since := since[i := obs.at]; }
        if obs.at - since[i] >= grace {
          SetState(i, NoChecks);
        } else if rows[i].state == PrOpened {
          SetState(i, CiRunning);
        }
        return;
      }
      since := since - {i};
      var failed := CheckRunsFailed(checkRuns);
      if failed {
        SetState(i, CiFailed);
        return;
      }
      var green := CheckRunsGreen(checkRuns);
      if !green {
        if rows[i].state == PrOpened { SetState(i, CiRunning); }
        return;
      }
      if rows[i].prNumber.None? {
        SetState(i, HeadShaUnresolved);
        return;
      }
      var pr := rows[i].prNumber.value;
      var status := obs.merge(pr, sha);
      TagGrows(i, made, MergePr(pr, sha, rows[i].auth, status));
      Record(i, MergePr(pr, sha, rows[i].auth, status));
      if status.Raised? { return true; }
      if status.value == 200 {
        SetState(i, Merged);
      } else if status.value == 409 {
        SetState(i, ShaConflict);
      }
    }

    /** `_process_candidate` */
    method ProcessCandidate(i: nat, grace: real, obs: Observation) returns (crashed: bool)
      requires i < |rows|
      modifies this`rows, this`since, this`history
      ensures var s := StepAt(old(Snapshot()), i, grace, obs);
        && Snapshot() == Apply(old(Snapshot()), i, s) && crashed == s.crashed
    {
      ghost var before := history;
      ghost var calls := Announce(i);
      crashed := false;
      if Terminal(rows[i].state) { return; }
      if rows[i].headSha.None? {
        if rows[i].prNumber.None? {
          SetState(i, HeadShaUnresolved);
          return;
        }
        var pr := rows[i].prNumber.value;
        var head := obs.head(pr);
        TagGrows(i, calls, FetchHead(pr, head));
        calls := calls + [FetchHead(pr, head)];
        Record(i, FetchHead(pr, head));
        if head.Raised? { return true; }
        if head.value.None? {
          SetState(i, HeadShaUnresolved);
          return;
        }
        rows := rows[i := rows[i].(headSha := head.value)];
      }
      crashed := JudgeCandidate(i, rows[i].headSha.value, grace, obs, calls, before);
    }

    /** The loop over candidates both early exits share. */
    method EndRows(ids: seq<nat>, state: CandidateState)
      requires forall i | i in ids :: i < |rows|
      requires forall i: nat | i < |rows| && !Terminal(rows[i].state) :: i in ids
      requires Terminal(state)
      modifies this`rows
      ensures rows == EndAll(old(rows), state)
    {
      var done := 0;
      while done < |ids|
        invariant 0 <= done <= |ids| && |rows| == |old(rows)|
        invariant forall i: nat | i < |rows| ::
            rows[i] == if i in ids[..done] then EndAll(old(rows), state)[i] else old(rows)[i]
      {
        assert ids[done] in ids && ids[..done + 1] == ids[..done] + [ids[done]];
        if !Terminal(rows[ids[done]].state) { SetState(ids[done], state); }
        done := done + 1;
      }
      assert ids[..done] == ids;
    }

    /** `finalize_action_run_if_terminal` */
    method FinalizeIfTerminal()
      modifies this`completed
      ensures Snapshot() == Finalize(old(Snapshot()))
    {
      if !completed && rows != [] && AllTerminal(rows) { completed := true; }
    }

    /** `for candidate in active` */
    method ProcessActive(active: seq<nat>, grace: real, obs: nat -> Observation) returns (crashed: bool)
      requires forall i | i in active :: i < |rows|
      modifies this`rows, this`since, this`history
      ensures (Snapshot(), crashed) == ProcessAll(old(Snapshot()), active, grace, obs)
    {
      var done := 0;
      crashed := false;
      while done < |active|
        invariant 0 <= done <= |active| && |rows| == |old(rows)| && !crashed
        invariant forall i | i in active[done..] :: i < |rows|
        invariant ProcessAll(Snapshot(), active[done..], grace, obs) == ProcessAll(old(Snapshot()), active, grace, obs)
      {
        assert active[done] in active && active[done..][1..] == active[done + 1..];
        assert forall i | i in active[done..][1..] :: i in active[done..];
        crashed := ProcessCandidate(active[done], grace, obs(active[done]));
        if crashed { return; }
        done := done + 1;
      }
    }

    /** `run_action_merge_task` */
    method Run(cfg: Config, start: real, env: Environment) returns (crashed: bool, ghost polls: nat)
      requires ClockAdvances(cfg, start, env) && OrdersRows(env, |rows|)
      modifies this
      ensures RunFrom(cfg, start, env, old(Snapshot()), 0) == (Snapshot(), if crashed then Crashed else Returned, polls)
    {
      var k: nat := 0;
      crashed, polls := false, 0;
      while true
        invariant |rows| == |old(rows)|
        invariant RunFrom(cfg, start, env, Snapshot(), k) == RunFrom(cfg, start, env, old(Snapshot()), 0)
        decreases Horizon(cfg) - k
      {
        assert Lists(env(k).order, |rows|);
        var p := env(k);
        polls := k + 1;
        ghost var t := Snapshot();
        if p.killed {
          EndRows(p.order, Killed);
          FinalizeIfTerminal();
          return;
        }
        var active := Active(rows, p.order);
        if active == [] {
          FinalizeIfTerminal();
          return;
        }
        if p.clock - start >= cfg.cap {
          EndRows(active, TimedOut);
          FinalizeIfTerminal();
          return;
        }
        crashed := ProcessActive(active, cfg.grace, p.obs);
        if crashed { return; }
        ContinueIsEarly(cfg, start, env, t, k);
        k := k + 1;
      }
    }
  }
}

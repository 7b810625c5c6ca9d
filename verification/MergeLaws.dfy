/**
 What every run of the wait-and-merge task keeps, whatever GitHub, the clock and the kill switch do
 (arguss/web/action_merge.py).
 */
module MergeLaws {
  import opened Basics
  import opened ActionRuns
  import opened ActionMerge

  // ---- What is tracked for one row ----

  /** `pr_opened` before `ci_running` before every terminal state. */
  function Rank(s: CandidateState): nat {
    if s == PrOpened then 0 else if s == CiRunning then 1 else 2
  }

  /** Identity, pull request and authorization never change; the head is written once; states only advance. */
  predicate Forward(was: Row, row: Row) {
    && row.candidateId == was.candidateId && row.prNumber == was.prNumber && row.auth == was.auth
    && row.score == was.score && row.vetoes == was.vetoes
    && (was.headSha.Some? ==> row.headSha == was.headSha)
    && Rank(was.state) <= Rank(row.state)
    && (Terminal(was.state) ==> row.state == was.state)
    && (was.appended ==> row.appended)
  }

  predicate Raises(c: Call) {
    match c
    case AppendBody(_) => false
    case FetchHead(_, answer) => answer.Raised?
    case FetchChecks(_, answer, _) => answer.Raised?
    case MergePr(_, _, _, answer) => answer.Raised?
  }

  /** The state an answer settles its row in, if any. */
  function Settles(c: Call): Option<CandidateState> {
    match c
    case AppendBody(_) => None
    case FetchHead(_, head) => if head == Got(None) then Some(HeadShaUnresolved) else None
    case FetchChecks(_, runs, _) => if runs.Got? && AnyFailed(runs.value) then Some(CiFailed) else None
    case MergePr(_, _, _, status) =>
      if status == Got(200) then Some(Merged) else if status == Got(409) then Some(ShaConflict) else None
  }

  /** `look` is an answer showing every check of the head that `merge` pins completed and green. */
  predicate Clears(look: Call, merge: Call) {
    merge.MergePr? && look.FetchChecks? && look.sha == merge.sha && look.runs.Got? && Green(look.runs.value)
  }

  /** A merge request follows directly on such a look, and carries the row's own head and authorization. */
  predicate Cleared(calls: seq<Call>, p: nat, row: Row)
    requires p < |calls|
  {
    calls[p].MergePr? ==>
      && p > 0 && Clears(calls[p - 1], calls[p])
      && row.prNumber == Some(calls[p].pr) && row.headSha == Some(calls[p].sha) && row.auth == calls[p].auth
  }

  predicate EmptyLook(c: Call) {
    c.FetchChecks? && c.runs == Got([])
  }

  /** From position `p` on, every look at the checks found none. */
  predicate EmptyFrom(calls: seq<Call>, p: nat) {
    p < |calls| && EmptyLook(calls[p]) && forall q | p <= q < |calls| :: calls[q].FetchChecks? ==> EmptyLook(calls[q])
  }

  /** The latest looks found no checks. */
  ghost predicate Running(calls: seq<Call>) {
    exists p: nat :: EmptyFrom(calls, p)
  }

  /** An unbroken stretch of empty looks, still lasting, starts at position `p`. */
  ghost predicate StretchFrom(calls: seq<Call>, p: nat) {
    EmptyFrom(calls, p) && !Running(calls[..p])
  }

  ghost predicate EmptySince(calls: seq<Call>, s: real) {
    exists p: nat :: StretchFrom(calls, p) && calls[p].at == s
  }

  ghost predicate WaitedBetween(calls: seq<Call>, p: nat, q: nat, grace: real) {
    p <= q < |calls| && StretchFrom(calls, p) && EmptyLook(calls[q]) && calls[q].at - calls[p].at >= grace
  }

  /** An unbroken stretch of empty looks lasted at least the grace period. */
  ghost predicate WaitedInVain(calls: seq<Call>, grace: real) {
    exists p: nat, q: nat :: WaitedBetween(calls, p, q, grace)
  }

  function AppendCount(calls: seq<Call>): nat {
    if calls == [] then 0 else AppendCount(calls[..|calls| - 1]) + (if calls[|calls| - 1].AppendBody? then 1 else 0)
  }

  ghost predicate MergesCleared(calls: seq<Call>, row: Row) {
    forall p: nat | p < |calls| :: Cleared(calls, p, row)
  }

  ghost predicate NoneRaised(calls: seq<Call>) {
    forall c | c in calls :: !Raises(c)
  }

  ghost predicate Settled(calls: seq<Call>, state: CandidateState) {
    exists c | c in calls :: Settles(c) == Some(state)
  }

  /** Some answer showed checks missing or unfinished or failed. */
  ghost predicate SawNotGreen(calls: seq<Call>) {
    exists c | c in calls :: NotGreenLook(c)
  }

  predicate NotGreenLook(c: Call) {
    c.FetchChecks? && c.runs.Got? && !Green(c.runs.value)
  }

  ghost predicate OnlyAppends(calls: seq<Call>) {
    forall c | c in calls :: c.AppendBody?
  }

  /** Each end of a row that GitHub decides is reached exactly on the answer that decides it. */
  ghost predicate EndsAreAnswered(was: Row, row: Row, calls: seq<Call>) {
    && (forall state :: Settled(calls, state) ==> Terminal(state) && row.state == state)
    && (row.state in {Merged, ShaConflict, CiFailed} && was.state != row.state ==> Settled(calls, row.state))
    && (row.state == HeadShaUnresolved && was.state != row.state && row.prNumber.Some? ==> Settled(calls, row.state))
  }

  /** `since` is when the running stretch of empty looks began, if one is running. */
  ghost predicate StretchIs(calls: seq<Call>, since: Option<real>) {
    if since.Some? then EmptySince(calls, since.value) else !Running(calls)
  }

  /** Where a row may be, given where it started and the requests made for it. */
  ghost predicate Sound(was: Row, row: Row, since: Option<real>, calls: seq<Call>, grace: real) {
    && Forward(was, row)
    && MergesCleared(calls, row)
    && EndsAreAnswered(was, row, calls)
    && (Terminal(was.state) ==> OnlyAppends(calls))
    && (was.state == PrOpened && !Terminal(row.state) ==> (row.state == CiRunning <==> SawNotGreen(calls)))
    && AppendCount(calls) <= (if row.appended && !was.appended then 1 else 0)
    && (!Terminal(row.state) && NoneRaised(calls) ==> StretchIs(calls, since))
    && (was.state != NoChecks ==> (row.state == NoChecks <==> WaitedInVain(calls, grace)))
  }

  // ---- One more request ----

  lemma {:induction false} CallsGrow(calls: seq<Call>, c: Call)
    ensures AppendCount(calls + [c]) == AppendCount(calls) + (if c.AppendBody? then 1 else 0)
    ensures forall state :: Settled(calls + [c], state) <==> Settled(calls, state) || Settles(c) == Some(state)
    ensures SawNotGreen(calls + [c]) <==> SawNotGreen(calls) || NotGreenLook(c)
    ensures OnlyAppends(calls + [c]) <==> OnlyAppends(calls) && c.AppendBody?
    ensures NoneRaised(calls + [c]) <==> NoneRaised(calls) && !Raises(c)
  {
    assert (calls + [c])[..|calls|] == calls;
    assert c in calls + [c];
    assert forall d :: d in calls + [c] <==> d in calls || d == c;
    assert forall d :: d in calls ==> d in calls + [c];
  }

  /** A request other than a merge leaves the earlier merges cleared; so does a cleared merge. */
  lemma {:induction false} MergesStayCleared(calls: seq<Call>, c: Call, row: Row, row': Row)
    requires MergesCleared(calls, row) && Forward(row, row')
    requires Cleared(calls + [c], |calls|, row')
    ensures MergesCleared(calls + [c], row')
  {
    forall p: nat | p < |calls + [c]| ensures Cleared(calls + [c], p, row') {
      if p < |calls| { assert Cleared(calls, p, row); }
    }
  }

  lemma {:induction false} StretchKept(calls: seq<Call>, c: Call, p: nat)
    requires c.FetchChecks? ==> EmptyLook(c)
    requires p < |calls|
    ensures EmptyFrom(calls + [c], p) <==> EmptyFrom(calls, p)
    ensures StretchFrom(calls + [c], p) <==> StretchFrom(calls, p)
  {
    assert (calls + [c])[..p] == calls[..p];
    if EmptyFrom(calls + [c], p) {
      forall q | p <= q < |calls| ensures calls[q].FetchChecks? ==> EmptyLook(calls[q]) {
        assert (calls + [c])[q] == calls[q];
      }
    }
  }

  lemma {:induction false} StretchRunsOn(calls: seq<Call>, p: nat, q: nat)
    requires EmptyFrom(calls, p) && p < q <= |calls|
    ensures Running(calls[..q])
  {
    assert EmptyFrom(calls[..q], p);
  }

  /** At most one stretch is running. */
  lemma {:induction false} OneStretch(calls: seq<Call>, p: nat, q: nat)
    requires StretchFrom(calls, p) && StretchFrom(calls, q)
    ensures p == q
  {
    if p < q { StretchRunsOn(calls, p, q); }
    if q < p { StretchRunsOn(calls, q, p); }
  }

  lemma {:induction false} OtherCallKeepsStretch(calls: seq<Call>, c: Call, since: Option<real>, grace: real)
    requires !c.FetchChecks?
    ensures StretchIs(calls, since) ==> StretchIs(calls + [c], since)
    ensures WaitedInVain(calls + [c], grace) <==> WaitedInVain(calls, grace)
  {
    forall p: nat | p < |calls|
      ensures EmptyFrom(calls + [c], p) <==> EmptyFrom(calls, p)
      ensures StretchFrom(calls + [c], p) <==> StretchFrom(calls, p)
    {
      StretchKept(calls, c, p);
    }
    if StretchIs(calls, since) && since.Some? {
      var p: nat :| StretchFrom(calls, p) && calls[p].at == since.value;
      assert StretchFrom(calls + [c], p);
    }
    if WaitedInVain(calls, grace) {
      var p: nat, q: nat :| WaitedBetween(calls, p, q, grace);
      assert WaitedBetween(calls + [c], p, q, grace);
    }
    if WaitedInVain(calls + [c], grace) {
      var p: nat, q: nat :| WaitedBetween(calls + [c], p, q, grace);
      assert WaitedBetween(calls, p, q, grace);
    }
  }

  /** A look that found checks, or raised, ends any stretch. */
  lemma {:induction false} StretchBroken(calls: seq<Call>, c: Call, grace: real)
    requires c.FetchChecks? && !EmptyLook(c)
    ensures !Running(calls + [c]) && !WaitedInVain(calls + [c], grace)
  {
    var after := calls + [c];
    assert after[|calls|] == c;
    forall p: nat ensures !EmptyFrom(after, p) {}
  }

  /** An empty look joins the running stretch or starts one; from its start the wait is measured. */
  lemma {:induction false} StretchGrows(calls: seq<Call>, c: Call, since: Option<real>, grace: real)
    requires EmptyLook(c) && StretchIs(calls, since) && !WaitedInVain(calls, grace)
    ensures var s := if since.Some? then since.value else c.at;
      EmptySince(calls + [c], s) && (WaitedInVain(calls + [c], grace) <==> c.at - s >= grace)
  {
    var after := calls + [c];
    forall p: nat | p < |calls| ensures StretchFrom(after, p) <==> StretchFrom(calls, p) { StretchKept(calls, c, p); }
    assert after[..|calls|] == calls;
    var start: nat := |calls|;
    if since.Some? { start :| StretchFrom(calls, start) && calls[start].at == since.value; }
    assert StretchFrom(after, start);
    if c.at - after[start].at >= grace { assert WaitedBetween(after, start, |calls|, grace); }
    if WaitedInVain(after, grace) {
      var p: nat, q: nat :| WaitedBetween(after, p, q, grace);
      OneStretch(after, p, start);
      if q < |calls| && p < |calls| { assert WaitedBetween(calls, p, q, grace); }
    }
  }

  // ---- One step ----

  /** A look that found no checks: the stretch of such looks goes on or starts. */
  lemma {:induction false} EmptyLookKeeps(was: Row, row: Row, sha: string, since: Option<real>, grace: real,
      obs: Observation, calls: seq<Call>)
    requires Sound(was, row, since, calls, grace) && NoneRaised(calls) && !Terminal(row.state)
    requires obs.checks(sha) == Got([])
    ensures var s := Judge(row, sha, since, grace, obs, calls);
      Sound(was, s.row, s.since, s.calls, grace) && !s.crashed && NoneRaised(s.calls)
  {
    hide MergesCleared, Settled, SawNotGreen, OnlyAppends, NoneRaised, Running, EmptySince, WaitedInVain, AppendCount;
    var s := Judge(row, sha, since, grace, obs, calls);
    var look := FetchChecks(sha, obs.checks(sha), obs.at);
    CallsGrow(calls, look);
    MergesStayCleared(calls, look, row, s.row);
    StretchGrows(calls, look, since, grace);
  }

  /** A look after which a merge is tried. */
  predicate MergeIsTried(row: Row, answer: Answer<seq<CheckRun>>) {
    answer.Got? && !AnyFailed(answer.value) && Green(answer.value) && row.prNumber.Some?
  }

  /** A look that raised, or found checks that do not lead to a merge. */
  lemma {:induction false} OtherLookKeeps(was: Row, row: Row, sha: string, since: Option<real>, grace: real,
      obs: Observation, calls: seq<Call>)
    requires Sound(was, row, since, calls, grace) && NoneRaised(calls) && !Terminal(row.state)
    requires obs.checks(sha) != Got([]) && !MergeIsTried(row, obs.checks(sha))
    ensures var s := Judge(row, sha, since, grace, obs, calls);
      Sound(was, s.row, s.since, s.calls, grace) && (s.crashed <==> !NoneRaised(s.calls))
  {
    hide MergesCleared, Settled, SawNotGreen, OnlyAppends, NoneRaised, Running, EmptySince, WaitedInVain, AppendCount,
        Green, AnyFailed;
    var s := Judge(row, sha, since, grace, obs, calls);
    var look := FetchChecks(sha, obs.checks(sha), obs.at);
    CallsGrow(calls, look);
    StretchBroken(calls, look, grace);
    MergesStayCleared(calls, look, row, s.row);
  }

  /** A green look: all that was tracked still holds, and nothing is waited for. */
  lemma {:induction false} GreenLookKeeps(was: Row, row: Row, since: Option<real>, grace: real, look: Call,
      calls: seq<Call>)
    requires Sound(was, row, since, calls, grace) && NoneRaised(calls) && !Terminal(row.state)
    requires look.FetchChecks? && MergeIsTried(row, look.runs)
    ensures Sound(was, row, None, calls + [look], grace) && NoneRaised(calls + [look])
  {
    hide MergesCleared, Settled, SawNotGreen, OnlyAppends, NoneRaised, Running, EmptySince, WaitedInVain, AppendCount;
    CallsGrow(calls, look);
    StretchBroken(calls, look, grace);
    MergesStayCleared(calls, look, row, row);
  }

  lemma {:induction false} JudgeKeeps(was: Row, row: Row, sha: string, since: Option<real>, grace: real,
      obs: Observation, calls: seq<Call>)
    requires Sound(was, row, since, calls, grace) && NoneRaised(calls)
    requires !Terminal(row.state) && row.headSha == Some(sha)
    ensures var s := Judge(row, sha, since, grace, obs, calls);
      Sound(was, s.row, s.since, s.calls, grace) && (s.crashed <==> !NoneRaised(s.calls))
  {
    hide Sound, NoneRaised, TryMerge, AnyFailed, Green;
    if obs.checks(sha) == Got([]) {
      EmptyLookKeeps(was, row, sha, since, grace, obs, calls);
    } else if MergeIsTried(row, obs.checks(sha)) {
      var look := FetchChecks(sha, obs.checks(sha), obs.at);
      GreenLookKeeps(was, row, since, grace, look, calls);
      MergeKeeps(was, row, sha, obs, calls + [look], grace);
    } else {
      OtherLookKeeps(was, row, sha, since, grace, obs, calls);
    }
  }

  lemma {:induction false} MergeKeeps(was: Row, row: Row, sha: string, obs: Observation, calls: seq<Call>, grace: real)
    requires Sound(was, row, None, calls, grace) && NoneRaised(calls)
    requires !Terminal(row.state) && row.headSha == Some(sha) && row.prNumber.Some?
    requires calls != [] && Clears(calls[|calls| - 1],
        MergePr(row.prNumber.value, sha, row.auth, obs.merge(row.prNumber.value, sha)))
    ensures var s := TryMerge(row, sha, obs, calls);
      Sound(was, s.row, s.since, s.calls, grace) && (s.crashed <==> !NoneRaised(s.calls))
  {
    hide MergesCleared, Settled, SawNotGreen, OnlyAppends, NoneRaised, Running, EmptySince, WaitedInVain, AppendCount,
        Green, AnyFailed;
    var s := TryMerge(row, sha, obs, calls);
    var merge := MergePr(row.prNumber.value, sha, row.auth, obs.merge(row.prNumber.value, sha));
    CallsGrow(calls, merge);
    OtherCallKeepsStretch(calls, merge, None, grace);
    MergesStayCleared(calls, merge, row, s.row);
  }

  /** A request that is neither a look nor a merge. */
  lemma {:induction false} OtherCallKeeps(was: Row, row: Row, row': Row, since: Option<real>, calls: seq<Call>,
      c: Call, grace: real)
    requires Sound(was, row, since, calls, grace) && NoneRaised(calls)
    requires !c.FetchChecks? && !c.MergePr? && Forward(row, row')
    requires row'.state == (if Settles(c).Some? then Settles(c).value else row.state)
    requires !c.AppendBody? ==> !Terminal(row.state)
    requires c.AppendBody? ==> !row.appended && row'.appended
    ensures Sound(was, row', since, calls + [c], grace) && (NoneRaised(calls + [c]) <==> !Raises(c))
  {
    hide MergesCleared, Settled, SawNotGreen, OnlyAppends, NoneRaised, Running, EmptySince, WaitedInVain, AppendCount;
    CallsGrow(calls, c);
    MergesStayCleared(calls, c, row, row');
    OtherCallKeepsStretch(calls, c, since, grace);
  }

  /** A row written without a request: marked, given its head, or ended without checks or merge. */
  lemma {:induction false} WriteKeeps(was: Row, row: Row, row': Row, since: Option<real>, calls: seq<Call>, grace: real)
    requires Sound(was, row, since, calls, grace) && Forward(row, row')
    requires row'.state == row.state || row'.state in {Killed, TimedOut} ||
        (row'.state == HeadShaUnresolved && row.prNumber.None?)
    ensures Sound(was, row', since, calls, grace)
  {
    hide Settled, SawNotGreen, OnlyAppends, NoneRaised, Running, EmptySince, WaitedInVain, AppendCount;
    forall p: nat | p < |calls| ensures Cleared(calls, p, row') { assert Cleared(calls, p, row); }
  }

  lemma {:induction false} ResolveKeeps(was: Row, row: Row, since: Option<real>, grace: real, obs: Observation,
      calls: seq<Call>)
    requires Sound(was, row, since, calls, grace) && NoneRaised(calls) && !Terminal(row.state)
    ensures var s := ResolveAndJudge(row, since, grace, obs, calls);
      Sound(was, s.row, s.since, s.calls, grace) && (s.crashed <==> !NoneRaised(s.calls))
  {
    hide Sound, NoneRaised, Judge;
    if row.headSha.Some? {
      JudgeKeeps(was, row, row.headSha.value, since, grace, obs, calls);
    } else if row.prNumber.None? {
      WriteKeeps(was, row, row.(state := HeadShaUnresolved), since, calls, grace);
    } else {
      var head := obs.head(row.prNumber.value);
      var fetch := FetchHead(row.prNumber.value, head);
      if head.Raised? {
        OtherCallKeeps(was, row, row, since, calls, fetch, grace);
      } else if head.value.None? {
        OtherCallKeeps(was, row, row.(state := HeadShaUnresolved), since, calls, fetch, grace);
      } else {
        OtherCallKeeps(was, row, row.(headSha := head.value), since, calls, fetch, grace);
        JudgeKeeps(was, row.(headSha := head.value), head.value.value, since, grace, obs, calls + [fetch]);
      }
    }
  }

  // The requests of a step do not depend on the requests before it.

  lemma {:induction false} Assoc(calls: seq<Call>, more: seq<Call>, c: Call)
    ensures calls + more + [c] == calls + (more + [c])
  {
  }

  lemma {:induction false} JudgeExtends(row: Row, sha: string, since: Option<real>, grace: real, obs: Observation,
      calls: seq<Call>, more: seq<Call>)
    ensures var s := Judge(row, sha, since, grace, obs, more);
      Judge(row, sha, since, grace, obs, calls + more) == s.(calls := calls + s.calls)
  {
    hide Green, AnyFailed;
    var look := FetchChecks(sha, obs.checks(sha), obs.at);
    Assoc(calls, more, look);
    if row.prNumber.Some? {
      Assoc(calls, more + [look], MergePr(row.prNumber.value, sha, row.auth, obs.merge(row.prNumber.value, sha)));
    }
  }

  lemma {:induction false} StepExtends(row: Row, since: Option<real>, grace: real, obs: Observation,
      calls: seq<Call>, more: seq<Call>)
    ensures var s := ResolveAndJudge(row, since, grace, obs, more);
      ResolveAndJudge(row, since, grace, obs, calls + more) == s.(calls := calls + s.calls)
  {
    hide Judge;
    if row.headSha.Some? {
      JudgeExtends(row, row.headSha.value, since, grace, obs, calls, more);
    } else if row.prNumber.Some? {
      var head := obs.head(row.prNumber.value);
      var fetch := FetchHead(row.prNumber.value, head);
      Assoc(calls, more, fetch);
      if head.Got? && head.value.Some? {
        JudgeExtends(row.(headSha := head.value), head.value.value, since, grace, obs, calls, more + [fetch]);
      }
    }
  }

  lemma {:induction false} ProcessKeeps(was: Row, row: Row, since: Option<real>, grace: real, obs: Observation,
      calls: seq<Call>)
    requires Sound(was, row, since, calls, grace) && NoneRaised(calls)
    ensures var s := Process(row, since, grace, obs);
      Sound(was, s.row, s.since, calls + s.calls, grace) && (s.crashed <==> !NoneRaised(calls + s.calls))
  {
    hide Sound, NoneRaised, ResolveAndJudge;
    var announce := row.auth.Some? && !row.appended;
    var opening := AnnounceCalls(row);
    var marked := if announce then row.(appended := true) else row;
    if opening != [] {
      OtherCallKeeps(was, row, marked, since, calls, opening[0], grace);
    } else {
      WriteKeeps(was, row, marked, since, calls, grace);
      assert calls + opening == calls;
    }
    if !Terminal(row.state) {
      ResolveKeeps(was, marked, since, grace, obs, calls + opening);
      StepExtends(marked, since, grace, obs, calls, opening);
    }
  }

  // ---- The whole task ----

  /** The requests made for one row, in order. */
  function CallsOf(history: seq<Event>, i: nat): seq<Call> {
    if history == [] then []
    else
      var last := history[|history| - 1];
      CallsOf(history[..|history| - 1], i) + (if last.row == i then [last.call] else [])
  }

  ghost predicate Quiet(history: seq<Event>) {
    forall e | e in history :: !Raises(e.call)
  }

  /** Every merge request comes right after a look that clears it, with nothing in between for any row. */
  predicate FollowsLook(history: seq<Event>, p: nat)
    requires p < |history|
  {
    history[p].call.MergePr? ==>
      p > 0 && history[p - 1].row == history[p].row && Clears(history[p - 1].call, history[p].call)
  }

  ghost predicate MergesFollowLooks(history: seq<Event>) {
    forall p: nat | p < |history| :: FollowsLook(history, p)
  }

  ghost predicate RowSound(seeded: seq<Row>, t: Task, grace: real, i: nat)
    requires i < |seeded| == |t.rows|
  {
    Sound(seeded[i], t.rows[i], SinceOf(t.since, i), CallsOf(t.history, i), grace)
  }

  ghost predicate TaskSound(seeded: seq<Row>, t: Task, grace: real) {
    && |t.rows| == |seeded|
    && (forall i: nat | i < |seeded| :: RowSound(seeded, t, grace, i))
    && MergesFollowLooks(t.history)
    && forall e | e in t.history :: e.row < |seeded|
  }

  lemma {:induction false} CallsOfStep(history: seq<Event>, i: nat, calls: seq<Call>, j: nat)
    ensures CallsOf(history + Tag(i, calls), j) == CallsOf(history, j) + (if i == j then calls else [])
  {
    if calls == [] {
      assert history + Tag(i, calls) == history;
      assert CallsOf(history, j) + [] == CallsOf(history, j);
    } else {
      var init, last := calls[..|calls| - 1], calls[|calls| - 1];
      assert calls == init + [last];
      CallsOfStep(history, i, init, j);
      var whole := history + Tag(i, calls);
      assert whole[..|whole| - 1] == history + Tag(i, init);
      assert whole[|whole| - 1] == Event(i, last);
      if i == j {
        Assoc(CallsOf(history, j), init, last);
      } else {
        assert CallsOf(whole, j) == CallsOf(history, j) + [] + [];
      }
    }
  }

  lemma {:induction false} CallsOfHas(history: seq<Event>, i: nat, c: Call)
    ensures c in CallsOf(history, i) <==> Event(i, c) in history
  {
    if history != [] {
      var init, last := history[..|history| - 1], history[|history| - 1];
      assert history == init + [last];
      CallsOfHas(init, i, c);
      assert last == Event(last.row, last.call);
    }
  }

  lemma {:induction false} QuietRows(history: seq<Event>, i: nat)
    requires Quiet(history)
    ensures NoneRaised(CallsOf(history, i))
  {
    forall c | c in CallsOf(history, i) ensures !Raises(c) { CallsOfHas(history, i, c); }
  }

  /** A step never opens with a merge request. */
  lemma {:induction false} JudgeOpens(row: Row, sha: string, since: Option<real>, grace: real, obs: Observation,
      calls: seq<Call>)
    requires calls == [] || !calls[0].MergePr?
    ensures var made := Judge(row, sha, since, grace, obs, calls).calls; made != [] && !made[0].MergePr?
  {
    hide Green, AnyFailed;
  }

  lemma {:induction false} StepOpens(row: Row, since: Option<real>, grace: real, obs: Observation)
    ensures var made := Process(row, since, grace, obs).calls; made == [] || !made[0].MergePr?
  {
    hide Judge;
    var announce := row.auth.Some? && !row.appended;
    var opening := AnnounceCalls(row);
    var marked := if announce then row.(appended := true) else row;
    if row.headSha.Some? {
      JudgeOpens(marked, row.headSha.value, since, grace, obs, opening);
    } else if row.prNumber.Some? {
      var head := obs.head(row.prNumber.value);
      var fetched := opening + [FetchHead(row.prNumber.value, head)];
      if head.Got? && head.value.Some? {
        JudgeOpens(marked.(headSha := head.value), head.value.value, since, grace, obs, fetched);
      }
    }
  }

  /** A step's requests, cleared after those made for the row before, keep the whole history cleared. */
  lemma {:induction false} HistoryGrows(history: seq<Event>, i: nat, calls: seq<Call>, row: Row)
    requires MergesFollowLooks(history) && Quiet(history)
    requires MergesCleared(CallsOf(history, i) + calls, row) && (calls == [] || !calls[0].MergePr?)
    ensures MergesFollowLooks(history + Tag(i, calls))
    ensures Quiet(history + Tag(i, calls)) <==> NoneRaised(CallsOf(history, i) + calls)
  {
    hide CallsOf;
    QuietRows(history, i);
    var mine := CallsOf(history, i);
    var whole := history + Tag(i, calls);
    forall p: nat | p < |whole| ensures FollowsLook(whole, p) {
      if p < |history| {
        assert FollowsLook(history, p);
      } else if whole[p].call.MergePr? {
        var q := |mine| + (p - |history|);
        assert Cleared(mine + calls, q, row) && (mine + calls)[q] == whole[p].call;
      }
    }
    if Quiet(whole) {
      forall c | c in calls ensures !Raises(c) {
        var p: nat :| p < |calls| && calls[p] == c;
        assert whole[|history| + p] == Event(i, c);
      }
    }
    if NoneRaised(mine + calls) {
      forall e | e in whole ensures !Raises(e.call) {
        var p: nat :| p < |whole| && whole[p] == e;
        if p >= |history| { assert (mine + calls)[|mine| + (p - |history|)] == e.call; }
      }
    }
  }

  lemma {:induction false} SoundIsCleared(was: Row, row: Row, since: Option<real>, calls: seq<Call>, grace: real)
    requires Sound(was, row, since, calls, grace)
    ensures MergesCleared(calls, row)
  {
  }

  lemma {:induction false} ApplyKeeps(seeded: seq<Row>, t: Task, i: nat, grace: real, obs: Observation)
    requires TaskSound(seeded, t, grace) && Quiet(t.history) && i < |t.rows|
    ensures var s := StepAt(t, i, grace, obs);
      TaskSound(seeded, Apply(t, i, s), grace) && (s.crashed <==> !Quiet(Apply(t, i, s).history))
  {
    hide Process, Sound, NoneRaised, MergesFollowLooks, CallsOf, Quiet;
    var s := StepAt(t, i, grace, obs);
    var t' := Apply(t, i, s);
    assert RowSound(seeded, t, grace, i);
    QuietRows(t.history, i);
    ProcessKeeps(seeded[i], t.rows[i], SinceOf(t.since, i), grace, obs, CallsOf(t.history, i));
    StepOpens(t.rows[i], SinceOf(t.since, i), grace, obs);
    SoundIsCleared(seeded[i], s.row, s.since, CallsOf(t.history, i) + s.calls, grace);
    HistoryGrows(t.history, i, s.calls, s.row);
    forall j: nat | j < |seeded| ensures RowSound(seeded, t', grace, j) {
      CallsOfStep(t.history, i, s.calls, j);
      assert RowSound(seeded, t, grace, j);
      if j != i { assert CallsOf(t.history, j) + [] == CallsOf(t.history, j); }
    }
    forall e | e in t'.history ensures e.row < |seeded| {
      assert e in t.history || e in Tag(i, s.calls);
    }
  }

  lemma {:induction false} PassKeeps(seeded: seq<Row>, t: Task, active: seq<nat>, grace: real, obs: nat -> Observation)
    requires TaskSound(seeded, t, grace) && Quiet(t.history)
    requires forall i | i in active :: i < |t.rows|
    ensures var (t', crashed) := ProcessAll(t, active, grace, obs);
      TaskSound(seeded, t', grace) && (crashed <==> !Quiet(t'.history))
    decreases |active|
  {
    hide TaskSound, Quiet, StepAt;
    if active != [] {
      var i := active[0];
      assert i in active && forall j | j in active[1..] :: j in active;
      ApplyKeeps(seeded, t, i, grace, obs(i));
      var s := StepAt(t, i, grace, obs(i));
      if !s.crashed { PassKeeps(seeded, Apply(t, i, s), active[1..], grace, obs); }
    }
  }

  lemma {:induction false} EndKeeps(seeded: seq<Row>, t: Task, grace: real, state: CandidateState)
    requires TaskSound(seeded, t, grace) && state in {Killed, TimedOut}
    ensures TaskSound(seeded, Finalize(t.(rows := EndAll(t.rows, state))), grace)
  {
    hide Sound, MergesFollowLooks;
    var t' := Finalize(t.(rows := EndAll(t.rows, state)));
    forall i: nat | i < |seeded| ensures RowSound(seeded, t', grace, i) {
      assert RowSound(seeded, t, grace, i);
      WriteKeeps(seeded[i], t.rows[i], t'.rows[i], SinceOf(t.since, i), CallsOf(t.history, i), grace);
    }
  }

  lemma {:induction false} FinalizeKeeps(seeded: seq<Row>, t: Task, grace: real)
    requires TaskSound(seeded, t, grace)
    ensures TaskSound(seeded, Finalize(t), grace)
  {
    hide Sound, MergesFollowLooks;
    forall i: nat | i < |seeded| ensures RowSound(seeded, Finalize(t), grace, i) {
      assert RowSound(seeded, t, grace, i);
    }
  }

  lemma {:induction false} PollKeeps(seeded: seq<Row>, cfg: Config, start: real, t: Task, p: Poll)
    requires TaskSound(seeded, t, cfg.grace) && Quiet(t.history)
    requires forall i | i in p.order :: i < |t.rows|
    ensures var (t', outcome) := PollOnce(cfg, start, t, p);
      TaskSound(seeded, t', cfg.grace) && (outcome == Crashed <==> !Quiet(t'.history))
  {
    hide TaskSound, Quiet, ProcessAll;
    EndKeeps(seeded, t, cfg.grace, Killed);
    EndKeeps(seeded, t, cfg.grace, TimedOut);
    FinalizeKeeps(seeded, t, cfg.grace);
    PassKeeps(seeded, t, Active(t.rows, p.order), cfg.grace, p.obs);
  }

  lemma {:induction false} RunKeeps(seeded: seq<Row>, cfg: Config, start: real, env: Environment, t: Task, k: nat)
    requires cfg.pollInterval > 0.0 && OrdersRows(env, |t.rows|)
    requires TaskSound(seeded, t, cfg.grace) && Quiet(t.history)
    ensures var (t', outcome, _) := RunFrom(cfg, start, env, t, k);
      TaskSound(seeded, t', cfg.grace) && (outcome == Crashed <==> !Quiet(t'.history))
    decreases Horizon(cfg) - k
  {
    hide TaskSound, Quiet, PollOnce, Horizon;
    assert Lists(env(k).order, |t.rows|);
    PollKeeps(seeded, cfg, start, t, env(k));
    var (t', outcome) := PollOnce(cfg, start, t, env(k));
    if outcome == Continue && k < Horizon(cfg) { RunKeeps(seeded, cfg, start, env, t', k + 1); }
  }

  function Start(seeded: seq<Row>): Task {
    Task(seeded, map[], false, [])
  }

  /** `run_action_merge_task` on freshly seeded rows. */
  ghost function RunTask(cfg: Config, start: real, env: Environment, seeded: seq<Row>): (r: (Task, Outcome, nat))
    requires cfg.pollInterval > 0.0 && OrdersRows(env, |seeded|)
    ensures |r.0.rows| == |seeded|
  {
    RunFrom(cfg, start, env, Start(seeded), 0)
  }

  lemma {:induction false} RunIsSound(seeded: seq<Row>, cfg: Config, start: real, env: Environment)
    requires cfg.pollInterval > 0.0 && OrdersRows(env, |seeded|)
    ensures var (t, outcome, _) := RunTask(cfg, start, env, seeded);
      TaskSound(seeded, t, cfg.grace) && (outcome == Crashed <==> !Quiet(t.history))
  {
    forall i: nat | i < |seeded| ensures RowSound(seeded, Start(seeded), cfg.grace, i) {}
    RunKeeps(seeded, cfg, start, env, Start(seeded), 0);
  }
}

/** The hourly limit on scans of one address and the limit per wizard session (arguss/web/scan_rate_limit.py). */
module ScanRateLimit {
  import opened Basics
  import opened SlidingWindow

  const IP_WINDOW_SECONDS: nat := 3600

  datatype Scope = IpScope | SessionScope

  datatype Denial = Denial(scope: Scope, retryAfterSeconds: int)

  function CountOf(counts: map<string, int>, session: string): int {
    if session in counts then counts[session] else 0
  }

  ghost predicate Counts(counts: map<string, int>, log: seq<Accepted>) {
    forall session :: CountOf(counts, session) == UsesOf(log, session)
  }

  function CountedOnce(counts: map<string, int>, session: Option<string>): map<string, int> {
    if session.Some? then counts[session.value := CountOf(counts, session.value) + 1] else counts
  }

  lemma {:induction false} CountsRecorded(counts: map<string, int>, log: seq<Accepted>, a: Accepted)
    requires Counts(counts, log)
    ensures Counts(CountedOnce(counts, a.session), log + [a])
  {
    forall session ensures CountOf(CountedOnce(counts, a.session), session) == UsesOf(log + [a], session) {
      UsesGrow(log, a, session);
      assert CountOf(counts, session) == UsesOf(log, session);
    }
  }

  // ---- One call ----

  datatype State = State(events: Deques, counts: map<string, int>)

  /** A session that has used up its scans, or may have none. */
  predicate Exhausted(uses: int, session: Option<string>, sessionLimit: int) {
    session.Some? && (sessionLimit <= 0 || uses >= sessionLimit)
  }

  /** What one call makes of both counters, and its answer: the address is asked first, then the session. */
  function Checked(s: State, ip: string, session: Option<string>, ipLimit: int, sessionLimit: int,
      now: real): (State, Option<Denial>) {
    var kept := DropExpired(EventsOf(s.events, ip), now - IP_WINDOW_SECONDS as real);
    var uses := if session.Some? then CountOf(s.counts, session.value) else 0;
    if ipLimit <= 0 then (s, Some(Denial(IpScope, IP_WINDOW_SECONDS)))
    else if |kept| >= ipLimit then
      (s.(events := s.events[ip := kept]), Some(Denial(IpScope, RetryAfter(kept[0], IP_WINDOW_SECONDS, now))))
    else if Exhausted(uses, session, sessionLimit) then
      (s.(events := s.events[ip := kept]), Some(Denial(SessionScope, IP_WINDOW_SECONDS)))
    else (State(s.events[ip := kept + [now]], CountedOnce(s.counts, session)), None)
  }

  function Logged(log: seq<Accepted>, ip: string, session: Option<string>, now: real,
      denial: Option<Denial>): seq<Accepted>
  {
    if denial.None? then log + [Accepted(ip, session, now)] else log
  }

  /** Without eviction nothing inside the window is forgotten. */
  function ScanTerms(skew: real): Terms {
    Terms(IP_WINDOW_SECONDS, skew, 0.0)
  }

  /** The address limiter's part of an answer; a session denial means the address would have been let through. */
  function IpDenial(denial: Option<Denial>): Option<int> {
    if denial.Some? && denial.value.scope == IpScope then Some(denial.value.retryAfterSeconds) else None
  }

  function UsesBy(log: seq<Accepted>, session: Option<string>): nat {
    if session.Some? then UsesOf(log, session.value) else 0
  }

  ghost predicate Stands(s: State, log: seq<Accepted>, skew: real, clock: real) {
    Refines(s.events, log, ScanTerms(skew), clock) && Counts(s.counts, log)
  }

  /** No session was let through beyond its limit. */
  ghost predicate SessionsWithin(log: seq<Accepted>, sessionLimit: int) {
    forall session :: UsesOf(log, session) <= AtLeastZero(sessionLimit)
  }

  /**
   A call at most `skew` late decides as limiters that remember everything would, exactly so when no call is
   late; one log entry stands for both counters, so an allowed scan moves both and a denied one neither.
   */
  lemma {:induction false} CheckedIsSound(s: State, log: seq<Accepted>, skew: real, clock: real, ip: string,
      session: Option<string>, ipLimit: int, sessionLimit: int, now: real)
    requires Stands(s, log, skew, clock) && clock <= now + skew
    ensures var (s', denial) := Checked(s, ip, session, ipLimit, sessionLimit, now);
      var log' := Logged(log, ip, session, now, denial);
      && Stands(s', log', skew, Later(clock, now))
      && DecidesLike(IpDenial(denial), TimesOf(log, ip), ipLimit, ScanTerms(skew), now)
      && (IpDenial(denial).None? ==>
            (denial.Some? <==> session.Some? && (sessionLimit <= 0 || UsesOf(log, session.value) >= sessionLimit)))
      && (denial.Some? && denial.value.scope == SessionScope ==> denial.value.retryAfterSeconds == 3600)
      && (ipLimit <= 0 ==> denial == Some(Denial(IpScope, 3600)))
      && (Lawful(log, ipLimit, SureSpan(ScanTerms(skew))) ==> Lawful(log', ipLimit, SureSpan(ScanTerms(skew))))
      && (SessionsWithin(log, sessionLimit) ==> SessionsWithin(log', sessionLimit))
  {
    hide Refines, RetryAfter, TimesOf, DropExpired, UsesOf, Lawful, SessionsWithin, CountedOnce;
    var latest := Later(clock, now);
    TermsAreSound(s.events, log, ScanTerms(skew), clock);
    RefinesLater(s.events, log, ScanTerms(skew), clock, latest);
    if session.Some? { assert CountOf(s.counts, session.value) == UsesOf(log, session.value); }
    if ipLimit > 0 {
      PrunedDecides(s.events, log, ScanTerms(skew), latest, ip, ipLimit, now);
      var kept := DropExpired(EventsOf(s.events, ip), now - IP_WINDOW_SECONDS as real);
      if |kept| < ipLimit && !Exhausted(UsesBy(log, session), session, sessionLimit) {
        var a := Accepted(ip, session, now);
        AllowedIsRecorded(s.events, kept, log, ScanTerms(skew), latest, ipLimit, a);
        CountsRecorded(s.counts, log, a);
        SessionsGrow(log, a, sessionLimit);
      }
    }
  }

  lemma {:induction false} SessionsGrow(log: seq<Accepted>, a: Accepted, sessionLimit: int)
    requires !Exhausted(UsesBy(log, a.session), a.session, sessionLimit)
    ensures SessionsWithin(log, sessionLimit) ==> SessionsWithin(log + [a], sessionLimit)
  {
    hide UsesOf;
    forall session | SessionsWithin(log, sessionLimit) ensures UsesOf(log + [a], session) <= AtLeastZero(sessionLimit) {
      UsesGrow(log, a, session);
      assert UsesOf(log, session) <= AtLeastZero(sessionLimit);
    }
  }

  class ScanRateLimitState {
    var ipEvents: Deques
    var sessionCounts: map<string, int>
    ghost const skew: real
    ghost var log: seq<Accepted>
    ghost var clock: real

    ghost predicate Valid()
      reads this
    {
      Stands(State(ipEvents, sessionCounts), log, skew, clock)
    }

    /** `lateness` bounds how late a call of this state's run is; every finite run has such a bound. */
    constructor (start: real, ghost lateness: real)
      requires lateness >= 0.0
      ensures Valid() && log == [] && clock == start && skew == lateness
    {
      ipEvents, sessionCounts, skew, log, clock := map[], map[], lateness, [], start;
    }

    /** `setdefault` and the pruning loop. */
    method PruneAddress(ip: string, cutoff: real) returns (events: seq<real>)
      modifies this`ipEvents
      ensures events == DropExpired(EventsOf(old(ipEvents), ip), cutoff)
      ensures ipEvents == old(ipEvents)[ip := events]
    {
      if ip !in ipEvents { ipEvents := ipEvents[ip := []]; }
      events := Prune(ipEvents[ip], cutoff);
      ipEvents := ipEvents[ip := events];
    }

    /**
     `check_and_count`: both counters and the answer for any time of call; for calls at most `skew` late, the
     decisions of limiters that remember everything.
     */
    method CheckAndCount(ip: string, session: Option<string>, ipLimit: int, sessionLimit: int, now: real)
      returns (denial: Option<Denial>)
      requires Valid() && clock <= now + skew
      modifies this
      ensures Valid() && clock == Later(old(clock), now)
      ensures (State(ipEvents, sessionCounts), denial)
        == Checked(old(State(ipEvents, sessionCounts)), ip, session, ipLimit, sessionLimit, now)
      ensures log == Logged(old(log), ip, session, now, denial)
      ensures DecidesLike(IpDenial(denial), TimesOf(old(log), ip), ipLimit, ScanTerms(skew), now)
      ensures IpDenial(denial).None? ==>
          (denial.Some? <==> session.Some? && (sessionLimit <= 0 || UsesOf(old(log), session.value) >= sessionLimit))
      ensures denial.Some? && denial.value.scope == SessionScope ==> denial.value.retryAfterSeconds == 3600
      ensures Lawful(old(log), ipLimit, SureSpan(ScanTerms(skew))) ==> Lawful(log, ipLimit, SureSpan(ScanTerms(skew)))
      ensures SessionsWithin(old(log), sessionLimit) ==> SessionsWithin(log, sessionLimit)
    {
      hide Stands, DropExpired, DecidesLike, Lawful, SessionsWithin, RetryAfter, TimesOf, UsesBy, CountOf, IpDenial;
      CheckedIsSound(State(ipEvents, sessionCounts), log, skew, clock, ip, session, ipLimit, sessionLimit, now);
      clock := Later(clock, now);
      if ipLimit <= 0 { return Some(Denial(IpScope, IP_WINDOW_SECONDS)); }
      ghost var was := ipEvents;
      var events := PruneAddress(ip, now - IP_WINDOW_SECONDS as real);
      if |events| >= ipLimit { return Some(Denial(IpScope, RetryAfter(events[0], IP_WINDOW_SECONDS, now))); }
      if session.Some? && (sessionLimit <= 0 || CountOf(sessionCounts, session.value) >= sessionLimit) {
        return Some(Denial(SessionScope, IP_WINDOW_SECONDS));
      }
      ipEvents := ipEvents[ip := events + [now]];
      assert ipEvents == was[ip := events + [now]];
      if session.Some? { sessionCounts := sessionCounts[session.value := CountOf(sessionCounts, session.value) + 1]; }
      log := log + [Accepted(ip, session, now)];
      denial := None;
    }
  }

  // ---- Whole runs ----

  /** The state and the log after serving `requests`, in this order, under fixed limits. */
  function Served(requests: seq<Request>, ipLimit: int, sessionLimit: int): (r: (State, seq<Accepted>)) {
    if requests == [] then (State(map[], map[]), [])
    else
      var (s, log) := Served(requests[..|requests| - 1], ipLimit, sessionLimit);
      var r := requests[|requests| - 1];
      var (s', denial) := Checked(s, r.ip, r.session, ipLimit, sessionLimit, r.now);
      (s', Logged(log, r.ip, r.session, r.now, denial))
  }

  /**
   Over any run whose calls are at most `skew` late, no window of an hour less the skew holds more scans of
   an address than its limit, and no session is let through more often than its own.
   */
  lemma {:induction false} BothLimitsHold(requests: seq<Request>, ipLimit: int, sessionLimit: int, skew: real,
      ip: string, session: string)
    requires AtMostLate(requests, skew)
    ensures var log := Served(requests, ipLimit, sessionLimit).1;
      && AtMostPerWindow(TimesOf(log, ip), ipLimit, 3600.0 - skew)
      && UsesOf(log, session) <= if sessionLimit > 0 then sessionLimit else 0
  {
    hide AtMostPerWindow, Checked;
    ServedStands(requests, ipLimit, sessionLimit, skew);
    LawfulKeepsWindows(Served(requests, ipLimit, sessionLimit).1, ipLimit, SureSpan(ScanTerms(skew)), ip);
  }

  lemma {:induction false} ServedStands(requests: seq<Request>, ipLimit: int, sessionLimit: int, skew: real)
    requires AtMostLate(requests, skew)
    ensures var (s, log) := Served(requests, ipLimit, sessionLimit);
      && Stands(s, log, skew, Latest(requests))
      && Lawful(log, ipLimit, SureSpan(ScanTerms(skew))) && SessionsWithin(log, sessionLimit)
  {
    hide Checked, Lawful, Stands, SessionsWithin;
    if |requests| == 0 {
      NothingServed(ipLimit, sessionLimit, skew, Latest(requests));
    } else {
      var init, r := requests[..|requests| - 1], requests[|requests| - 1];
      ServedStands(init, ipLimit, sessionLimit, skew);
      var (s, log) := Served(init, ipLimit, sessionLimit);
      if |requests| == 1 {
        StandsBefore(s, skew, Latest(init), r.now);
        CheckedIsSound(s, log, skew, r.now, r.ip, r.session, ipLimit, sessionLimit, r.now);
      } else {
        CheckedIsSound(s, log, skew, Latest(init), r.ip, r.session, ipLimit, sessionLimit, r.now);
      }
    }
  }

  lemma {:induction false} NothingServed(ipLimit: int, sessionLimit: int, skew: real, clock: real)
    requires skew >= 0.0
    ensures Stands(State(map[], map[]), [], skew, clock)
    ensures Lawful([], ipLimit, SureSpan(ScanTerms(skew))) && SessionsWithin([], sessionLimit)
  {
  }

  /** With nothing served the clock may read anything. */
  lemma {:induction false} StandsBefore(s: State, skew: real, clock: real, other: real)
    requires Stands(s, [], skew, clock) && s == State(map[], map[])
    ensures Stands(s, [], skew, other)
  {
    TermsAreSound(s.events, [], ScanTerms(skew), clock);
    NothingServed(0, 0, skew, other);
  }

  // ---- What the advised wait is worth ----

  /** What one more scan leaves behind for the address `k`. */
  lemma {:induction false} ServedOnce(requests: seq<Request>, ipLimit: int, sessionLimit: int, r: Request, k: string)
    requires ipLimit > 0
    ensures var (s, log) := Served(requests, ipLimit, sessionLimit);
      var (s', log') := Served(requests + [r], ipLimit, sessionLimit);
      var denial := Checked(s, r.ip, r.session, ipLimit, sessionLimit, r.now).1;
      var kept := DropExpired(EventsOf(s.events, k), r.now - IP_WINDOW_SECONDS as real);
      && (r.ip == k && |kept| >= ipLimit ==>
            denial == Some(Denial(IpScope, RetryAfter(kept[0], IP_WINDOW_SECONDS, r.now))))
      && (r.ip == k && |kept| < ipLimit ==> IpDenial(denial).None? && (r.session.None? ==> denial.None?))
      && EventsOf(s'.events, k) ==
           (if r.ip != k then EventsOf(s.events, k) else if denial.Some? then kept else kept + [r.now])
      && TimesOf(log', k) == TimesOf(log, k) + (if r.ip == k && denial.None? then [r.now] else [])
  {
    hide DropExpired, TimesOf, RetryAfter;
    assert (requests + [r])[..|requests|] == requests;
    LogGrows(Served(requests, ipLimit, sessionLimit).1, Accepted(r.ip, r.session, r.now), k);
  }

  lemma {:induction false} DequesFit(requests: seq<Request>, ipLimit: int, sessionLimit: int, k: string)
    requires ipLimit > 0
    ensures |EventsOf(Served(requests, ipLimit, sessionLimit).0.events, k)| <= ipLimit
  {
    hide DropExpired, TimesOf, Checked, RetryAfter;
    if requests != [] {
      var init, r := requests[..|requests| - 1], requests[|requests| - 1];
      assert requests == init + [r];
      DequesFit(init, ipLimit, sessionLimit, k);
      ServedOnce(init, ipLimit, sessionLimit, r, k);
      var events := EventsOf(Served(init, ipLimit, sessionLimit).0.events, k);
      DroppedIsSuffix(events, events, r.now - IP_WINDOW_SECONDS as real);
    }
  }

  /** While no scan of an address is let through its deque only loses times from the front. */
  lemma {:induction false} DequeShrinks(requests: seq<Request>, more: seq<Request>, ipLimit: int, sessionLimit: int,
      k: string)
    requires ipLimit > 0
    ensures var (s, log) := Served(requests, ipLimit, sessionLimit);
      var (s', log') := Served(requests + more, ipLimit, sessionLimit);
      && |TimesOf(log', k)| >= |TimesOf(log, k)|
      && (TimesOf(log', k) == TimesOf(log, k) ==> IsSuffix(EventsOf(s'.events, k), EventsOf(s.events, k)))
  {
    hide DropExpired, TimesOf, Served, Checked, RetryAfter;
    if more == [] {
      assert requests + more == requests;
    } else {
      var init, r := more[..|more| - 1], more[|more| - 1];
      assert requests + more == (requests + init) + [r];
      DequeShrinks(requests, init, ipLimit, sessionLimit, k);
      ServedOnce(requests + init, ipLimit, sessionLimit, r, k);
      var was := EventsOf(Served(requests, ipLimit, sessionLimit).0.events, k);
      var events := EventsOf(Served(requests + init, ipLimit, sessionLimit).0.events, k);
      if IsSuffix(events, was) { DroppedIsSuffix(events, was, r.now - IP_WINDOW_SECONDS as real); }
    }
  }

  /** No scan of this address is let through by `more`. */
  ghost predicate NoneLetThrough(requests: seq<Request>, more: seq<Request>, ipLimit: int, sessionLimit: int,
      ip: string) {
    TimesOf(Served(requests + more, ipLimit, sessionLimit).1, ip)
      == TimesOf(Served(requests, ipLimit, sessionLimit).1, ip)
  }

  /** The answer to a scan after these. */
  function Answer(requests: seq<Request>, ipLimit: int, sessionLimit: int, r: Request): Option<Denial> {
    Checked(Served(requests, ipLimit, sessionLimit).0, r.ip, r.session, ipLimit, sessionLimit, r.now).1
  }

  /**
   A client denied for its address that waits as long as it was told is not denied for its address again, if no
   scan of the address was let through meanwhile, exactly when that limit is positive. What a session has used
   up no waiting brings back.
   */
  lemma {:induction false} WaitIsEnough(requests: seq<Request>, more: seq<Request>, ipLimit: int, sessionLimit: int,
      r: Request, again: Request)
    requires r.ip == again.ip && IpDenial(Answer(requests, ipLimit, sessionLimit, r)).Some?
    requires NoneLetThrough(requests + [r], more, ipLimit, sessionLimit, r.ip)
    requires again.now >= r.now + IpDenial(Answer(requests, ipLimit, sessionLimit, r)).value as real
    ensures IpDenial(Answer(requests + [r] + more, ipLimit, sessionLimit, again)).None? <==> ipLimit > 0
  {
    hide DropExpired, RetryAfter, Served, TimesOf;
    if ipLimit > 0 {
      var kept := DropExpired(EventsOf(Served(requests, ipLimit, sessionLimit).0.events, r.ip),
          r.now - IP_WINDOW_SECONDS as real);
      DequesFit(requests + [r], ipLimit, sessionLimit, r.ip);
      ServedOnce(requests, ipLimit, sessionLimit, r, r.ip);
      DequeShrinks(requests + [r], more, ipLimit, sessionLimit, r.ip);
      ServedOnce(requests + [r] + more, ipLimit, sessionLimit, again, r.ip);
      var after := EventsOf(Served(requests + [r] + more, ipLimit, sessionLimit).0.events, r.ip);
      WaitClearsOne(kept, after, ipLimit, IP_WINDOW_SECONDS, r.now, again.now);
    }
  }

  /** A session denied for itself is never let through again, though it too is told to wait an hour. */
  lemma {:induction false} SessionStaysExhausted(requests: seq<Request>, more: seq<Request>, ipLimit: int,
      sessionLimit: int, r: Request, again: Request)
    requires Answer(requests, ipLimit, sessionLimit, r).Some? && r.session == again.session
    requires Answer(requests, ipLimit, sessionLimit, r).value.scope == SessionScope
    ensures Answer(requests + [r] + more, ipLimit, sessionLimit, again).Some?
  {
    hide Served, DropExpired, RetryAfter, CountedOnce;
    SessionCountsGrow(requests, [r] + more, ipLimit, sessionLimit, r.session.value);
    assert requests + ([r] + more) == requests + [r] + more;
  }

  lemma {:induction false} SessionCountsGrow(requests: seq<Request>, more: seq<Request>, ipLimit: int,
      sessionLimit: int, session: string)
    ensures CountOf(Served(requests + more, ipLimit, sessionLimit).0.counts, session)
      >= CountOf(Served(requests, ipLimit, sessionLimit).0.counts, session)
  {
    hide DropExpired, RetryAfter;
    if more == [] {
      assert requests + more == requests;
    } else {
      var init := more[..|more| - 1];
      assert (requests + more)[..|requests + more| - 1] == requests + init;
      SessionCountsGrow(requests, init, ipLimit, sessionLimit, session);
    }
  }

  // ---- No longer window is certain ----

  /** Two scans, one an hour later, and then one that comes late. */
  function LateRun(d: real): seq<Request> {
    [Request("a", None, 0.0), Request("a", None, 0.0), Request("a", None, 3600.0), Request("a", None, 3600.0 - d)]
  }

  /**
   Scans `d` late break the limit in every window longer than an hour less the lateness: the scan before the
   late one has pruned times that are live for the late one.
   */
  lemma {:induction false} LateScansBreakLimit(d: real, span: real, sessionLimit: int)
    requires 0.0 <= d <= 3600.0 && span > 3600.0 - d
    ensures AtMostLate(LateRun(d), d)
    ensures !AtMostPerWindow(TimesOf(Served(LateRun(d), 2, sessionLimit).1, "a"), 2, span)
  {
    hide Served, TimesOf, AtMostPerWindow;
    LateRunIsLate(d);
    LateRunTimes(d, sessionLimit);
    ThreeInWindow(d, span);
    TooManyWithin([0.0, 0.0, 3600.0, 3600.0 - d], 2, 0.0, span);
  }

  lemma {:induction false} LateRunIsLate(d: real)
    requires 0.0 <= d <= 3600.0
    ensures AtMostLate(LateRun(d), d)
  {
    var run := LateRun(d);
    assert run[..3][..2] == run[..2] && run[..2][..1] == run[..1];
    assert AtMostLate(run[..1], d);
    assert AtMostLate(run[..2], d);
    assert AtMostLate(run[..3], d);
  }

  /** One more scan of "a" with fewer than two kept after pruning. */
  lemma {:induction false} OneMoreOfA(requests: seq<Request>, sessionLimit: int, now: real, kept: seq<real>)
    requires |kept| < 2
    requires var events := EventsOf(Served(requests, 2, sessionLimit).0.events, "a");
      DropExpired(events, now - IP_WINDOW_SECONDS as real) == kept
    ensures var (s, log) := Served(requests + [Request("a", None, now)], 2, sessionLimit);
      && EventsOf(s.events, "a") == kept + [now]
      && TimesOf(log, "a") == TimesOf(Served(requests, 2, sessionLimit).1, "a") + [now]
  {
    hide Served, TimesOf, DropExpired, Checked;
    ServedOnce(requests, 2, sessionLimit, Request("a", None, now), "a");
  }

  lemma {:induction false} LateRunTimes(d: real, sessionLimit: int)
    requires 0.0 <= d <= 3600.0
    ensures TimesOf(Served(LateRun(d), 2, sessionLimit).1, "a") == [0.0, 0.0, 3600.0, 3600.0 - d]
  {
    hide Served, TimesOf, EventsOf, DropExpired;
    var run, t := LateRun(d), 3600.0 - d;
    NobodyServed(2, sessionLimit);
    NothingDropped([], -3600.0);
    OneMoreOfA([], sessionLimit, 0.0, []);
    assert [] + [run[0]] == [run[0]] && [] + [0.0] == [0.0];
    NothingDropped([0.0], -3600.0);
    OneMoreOfA([run[0]], sessionLimit, 0.0, [0.0]);
    assert [run[0]] + [run[1]] == [run[0], run[1]] && [0.0] + [0.0] == [0.0, 0.0];
    BothDropped();
    OneMoreOfA([run[0], run[1]], sessionLimit, 3600.0, []);
    assert [run[0], run[1]] + [run[2]] == [run[0], run[1], run[2]] && [] + [3600.0] == [3600.0];
    NothingDropped([3600.0], t - 3600.0);
    OneMoreOfA([run[0], run[1], run[2]], sessionLimit, t, [3600.0]);
    assert [run[0], run[1], run[2]] + [run[3]] == run;
    assert [0.0, 0.0] + [3600.0] + [t] == [0.0, 0.0, 3600.0, t];
  }

  lemma {:induction false} BothDropped()
    ensures DropExpired([0.0, 0.0], 0.0) == []
  {
    assert [0.0, 0.0][1..] == [0.0] && [0.0][1..] == [];
  }

  lemma {:induction false} NobodyServed(ipLimit: int, sessionLimit: int)
    ensures Served([], ipLimit, sessionLimit) == (State(map[], map[]), [])
    ensures EventsOf(map[], "a") == [] && TimesOf([], "a") == []
  {
  }

  lemma {:induction false} ThreeInWindow(d: real, span: real)
    requires 0.0 <= d <= 3600.0 && span > 3600.0 - d
    ensures |Within([0.0, 0.0, 3600.0, 3600.0 - d], 0.0, span)| >= 3
  {
    var t := 3600.0 - d;
    assert [0.0, 0.0, 3600.0, t][1..] == [0.0, 3600.0, t] && [0.0, 3600.0, t][1..] == [3600.0, t];
    assert [3600.0, t][1..] == [t] && |Within([t], 0.0, span)| == 1;
    assert |Within([3600.0, t], 0.0, span)| >= 1;
    assert |Within([0.0, 3600.0, t], 0.0, span)| >= 2;
  }
}

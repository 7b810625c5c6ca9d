/** The per-minute limit on requests of one address (arguss/web/ip_rate_limit.py). */
module IpRateLimit {
  import opened Basics
  import opened SlidingWindow

  const IP_WINDOW_SECONDS: nat := 60

  /** Eviction looks at the last request only, which may be late itself. */
  function IpTerms(skew: real): Terms {
    Terms(IP_WINDOW_SECONDS, skew, skew)
  }

  predicate Stale(events: seq<real>, cutoff: real) {
    events == [] || events[|events| - 1] <= cutoff
  }

  /** Forgetting an address whose last request has left the window loses nothing, give or take the skew. */
  lemma {:induction false} StaleIsForgettable(times: seq<real>, kept: seq<real>, skew: real, cutoff: real, later: real)
    requires NearlySorted(times, skew) && Keeps(times, kept, later + skew) && Stale(kept, cutoff)
    requires skew >= 0.0 && cutoff <= later
    ensures Keeps(times, [], later + skew)
  {
    forall x | x in times ensures x <= later + skew {
      var i :| 0 <= i < |times| && times[i] == x;
      if i < |times| - |kept| {
        assert x in times[..|times| - |kept|];
      } else if i < |times| - 1 {
        assert times[i] <= times[|times| - 1] + skew;
      }
    }
  }

  lemma {:induction false} RefinesWithoutStale(was: Deques, events: Deques, log: seq<Accepted>, skew: real,
      clock: real, now: real)
    requires Refines(was, log, IpTerms(skew), clock) && now <= clock
    requires forall ip | ip in events :: ip in was && events[ip] == was[ip]
    requires forall ip | ip in was && ip !in events :: Stale(was[ip], now - IP_WINDOW_SECONDS as real)
    ensures Refines(events, log, IpTerms(skew), clock)
  {
    hide Keeps, NearlySorted, AllUpTo, Stale;
    var window := IP_WINDOW_SECONDS as real;
    forall ip ensures DequeRefines(events, log, IpTerms(skew), clock, ip) {
      assert DequeRefines(was, log, IpTerms(skew), clock, ip);
      if ip in was && ip !in events {
        StaleIsForgettable(TimesOf(log, ip), was[ip], skew, now - window, clock - window);
      }
    }
  }

  // ---- One call ----

  function WithoutStale(events: Deques, cutoff: real): Deques {
    map ip | ip in events && !Stale(events[ip], cutoff) :: events[ip]
  }

  lemma {:induction false} StaleIsGone(events: Deques, cutoff: real)
    ensures forall ip | ip in WithoutStale(events, cutoff) :: !Stale(WithoutStale(events, cutoff)[ip], cutoff)
  {
  }

  /** What one call makes of the deques, and its answer. */
  function Checked(events: Deques, ip: string, limit: int, now: real): (Deques, Option<int>) {
    var cutoff := now - IP_WINDOW_SECONDS as real;
    if limit <= 0 then (events, Some(IP_WINDOW_SECONDS))
    else
      var live := WithoutStale(events, cutoff);
      var kept := DropExpired(EventsOf(live, ip), cutoff);
      if |kept| >= limit then (live[ip := kept], Some(RetryAfter(kept[0], IP_WINDOW_SECONDS, now)))
      else (live[ip := kept + [now]], None)
  }

  function Logged(log: seq<Accepted>, ip: string, now: real, denial: Option<int>): seq<Accepted> {
    if denial.None? then log + [Accepted(ip, None, now)] else log
  }

  /**
   A call at most `skew` late decides as a limiter that remembers everything would, exactly so when no call is
   late, and the deques go on standing for the history.
   */
  lemma {:induction false} CheckedIsSound(events: Deques, log: seq<Accepted>, skew: real, clock: real, ip: string,
      limit: int, now: real)
    requires Refines(events, log, IpTerms(skew), clock) && clock <= now + skew
    ensures var (events', denial) := Checked(events, ip, limit, now);
      var log' := Logged(log, ip, now, denial);
      && Refines(events', log', IpTerms(skew), Later(clock, now))
      && DecidesLike(denial, TimesOf(log, ip), limit, IpTerms(skew), now)
      && (limit <= 0 ==> denial == Some(60))
      && (Lawful(log, limit, SureSpan(IpTerms(skew))) ==> Lawful(log', limit, SureSpan(IpTerms(skew))))
  {
    hide Refines, RetryAfter, TimesOf, DropExpired, Stale, Lawful;
    var latest := Later(clock, now);
    TermsAreSound(events, log, IpTerms(skew), clock);
    RefinesLater(events, log, IpTerms(skew), clock, latest);
    if limit > 0 {
      var cutoff := now - IP_WINDOW_SECONDS as real;
      var live := WithoutStale(events, cutoff);
      RefinesWithoutStale(events, live, log, skew, latest, now);
      PrunedDecides(live, log, IpTerms(skew), latest, ip, limit, now);
      var kept := DropExpired(EventsOf(live, ip), cutoff);
      if |kept| < limit {
        AllowedIsRecorded(live, kept, log, IpTerms(skew), latest, limit, Accepted(ip, None, now));
      }
    }
  }

  class IpRateLimitState {
    var ipEvents: Deques
    ghost const skew: real
    ghost var log: seq<Accepted>
    ghost var clock: real

    ghost predicate Valid()
      reads this
    {
      Refines(ipEvents, log, IpTerms(skew), clock)
    }

    /** `lateness` bounds how late a call of this state's run is; every finite run has such a bound. */
    constructor (start: real, ghost lateness: real)
      requires lateness >= 0.0
      ensures Valid() && log == [] && clock == start && skew == lateness
    {
      ipEvents, skew, log, clock := map[], lateness, [], start;
    }

    method DropStale(cutoff: real)
      modifies this`ipEvents
      ensures ipEvents == WithoutStale(old(ipEvents), cutoff)
    {
      var keys := ipEvents.Keys;
      while keys != {}
        invariant keys <= old(ipEvents).Keys
        invariant forall ip :: ip in ipEvents <==>
            ip in old(ipEvents) && (ip in keys || !Stale(old(ipEvents)[ip], cutoff))
        invariant forall ip | ip in ipEvents :: ipEvents[ip] == old(ipEvents)[ip]
        decreases keys
      {
        var key :| key in keys;
        if Stale(ipEvents[key], cutoff) { ipEvents := ipEvents - {key}; }
        keys := keys - {key};
      }
    }

    /**
     `check_and_count`: the deques and the answer for any time of call; for calls at most `skew` late, the
     decision of a limiter that remembers everything, and no other address kept without a live request.
     */
    method CheckAndCount(ip: string, limit: int, now: real) returns (denial: Option<int>)
      requires Valid() && clock <= now + skew
      modifies this
      ensures Valid() && clock == Later(old(clock), now)
      ensures (ipEvents, denial) == Checked(old(ipEvents), ip, limit, now)
      ensures log == Logged(old(log), ip, now, denial)
      ensures DecidesLike(denial, TimesOf(old(log), ip), limit, IpTerms(skew), now)
      ensures Lawful(old(log), limit, SureSpan(IpTerms(skew))) ==> Lawful(log, limit, SureSpan(IpTerms(skew)))
      ensures limit > 0 ==> forall k | k in ipEvents && k != ip :: !Stale(ipEvents[k], now - IP_WINDOW_SECONDS as real)
    {
      hide Refines, DropExpired, DecidesLike, Lawful, WithoutStale, RetryAfter, TimesOf;
      StaleIsGone(ipEvents, now - IP_WINDOW_SECONDS as real);
      CheckedIsSound(ipEvents, log, skew, clock, ip, limit, now);
      clock := Later(clock, now);
      if limit <= 0 { return Some(IP_WINDOW_SECONDS); }
      var cutoff := now - IP_WINDOW_SECONDS as real;
      DropStale(cutoff);
      ghost var live := ipEvents;
      if ip !in ipEvents { ipEvents := ipEvents[ip := []]; }
      var events := Prune(ipEvents[ip], cutoff);
      ipEvents := ipEvents[ip := events];
      assert ipEvents == live[ip := events];
      if |events| >= limit { return Some(RetryAfter(events[0], IP_WINDOW_SECONDS, now)); }
      ipEvents := ipEvents[ip := events + [now]];
      assert ipEvents == live[ip := events + [now]];
      log := log + [Accepted(ip, None, now)];
      denial := None;
    }
  }

  // ---- Whole runs ----

  /** The deques and the log after serving `requests`, in this order, under one limit. */
  function Served(requests: seq<Request>, limit: int): (r: (Deques, seq<Accepted>)) {
    if requests == [] then (map[], [])
    else
      var (events, log) := Served(requests[..|requests| - 1], limit);
      var r := requests[|requests| - 1];
      var (events', denial) := Checked(events, r.ip, limit, r.now);
      (events', Logged(log, r.ip, r.now, denial))
  }

  /**
   Over any run whose calls are at most `skew` late, no window of a minute less twice the skew holds more
   requests of an address than the limit; with no call late, no 60-second window.
   */
  lemma {:induction false} NoWindowOverLimit(requests: seq<Request>, limit: int, skew: real, ip: string)
    requires AtMostLate(requests, skew)
    ensures AtMostPerWindow(TimesOf(Served(requests, limit).1, ip), limit, 60.0 - 2.0 * skew)
  {
    hide AtMostPerWindow, Checked;
    ServedStands(requests, limit, skew);
    LawfulKeepsWindows(Served(requests, limit).1, limit, SureSpan(IpTerms(skew)), ip);
  }

  lemma {:induction false} ServedStands(requests: seq<Request>, limit: int, skew: real)
    requires AtMostLate(requests, skew)
    ensures var (events, log) := Served(requests, limit);
      Refines(events, log, IpTerms(skew), Latest(requests)) && Lawful(log, limit, SureSpan(IpTerms(skew)))
  {
    hide Checked, Lawful, Refines;
    if |requests| == 0 {
      NothingServed(limit, skew, Latest(requests));
    } else {
      var init, r := requests[..|requests| - 1], requests[|requests| - 1];
      ServedStands(init, limit, skew);
      var (events, log) := Served(init, limit);
      var before := if |requests| == 1 then r.now else Latest(init);
      if |requests| == 1 { NothingServed(limit, skew, r.now); }
      CheckedIsSound(events, log, skew, before, r.ip, limit, r.now);
    }
  }

  lemma {:induction false} NothingServed(limit: int, skew: real, clock: real)
    requires skew >= 0.0
    ensures Refines(map[], [], IpTerms(skew), clock) && Lawful([], limit, SureSpan(IpTerms(skew)))
  {
  }

  // ---- What the advised wait is worth ----

  /** What one more request leaves behind for the address `k`. */
  lemma {:induction false} ServedOnce(requests: seq<Request>, limit: int, r: Request, k: string)
    requires limit > 0
    ensures var (events, log) := Served(requests, limit);
      var (events', log') := Served(requests + [r], limit);
      var cutoff := r.now - IP_WINDOW_SECONDS as real;
      var live := if Stale(EventsOf(events, k), cutoff) then [] else EventsOf(events, k);
      var kept := DropExpired(live, cutoff);
      && EventsOf(events', k) == (if r.ip != k then live else if |kept| >= limit then kept else kept + [r.now])
      && TimesOf(log', k) == TimesOf(log, k) + (if r.ip == k && |kept| < limit then [r.now] else [])
  {
    hide DropExpired, TimesOf, RetryAfter, Stale;
    assert (requests + [r])[..|requests|] == requests;
    var (events, log) := Served(requests, limit);
    var cutoff := r.now - IP_WINDOW_SECONDS as real;
    StaleIsEmpty(events, k, cutoff);
    LogGrows(log, Accepted(r.ip, None, r.now), k);
  }

  lemma {:induction false} StaleIsEmpty(events: Deques, k: string, cutoff: real)
    ensures EventsOf(WithoutStale(events, cutoff), k)
      == if Stale(EventsOf(events, k), cutoff) then [] else EventsOf(events, k)
  {
  }

  lemma {:induction false} DequesFit(requests: seq<Request>, limit: int, k: string)
    requires limit > 0
    ensures |EventsOf(Served(requests, limit).0, k)| <= limit
  {
    hide DropExpired, TimesOf, Stale;
    if requests != [] {
      var init, r := requests[..|requests| - 1], requests[|requests| - 1];
      assert requests == init + [r];
      DequesFit(init, limit, k);
      ServedOnce(init, limit, r, k);
      var events := EventsOf(Served(init, limit).0, k);
      DroppedIsSuffix(events, events, r.now - IP_WINDOW_SECONDS as real);
      DroppedIsSuffix([], [], r.now - IP_WINDOW_SECONDS as real);
    }
  }

  /** While nothing of an address is accepted its deque only loses times from the front. */
  lemma {:induction false} DequeShrinks(requests: seq<Request>, more: seq<Request>, limit: int, k: string)
    requires limit > 0
    ensures var (events, log) := Served(requests, limit);
      var (events', log') := Served(requests + more, limit);
      && |TimesOf(log', k)| >= |TimesOf(log, k)|
      && (TimesOf(log', k) == TimesOf(log, k) ==> IsSuffix(EventsOf(events', k), EventsOf(events, k)))
  {
    hide DropExpired, TimesOf, Stale, Served;
    if more == [] {
      assert requests + more == requests;
    } else {
      var init, r := more[..|more| - 1], more[|more| - 1];
      assert requests + more == (requests + init) + [r];
      DequeShrinks(requests, init, limit, k);
      ServedOnce(requests + init, limit, r, k);
      var was, events := EventsOf(Served(requests, limit).0, k), EventsOf(Served(requests + init, limit).0, k);
      var cutoff := r.now - IP_WINDOW_SECONDS as real;
      if IsSuffix(events, was) { DroppedIsSuffix(events, was, cutoff); }
      DroppedIsSuffix([], was, cutoff);
    }
  }

  /** How one call answers, in terms of its address's deque. */
  lemma {:induction false} AnswerIs(events: Deques, ip: string, limit: int, now: real)
    requires limit > 0
    ensures var cutoff := now - IP_WINDOW_SECONDS as real;
      var live := if Stale(EventsOf(events, ip), cutoff) then [] else EventsOf(events, ip);
      var kept := DropExpired(live, cutoff);
      Checked(events, ip, limit, now).1
        == if |kept| >= limit then Some(RetryAfter(kept[0], IP_WINDOW_SECONDS, now)) else None
  {
    hide DropExpired, RetryAfter, Stale;
    StaleIsEmpty(events, ip, now - IP_WINDOW_SECONDS as real);
  }

  /** Nothing of this address is let through by `more`. */
  ghost predicate NoneLetThrough(requests: seq<Request>, more: seq<Request>, limit: int, ip: string) {
    TimesOf(Served(requests + more, limit).1, ip) == TimesOf(Served(requests, limit).1, ip)
  }

  /**
   A client that waits as long as a denial told it is let through, if nothing of its address was meanwhile,
   exactly when the limit is positive. No clock needs to be in order for this.
   */
  lemma {:induction false} WaitIsEnough(requests: seq<Request>, more: seq<Request>, limit: int, ip: string,
      now: real, later: real)
    requires Checked(Served(requests, limit).0, ip, limit, now).1.Some?
    requires var denied := requests + [Request(ip, None, now)];
      NoneLetThrough(denied, more, limit, ip)
    requires later >= now + Checked(Served(requests, limit).0, ip, limit, now).1.value as real
    ensures var denied := requests + [Request(ip, None, now)];
      Checked(Served(denied + more, limit).0, ip, limit, later).1.None? <==> limit > 0
  {
    hide DropExpired, RetryAfter, Stale, Served, TimesOf, Checked;
    var r := Request(ip, None, now);
    if limit > 0 {
      var cutoff := now - IP_WINDOW_SECONDS as real;
      var events := EventsOf(Served(requests, limit).0, ip);
      var kept := DropExpired(if Stale(events, cutoff) then [] else events, cutoff);
      DequesFit(requests + [r], limit, ip);
      AnswerIs(Served(requests, limit).0, ip, limit, now);
      ServedOnce(requests, limit, r, ip);
      DequeShrinks(requests + [r], more, limit, ip);
      var after := Served(requests + [r] + more, limit).0;
      AnswerIs(after, ip, limit, later);
      WaitClearsOne(kept, EventsOf(after, ip), limit, IP_WINDOW_SECONDS, now, later);
      WaitClearsOne(kept, [], limit, IP_WINDOW_SECONDS, now, later);
    } else {
      NoLimitDenies(Served(requests + [r] + more, limit).0, ip, limit, later);
    }
  }

  lemma {:induction false} NoLimitDenies(events: Deques, ip: string, limit: int, now: real)
    requires limit <= 0
    ensures Checked(events, ip, limit, now).1.Some?
  {
  }

  /** With no call late, one that comes next decides as the reference does on all accepted times. */
  lemma {:induction false} NextDecides(requests: seq<Request>, limit: int, ip: string, now: real)
    requires requests != [] && AtMostLate(requests + [Request(ip, None, now)], 0.0)
    ensures var (events, log) := Served(requests, limit);
      && Checked(events, ip, limit, now).1 == Decide(TimesOf(log, ip), limit, 60, now)
      && NearlySorted(TimesOf(log, ip), 0.0) && AllUpTo(TimesOf(log, ip), now)
      && AtMostPerWindow(TimesOf(log, ip), limit, IP_WINDOW_SECONDS as real)
  {
    hide Checked, Served, Decide, TimesOf, Lawful, AtMostPerWindow, NearlySorted, Keeps;
    assert (requests + [Request(ip, None, now)])[..|requests|] == requests;
    var (events, log) := Served(requests, limit);
    ServedStands(requests, limit, 0.0);
    CheckedIsSound(events, log, 0.0, Latest(requests), ip, limit, now);
    assert DequeRefines(events, log, IpTerms(0.0), Latest(requests), ip);
    LawfulKeepsWindows(log, limit, SureSpan(IpTerms(0.0)), ip);
  }

  /** With no call late, the wait is not a second too long: a client back more than that early is denied again. */
  lemma {:induction false} EarlyReturnIsDenied(requests: seq<Request>, more: seq<Request>, limit: int, ip: string,
      now: real, later: real)
    requires Checked(Served(requests, limit).0, ip, limit, now).1.Some?
    requires var denied := requests + [Request(ip, None, now)];
      NoneLetThrough(denied, more, limit, ip) && AtMostLate(denied + more + [Request(ip, None, later)], 0.0)
    requires later < now + (Checked(Served(requests, limit).0, ip, limit, now).1.value - 1) as real
    ensures var denied := requests + [Request(ip, None, now)];
      Checked(Served(denied + more, limit).0, ip, limit, later).1.Some?
  {
    hide Checked, Decide, TimesOf, AtMostPerWindow, NearlySorted, AllUpTo, Latest, AtMostLate;
    var denied := requests + [Request(ip, None, now)];
    if limit <= 0 {
      NoLimitDenies(Served(denied + more, limit).0, ip, limit, later);
      return;
    }
    if requests == [] {
      FirstIsLetThrough(ip, limit, now);
      assert false;
    }
    assert denied + more + [Request(ip, None, later)] == denied + (more + [Request(ip, None, later)]);
    AtMostLateBefore(denied, more + [Request(ip, None, later)], 0.0);
    NextDecides(requests, limit, ip, now);
    NextDecides(denied + more, limit, ip, later);
    assert denied[..|requests|] == requests;
    ComesAfter(denied, more, Request(ip, None, later));
    RetryAfterIsHonest(TimesOf(Served(requests, limit).1, ip), limit, IP_WINDOW_SECONDS, now, later);
  }

  lemma {:induction false} FirstIsLetThrough(ip: string, limit: int, now: real)
    requires limit > 0
    ensures Checked(Served([], limit).0, ip, limit, now).1.None?
  {
    AnswerIs(map[], ip, limit, now);
  }

  lemma {:induction false} ComesAfter(requests: seq<Request>, more: seq<Request>, last: Request)
    requires requests != [] && AtMostLate(requests + more + [last], 0.0)
    ensures requests[|requests| - 1].now <= last.now
  {
    LatestGrows(requests, more);
    assert (requests + more + [last])[..|requests + more|] == requests + more;
  }

  // ---- No longer window is certain ----

  /** An address whose second request comes late, then another address a minute later, then the first one again. */
  function LateRun(d: real): seq<Request> {
    var again := Request("a", None, 60.0 - d);
    [Request("a", None, d), Request("a", None, 0.0), Request("b", None, 60.0), again, again]
  }

  /**
   Calls `d` late break the limit in every window longer than a minute less twice the lateness: the eviction
   forgets a live request with the late one after it.
   */
  lemma {:induction false} LateCallsBreakLimit(d: real, span: real)
    requires 0.0 <= d <= 30.0 && span > 60.0 - 2.0 * d
    ensures AtMostLate(LateRun(d), d)
    ensures !AtMostPerWindow(TimesOf(Served(LateRun(d), 2).1, "a"), 2, span)
  {
    hide Served, TimesOf, AtMostPerWindow;
    LateRunIsLate(d);
    LateRunTimes(d);
    ThreeInWindow(d, span);
    TooManyWithin([d, 0.0, 60.0 - d, 60.0 - d], 2, d, span);
  }

  lemma {:induction false} LateRunIsLate(d: real)
    requires 0.0 <= d <= 30.0
    ensures AtMostLate(LateRun(d), d)
  {
    var run := LateRun(d);
    assert run[..4][..3] == run[..3] && run[..3][..2] == run[..2] && run[..2][..1] == run[..1];
    assert AtMostLate(run[..1], d);
    assert AtMostLate(run[..2], d);
    assert AtMostLate(run[..3], d);
    assert AtMostLate(run[..4], d);
  }

  /** One more request of "a" with everything it is charged for still live. */
  lemma {:induction false} OneMoreOfA(requests: seq<Request>, now: real, seen: seq<real>)
    requires EventsOf(Served(requests, 2).0, "a") == seen && |seen| < 2
    requires forall x | x in seen :: x > now - IP_WINDOW_SECONDS as real
    ensures var (events, log) := Served(requests + [Request("a", None, now)], 2);
      EventsOf(events, "a") == seen + [now] && TimesOf(log, "a") == TimesOf(Served(requests, 2).1, "a") + [now]
  {
    hide Served, TimesOf, DropExpired;
    ServedOnce(requests, 2, Request("a", None, now), "a");
    assert seen != [] ==> seen[0] in seen;
    NothingDropped(seen, now - IP_WINDOW_SECONDS as real);
  }

  /** A request of "b" when the last one of "a" has left the window. */
  lemma {:induction false} AIsForgotten(requests: seq<Request>, now: real, seen: seq<real>)
    requires EventsOf(Served(requests, 2).0, "a") == seen && Stale(seen, now - IP_WINDOW_SECONDS as real)
    ensures var (events, log) := Served(requests + [Request("b", None, now)], 2);
      EventsOf(events, "a") == [] && TimesOf(log, "a") == TimesOf(Served(requests, 2).1, "a")
  {
    hide Served, TimesOf, DropExpired;
    ServedOnce(requests, 2, Request("b", None, now), "a");
    var was := TimesOf(Served(requests, 2).1, "a");
    assert was + [] == was;
  }

  lemma {:induction false} LateRunTimes(d: real)
    requires 0.0 <= d <= 30.0
    ensures TimesOf(Served(LateRun(d), 2).1, "a") == [d, 0.0, 60.0 - d, 60.0 - d]
  {
    hide Served, TimesOf, EventsOf;
    var run, t := LateRun(d), 60.0 - d;
    NobodyServed(2);
    OneMoreOfA([], d, []);
    assert [] + [run[0]] == [run[0]] && [] + [d] == [d];
    OneMoreOfA([run[0]], 0.0, [d]);
    assert [run[0]] + [run[1]] == [run[0], run[1]] && [d] + [0.0] == [d, 0.0];
    AIsForgotten([run[0], run[1]], 60.0, [d, 0.0]);
    assert [run[0], run[1]] + [run[2]] == [run[0], run[1], run[2]];
    OneMoreOfA([run[0], run[1], run[2]], t, []);
    assert [run[0], run[1], run[2]] + [run[3]] == [run[0], run[1], run[2], run[3]] && [] + [t] == [t];
    OneMoreOfA([run[0], run[1], run[2], run[3]], t, [t]);
    assert [run[0], run[1], run[2], run[3]] + [run[4]] == run;
    assert [d, 0.0] + [t] + [t] == [d, 0.0, t, t];
  }

  lemma {:induction false} NobodyServed(limit: int)
    ensures Served([], limit) == (map[], []) && EventsOf(map[], "a") == [] && TimesOf([], "a") == []
  {
  }

  lemma {:induction false} ThreeInWindow(d: real, span: real)
    requires 0.0 <= d <= 30.0 && span > 60.0 - 2.0 * d
    ensures |Within([d, 0.0, 60.0 - d, 60.0 - d], d, span)| >= 3
  {
    var t := 60.0 - d;
    assert [d, 0.0, t, t][1..] == [0.0, t, t] && [0.0, t, t][1..] == [t, t] && [t, t][1..] == [t];
    assert |Within([t], d, span)| == 1;
    assert |Within([t, t], d, span)| == 2;
    assert |Within([0.0, t, t], d, span)| >= 2;
  }
}

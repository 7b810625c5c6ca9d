/**
 A rate limiter that never forgets an accepted request: the reference both in-memory limiters refine
 (arguss/web/ip_rate_limit.py, arguss/web/scan_rate_limit.py). Times are seconds of a monotonic clock, read
 before the lock is taken: a call may be late, its time up to `skew` seconds behind one already served.
 */
module SlidingWindow {
  import opened Basics

  /** Acceptance times of one address, in the order they were accepted. */
  ghost predicate NearlySorted(times: seq<real>, skew: real) {
    forall i, j | 0 <= i < j < |times| :: times[i] <= times[j] + skew
  }

  predicate AllUpTo(times: seq<real>, t: real) {
    forall x | x in times :: x <= t
  }

  /** The times after `cutoff`. */
  function Live(times: seq<real>, cutoff: real): seq<real> {
    if times == [] then []
    else if times[0] > cutoff then [times[0]] + Live(times[1..], cutoff)
    else Live(times[1..], cutoff)
  }

  /** The times in the half-open window of length `span` from `lo` on. */
  function Within(times: seq<real>, lo: real, span: real): seq<real> {
    if times == [] then []
    else if lo <= times[0] < lo + span then [times[0]] + Within(times[1..], lo, span)
    else Within(times[1..], lo, span)
  }

  /** Denied, with the `Retry-After` given, unless fewer than `limit` requests were accepted within the window. */
  function Decide(times: seq<real>, limit: int, window: nat, now: real): Option<int> {
    var live := Live(times, now - window as real);
    if limit <= 0 then Some(window)
    else if |live| >= limit then Some(RetryAfter(live[0], window, now))
    else None
  }

  /** `max(1, int(events[0] + window - now) + 1)`, where `int` truncates towards zero. */
  function RetryAfter(oldest: real, window: nat, now: real): int {
    var left := oldest + window as real - now;
    var truncated := if left >= 0.0 then left.Floor else -((-left).Floor);
    if truncated + 1 > 1 then truncated + 1 else 1
  }

  // ---- Pruning ----

  lemma {:induction false} LiveSplits(a: seq<real>, b: seq<real>, cutoff: real)
    ensures Live(a + b, cutoff) == Live(a, cutoff) + Live(b, cutoff)
  {
    if a == [] {
      assert a + b == b;
    } else {
      assert (a + b)[0] == a[0] && (a + b)[1..] == a[1..] + b;
      LiveSplits(a[1..], b, cutoff);
    }
  }

  lemma {:induction false} NoneLive(times: seq<real>, cutoff: real)
    requires AllUpTo(times, cutoff)
    ensures Live(times, cutoff) == []
  {
    if times != [] {
      assert times[0] in times && forall x | x in times[1..] :: x in times;
      NoneLive(times[1..], cutoff);
    }
  }

  lemma {:induction false} AllLive(times: seq<real>, cutoff: real)
    requires forall x | x in times :: x > cutoff
    ensures Live(times, cutoff) == times
  {
    if times != [] {
      assert times[0] in times && forall x | x in times[1..] :: x in times;
      AllLive(times[1..], cutoff);
    }
  }

  lemma {:induction false} LiveIsPart(times: seq<real>, cutoff: real)
    ensures |Live(times, cutoff)| <= |times|
  {
    if times != [] { LiveIsPart(times[1..], cutoff); }
  }

  /** `kept` is what pruning up to `cutoff` may have left of `times`: only times outside the window are gone. */
  ghost predicate Keeps(times: seq<real>, kept: seq<real>, cutoff: real) {
    && |kept| <= |times|
    && times[|times| - |kept|..] == kept
    && AllUpTo(times[..|times| - |kept|], cutoff)
  }

  /** Nothing pruned at an earlier cutoff matters at a later one. */
  lemma {:induction false} PrunedIsLive(times: seq<real>, kept: seq<real>, cutoff: real, later: real)
    requires Keeps(times, kept, cutoff) && cutoff <= later
    ensures Live(times, later) == Live(kept, later)
  {
    var gone := times[..|times| - |kept|];
    assert times == gone + kept;
    LiveSplits(gone, kept, later);
    NoneLive(gone, later);
  }

  function DropExpired(events: seq<real>, cutoff: real): seq<real> {
    if events != [] && events[0] <= cutoff then DropExpired(events[1..], cutoff) else events
  }

  lemma {:induction false} DropExpiredKeeps(events: seq<real>, cutoff: real)
    ensures var kept := DropExpired(events, cutoff);
      Keeps(events, kept, cutoff) && (kept != [] ==> kept[0] > cutoff)
  {
    if events != [] && events[0] <= cutoff {
      var rest := events[1..];
      DropExpiredKeeps(rest, cutoff);
      var kept := DropExpired(rest, cutoff);
      var gone, later := events[..|events| - |kept|], rest[..|rest| - |kept|];
      assert gone == [events[0]] + later && events[|gone|..] == rest[|later|..];
    }
  }

  /** `while events and events[0] <= cutoff: events.popleft()`; of sorted times exactly the live ones stay. */
  method Prune(events: seq<real>, cutoff: real) returns (kept: seq<real>)
    ensures kept == DropExpired(events, cutoff)
    ensures NearlySorted(events, 0.0) ==> kept == Live(events, cutoff)
  {
    kept := events;
    while kept != [] && kept[0] <= cutoff
      invariant DropExpired(kept, cutoff) == DropExpired(events, cutoff)
      decreases |kept|
    {
      kept := kept[1..];
    }
    if NearlySorted(events, 0.0) {
      DropExpiredKeeps(events, cutoff);
      PrunedIsLive(events, kept, cutoff, cutoff);
      KeptAreLive(events, kept, cutoff, cutoff);
    }
  }

  // ---- The laws of the reference ----

  function AtLeastZero(limit: int): nat {
    if limit > 0 then limit else 0
  }

  /** No half-open window of this length holds more than `limit` acceptances. */
  ghost predicate AtMostPerWindow(times: seq<real>, limit: int, span: real) {
    forall lo :: |Within(times, lo, span)| <= AtLeastZero(limit)
  }

  lemma {:induction false} TooManyWithin(times: seq<real>, limit: int, lo: real, span: real)
    requires |Within(times, lo, span)| > AtLeastZero(limit)
    ensures !AtMostPerWindow(times, limit, span)
  {
  }

  lemma {:induction false} WithinGrows(times: seq<real>, t: real, lo: real, span: real)
    ensures Within(times + [t], lo, span) == Within(times, lo, span) + (if lo <= t < lo + span then [t] else [])
  {
    if times != [] {
      assert (times + [t])[1..] == times[1..] + [t];
      WithinGrows(times[1..], t, lo, span);
    }
  }

  lemma {:induction false} WithinIsLive(times: seq<real>, lo: real, span: real, cutoff: real)
    requires cutoff < lo
    ensures |Within(times, lo, span)| <= |Live(times, cutoff)|
  {
    if times != [] { WithinIsLive(times[1..], lo, span, cutoff); }
  }

  /** What fits into one window is counted in it. */
  lemma {:induction false} SuffixIsWithin(times: seq<real>, k: nat, lo: real, span: real)
    requires k <= |times| && forall i | k <= i < |times| :: lo <= times[i] < lo + span
    ensures |times| - k <= |Within(times, lo, span)|
  {
    if times != [] {
      forall i | (if k > 0 then k - 1 else 0) <= i < |times[1..]| ensures lo <= times[1..][i] < lo + span {
        assert times[1..][i] == times[i + 1];
      }
      SuffixIsWithin(times[1..], if k > 0 then k - 1 else 0, lo, span);
    }
  }

  /**
   Accepting while fewer than `limit` times are live keeps every window within the limit, in whatever order
   times come.
   */
  lemma {:induction false} AcceptingKeepsWindows(times: seq<real>, limit: int, span: real, now: real)
    requires AtMostPerWindow(times, limit, span) && |Live(times, now - span)| < limit
    ensures AtMostPerWindow(times + [now], limit, span)
  {
    var grown := times + [now];
    forall lo ensures |Within(grown, lo, span)| <= limit {
      WithinGrows(times, now, lo, span);
      if lo <= now < lo + span { WithinIsLive(times, lo, span, now - span); }
    }
  }

  /** In a sorted history the live times are the last ones. */
  lemma {:induction false} LiveIsSuffix(times: seq<real>, cutoff: real) returns (k: nat)
    requires NearlySorted(times, 0.0)
    ensures k <= |times| && Live(times, cutoff) == times[k..]
    ensures forall i | 0 <= i < |times| :: times[i] > cutoff <==> i >= k
  {
    if times == [] {
      k := 0;
    } else if times[0] > cutoff {
      k := 0;
      AllLive(times, cutoff);
    } else {
      var rest := LiveIsSuffix(times[1..], cutoff);
      k := rest + 1;
      forall i | 0 < i < |times| ensures times[i] > cutoff <==> i >= k { assert times[i] == times[1..][i - 1]; }
    }
  }

  /** The wait is the first whole second at which the oldest live request has left the window. */
  lemma {:induction false} RetryIsNext(oldest: real, window: nat, now: real)
    requires now - window as real < oldest <= now
    ensures var wait := RetryAfter(oldest, window, now);
      && 1 <= wait <= window + 1 && (wait - 1) as real <= oldest + window as real - now < wait as real
  {
  }

  /** A full window holds exactly `limit` live times. */
  lemma {:induction false} FullWindowIsExact(times: seq<real>, limit: int, window: nat, now: real) returns (k: nat)
    requires NearlySorted(times, 0.0) && AllUpTo(times, now) && AtMostPerWindow(times, limit, window as real)
    requires limit > 0 && |Live(times, now - window as real)| >= limit
    ensures |times| - k == limit && Live(times, now - window as real) == times[k..]
    ensures forall i | 0 <= i < |times| :: times[i] > now - window as real <==> i >= k
  {
    k := LiveIsSuffix(times, now - window as real);
    forall i | k <= i < |times| ensures times[k] <= times[i] < times[k] + window as real {
      assert times[i] in times;
      if k < i { assert times[k] <= times[i] + 0.0; }
    }
    SuffixIsWithin(times, k, times[k], window as real);
  }

  /**
   A client that waits as long as it was told is let through if nothing of its address was accepted
   meanwhile, exactly when the limit is positive; one that comes back more than a second early is not.
   */
  lemma {:induction false} RetryAfterIsHonest(times: seq<real>, limit: int, window: nat, now: real, later: real)
    requires NearlySorted(times, 0.0) && AllUpTo(times, now) && AtMostPerWindow(times, limit, window as real)
    requires Decide(times, limit, window, now).Some? && now <= later
    ensures var wait := Decide(times, limit, window, now).value;
      && (limit > 0 ==> 1 <= wait <= window + 1)
      && (later >= now + wait as real ==> (Decide(times, limit, window, later).None? <==> limit > 0))
      && (later < now + (wait - 1) as real ==> Decide(times, limit, window, later).Some?)
  {
    hide Live, RetryAfter, AtMostPerWindow;
    if limit > 0 {
      var k := FullWindowIsExact(times, limit, window, now);
      assert times[k] in times;
      RetryIsNext(times[k], window, now);
      var k' := LiveIsSuffix(times, later - window as real);
    }
  }

  lemma {:induction false} NothingDropped(events: seq<real>, cutoff: real)
    requires events != [] ==> events[0] > cutoff
    ensures DropExpired(events, cutoff) == events
  {
  }

  predicate IsSuffix(part: seq<real>, whole: seq<real>) {
    |part| <= |whole| && whole[|whole| - |part|..] == part
  }

  lemma {:induction false} DroppedIsSuffix(part: seq<real>, whole: seq<real>, cutoff: real)
    requires IsSuffix(part, whole)
    ensures IsSuffix(DropExpired(part, cutoff), whole)
  {
    hide DropExpired, AllUpTo;
    DropExpiredKeeps(part, cutoff);
    var kept := DropExpired(part, cutoff);
    assert whole[|whole| - |part|..][|part| - |kept|..] == whole[|whole| - |kept|..];
  }

  lemma {:induction false} WaitPassesOldest(oldest: real, window: nat, now: real)
    ensures now + RetryAfter(oldest, window, now) as real >= oldest + window as real
    ensures RetryAfter(oldest, window, now) >= 1
  {
  }

  /** After the advised wait a deque that was full, whatever else has been pruned from it, has room. */
  lemma {:induction false} WaitClearsOne(kept: seq<real>, part: seq<real>, limit: int, window: nat, now: real,
      later: real)
    requires kept != [] && |kept| <= limit && IsSuffix(part, kept)
    requires later >= now + RetryAfter(kept[0], window, now) as real
    ensures |DropExpired(part, later - window as real)| < limit
  {
    hide RetryAfter;
    WaitPassesOldest(kept[0], window, now);
    if |part| == |kept| {
      DroppedIsSuffix(part[1..], part[1..], later - window as real);
    } else {
      DroppedIsSuffix(part, part, later - window as real);
    }
  }

  // ---- Accepted requests of all addresses ----

  datatype Accepted = Accepted(ip: string, session: Option<string>, at: real)

  function TimesOf(log: seq<Accepted>, ip: string): seq<real> {
    if log == [] then []
    else
      var last := log[|log| - 1];
      TimesOf(log[..|log| - 1], ip) + (if last.ip == ip then [last.at] else [])
  }

  function UsesOf(log: seq<Accepted>, session: string): nat {
    if log == [] then 0
    else UsesOf(log[..|log| - 1], session) + (if log[|log| - 1].session == Some(session) then 1 else 0)
  }

  lemma {:induction false} LogGrows(log: seq<Accepted>, a: Accepted, ip: string)
    ensures TimesOf(log + [a], ip) == TimesOf(log, ip) + (if a.ip == ip then [a.at] else [])
  {
    assert (log + [a])[..|log|] == log;
  }

  lemma {:induction false} UsesGrow(log: seq<Accepted>, a: Accepted, session: string)
    ensures UsesOf(log + [a], session) == UsesOf(log, session) + (if a.session == Some(session) then 1 else 0)
  {
    assert (log + [a])[..|log|] == log;
  }

  /** A session's uses are its entries in the log. */
  lemma {:induction false} UsesAre(log: seq<Accepted>, session: string)
    ensures UsesOf(log, session) == |set i | 0 <= i < |log| && log[i].session == Some(session)|
  {
    if log != [] {
      var init, last := log[..|log| - 1], |log| - 1;
      UsesAre(init, session);
      var earlier := set i | 0 <= i < |init| && init[i].session == Some(session);
      assert last !in earlier;
      var all := set i | 0 <= i < |log| && log[i].session == Some(session);
      if log[last].session == Some(session) {
        assert all == earlier + {last};
      } else {
        assert all == earlier;
      }
    }
  }

  /** Each request was accepted while fewer than `limit` of its address were live in a window of this length. */
  ghost predicate Lawful(log: seq<Accepted>, limit: int, span: real) {
    log == [] ||
    (var init, last := log[..|log| - 1], log[|log| - 1];
     Lawful(init, limit, span) && |Live(TimesOf(init, last.ip), last.at - span)| < limit)
  }

  /** A log grown lawfully, calls late or not, keeps every window of every address within the limit. */
  lemma {:induction false} LawfulKeepsWindows(log: seq<Accepted>, limit: int, span: real, ip: string)
    requires Lawful(log, limit, span)
    ensures AtMostPerWindow(TimesOf(log, ip), limit, span)
  {
    if log != [] {
      var init, last := log[..|log| - 1], log[|log| - 1];
      LawfulKeepsWindows(init, limit, span, ip);
      if last.ip == ip {
        AcceptingKeepsWindows(TimesOf(init, ip), limit, span, last.at);
      } else {
        assert TimesOf(init, ip) + [] == TimesOf(init, ip);
      }
    }
  }

  // ---- Deques standing for the recent part of an unbounded history ----

  type Deques = map<string, seq<real>>

  /**
   A limiter's window, how late its calls are at most, and how far inside the window a time may be that its
   pruning forgets.
   */
  datatype Terms = Terms(window: nat, skew: real, slack: real)

  /** The span within which a limit is certain when calls may be late. */
  function SureSpan(terms: Terms): real {
    terms.window as real - terms.skew - terms.slack
  }

  /** Lateness is bounded, and only times that had left the window, give or take the slack, are gone. */
  ghost predicate Refines(events: Deques, log: seq<Accepted>, terms: Terms, clock: real) {
    0.0 <= terms.slack <= terms.skew && forall ip :: DequeRefines(events, log, terms, clock, ip)
  }

  ghost predicate DequeRefines(events: Deques, log: seq<Accepted>, terms: Terms, clock: real, ip: string) {
    && NearlySorted(TimesOf(log, ip), terms.skew) && AllUpTo(TimesOf(log, ip), clock)
    && Keeps(TimesOf(log, ip), EventsOf(events, ip), clock - terms.window as real + terms.slack)
  }

  function EventsOf(events: Deques, ip: string): seq<real> {
    if ip in events then events[ip] else []
  }

  function Later(a: real, b: real): real {
    if a <= b then b else a
  }

  lemma {:induction false} PrunedTwice(times: seq<real>, kept: seq<real>, fewer: seq<real>, cutoff: real)
    requires Keeps(times, kept, cutoff) && Keeps(kept, fewer, cutoff)
    ensures Keeps(times, fewer, cutoff)
  {
    var a, b := |times| - |kept|, |kept| - |fewer|;
    var gone := times[..a + b];
    forall x | x in gone ensures x <= cutoff {
      var i :| 0 <= i < |gone| && gone[i] == x;
      if i < a { assert x in times[..a]; } else { assert kept[i - a] == x && x in kept[..b]; }
    }
  }

  lemma {:induction false} KeepsOneMore(times: seq<real>, kept: seq<real>, cutoff: real, skew: real, clock: real,
      now: real)
    requires NearlySorted(times, skew) && AllUpTo(times, clock) && Keeps(times, kept, cutoff)
    requires clock <= now + skew && now <= clock
    ensures NearlySorted(times + [now], skew) && AllUpTo(times + [now], clock) &&
        Keeps(times + [now], kept + [now], cutoff)
  {
    forall i, j | 0 <= i < j < |times + [now]| ensures (times + [now])[i] <= (times + [now])[j] + skew {
      if j == |times| { assert times[i] in times; }
    }
    assert (times + [now])[..|times| - |kept|] == times[..|times| - |kept|];
  }

  /** Time passing keeps the refinement. */
  lemma {:induction false} RefinesLater(events: Deques, log: seq<Accepted>, terms: Terms, clock: real,
      now: real)
    requires Refines(events, log, terms, clock) && clock <= now
    ensures Refines(events, log, terms, now)
  {
    forall ip ensures DequeRefines(events, log, terms, now, ip) {
      assert DequeRefines(events, log, terms, clock, ip);
    }
  }

  /** One address's deque may be pruned at a cutoff the clock has reached. */
  lemma {:induction false} RefinesPruned(events: Deques, log: seq<Accepted>, terms: Terms, clock: real,
      ip: string, pruned: seq<real>, cutoff: real)
    requires Refines(events, log, terms, clock)
    requires Keeps(EventsOf(events, ip), pruned, cutoff) && cutoff <= clock - terms.window as real
    ensures Refines(events[ip := pruned], log, terms, clock)
  {
    hide NearlySorted, AllUpTo, Keeps;
    var after := events[ip := pruned];
    forall k ensures DequeRefines(after, log, terms, clock, k) {
      assert DequeRefines(events, log, terms, clock, k);
      if k == ip {
        KeepsAtLater(EventsOf(events, ip), pruned, cutoff, clock - terms.window as real + terms.slack);
        PrunedTwice(TimesOf(log, ip), EventsOf(events, ip), pruned, clock - terms.window as real + terms.slack);
      }
    }
  }

  lemma {:induction false} KeepsAtLater(times: seq<real>, kept: seq<real>, cutoff: real, later: real)
    requires Keeps(times, kept, cutoff) && cutoff <= later
    ensures Keeps(times, kept, later)
  {
  }

  /** A deque whose first time is after `cutoff` holds only times after `cutoff - skew`. */
  lemma {:induction false} KeptAreAfter(times: seq<real>, kept: seq<real>, skew: real, gone: real, cutoff: real)
    requires NearlySorted(times, skew) && Keeps(times, kept, gone) && skew >= 0.0
    requires kept != [] ==> kept[0] > cutoff
    ensures forall x | x in kept :: x > cutoff - skew && x in times
  {
    hide AllUpTo;
    var at := |times| - |kept|;
    forall i | 0 <= i < |kept| ensures kept[i] > cutoff - skew && kept[i] in times {
      assert times[at] == kept[0] && times[at + i] == kept[i];
      if i > 0 { assert times[at] <= times[at + i] + skew; }
    }
  }

  lemma {:induction false} KeptAreRecent(times: seq<real>, kept: seq<real>, skew: real, gone: real, cutoff: real)
    requires NearlySorted(times, skew) && Keeps(times, kept, gone) && skew >= 0.0
    requires kept != [] ==> kept[0] > cutoff
    ensures |kept| <= |Live(times, cutoff - skew)| && forall x | x in kept :: x in times
  {
    hide NearlySorted, AllUpTo, Live;
    KeptAreAfter(times, kept, skew, gone, cutoff);
    AllLive(kept, cutoff - skew);
    var at := |times| - |kept|;
    assert times == times[..at] + kept;
    LiveSplits(times[..at], kept, cutoff - skew);
  }

  /**
   A pruned deque of one address, against all times accepted for it: it counts no more than were live in a
   window longer by the skew, no fewer than in the sure span, and with no call late exactly those
   live in the window itself.
   */
  lemma {:induction false} DequeCounts(events: Deques, log: seq<Accepted>, terms: Terms, clock: real,
      now: real, ip: string)
    requires Refines(events, log, terms, clock) && now <= clock <= now + terms.skew
    requires var kept := EventsOf(events, ip); kept != [] ==> kept[0] > now - terms.window as real
    ensures var kept, times := EventsOf(events, ip), TimesOf(log, ip);
      && |Live(times, now - SureSpan(terms))| <= |kept| <= |Live(times, now - (terms.window as real + terms.skew))|
      && (terms.skew == 0.0 ==> kept == Live(times, now - terms.window as real))
      && (forall x | x in kept :: x in times)
  {
    hide Live, NearlySorted, AllUpTo, Keeps;
    var kept, times := EventsOf(events, ip), TimesOf(log, ip);
    assert DequeRefines(events, log, terms, clock, ip);
    var gone := clock - terms.window as real + terms.slack;
    var short := now - SureSpan(terms);
    PrunedIsLive(times, kept, gone, short);
    LiveIsPart(kept, short);
    KeptAreRecent(times, kept, terms.skew, gone, now - terms.window as real);
    assert now - terms.window as real - terms.skew == now - (terms.window as real + terms.skew);
    if terms.skew == 0.0 {
      PrunedIsLive(times, kept, gone, now - terms.window as real);
      KeptAreLive(times, kept, gone, now - terms.window as real);
    }
  }

  lemma {:induction false} KeptAreLive(times: seq<real>, kept: seq<real>, gone: real, cutoff: real)
    requires NearlySorted(times, 0.0) && Keeps(times, kept, gone) && (kept != [] ==> kept[0] > cutoff)
    ensures Live(kept, cutoff) == kept
  {
    hide NearlySorted, Keeps, Live;
    KeptAreAfter(times, kept, 0.0, gone, cutoff);
    AllLive(kept, cutoff);
  }

  /** Recording the request in the deque and in the log keeps the refinement. */
  lemma {:induction false} RefinesRecorded(events: Deques, log: seq<Accepted>, terms: Terms, clock: real,
      a: Accepted)
    requires Refines(events, log, terms, clock) && a.at <= clock <= a.at + terms.skew
    ensures Refines(events[a.ip := EventsOf(events, a.ip) + [a.at]], log + [a], terms, clock)
  {
    hide DequeRefines, EventsOf;
    var after := events[a.ip := EventsOf(events, a.ip) + [a.at]];
    forall k ensures DequeRefines(after, log + [a], terms, clock, k) {
      DequeRecorded(events, log, terms, clock, a, k);
    }
  }

  lemma {:induction false} DequeRecorded(events: Deques, log: seq<Accepted>, terms: Terms, clock: real, a: Accepted,
      k: string)
    requires DequeRefines(events, log, terms, clock, k) && 0.0 <= terms.slack <= terms.skew
    requires a.at <= clock <= a.at + terms.skew
    ensures DequeRefines(events[a.ip := EventsOf(events, a.ip) + [a.at]], log + [a], terms, clock, k)
  {
    hide Keeps, NearlySorted, AllUpTo, TimesOf;
    LogGrows(log, a, k);
    if k == a.ip {
      var gone := clock - terms.window as real + terms.slack;
      KeepsOneMore(TimesOf(log, k), EventsOf(events, k), gone, terms.skew, clock, a.at);
    } else {
      assert TimesOf(log, k) + [] == TimesOf(log, k);
    }
  }

  lemma {:induction false} TermsAreSound(events: Deques, log: seq<Accepted>, terms: Terms, clock: real)
    requires Refines(events, log, terms, clock)
    ensures 0.0 <= terms.slack <= terms.skew
  {
  }

  /** What may be said of a decision whatever the lateness; without lateness it is that of the reference. */
  ghost predicate DecidesLike(denial: Option<int>, times: seq<real>, limit: int, terms: Terms, now: real) {
    && (denial.None? ==> |Live(times, now - SureSpan(terms))| < limit)
    && (denial.Some? ==> limit <= 0 || |Live(times, now - (terms.window as real + terms.skew))| >= limit)
    && (limit <= 0 ==> denial == Some(terms.window))
    && (limit > 0 && denial.Some? ==> exists x | x in times :: DenialFrom(x, denial.value, terms.window, now))
    && (terms.skew == 0.0 ==> denial == Decide(times, limit, terms.window, now))
  }

  predicate DenialFrom(x: real, wait: int, window: nat, now: real) {
    now - window as real < x && wait == RetryAfter(x, window, now)
  }

  /** Pruning an address's deque and comparing its size with a positive limit decides rightly. */
  lemma {:induction false} PrunedDecides(events: Deques, log: seq<Accepted>, terms: Terms, clock: real,
      ip: string, limit: int, now: real)
    requires Refines(events, log, terms, clock) && now <= clock <= now + terms.skew && limit > 0
    ensures var kept := DropExpired(EventsOf(events, ip), now - terms.window as real);
      && Refines(events[ip := kept], log, terms, clock)
      && DecidesLike(if |kept| >= limit then Some(RetryAfter(kept[0], terms.window, now)) else None,
          TimesOf(log, ip), limit, terms, now)
  {
    hide Refines, NearlySorted, Keeps, Live, RetryAfter, TimesOf, DropExpired;
    var kept := DropExpired(EventsOf(events, ip), now - terms.window as real);
    DropExpiredKeeps(EventsOf(events, ip), now - terms.window as real);
    RefinesPruned(events, log, terms, clock, ip, kept, now - terms.window as real);
    DequeCounts(events[ip := kept], log, terms, clock, now, ip);
    if |kept| >= limit { assert DenialFrom(kept[0], RetryAfter(kept[0], terms.window, now), terms.window, now); }
  }

  /** What an allowed request leaves behind. */
  lemma {:induction false} AllowedIsRecorded(events: Deques, kept: seq<real>, log: seq<Accepted>, terms: Terms,
      clock: real, limit: int, a: Accepted)
    requires Refines(events[a.ip := kept], log, terms, clock) && a.at <= clock <= a.at + terms.skew
    requires DecidesLike(None, TimesOf(log, a.ip), limit, terms, a.at)
    ensures Refines(events[a.ip := kept + [a.at]], log + [a], terms, clock)
    ensures var span := SureSpan(terms); Lawful(log, limit, span) ==> Lawful(log + [a], limit, span)
  {
    hide Refines, Live, TimesOf;
    RefinesRecorded(events[a.ip := kept], log, terms, clock, a);
    assert events[a.ip := kept][a.ip := kept + [a.at]] == events[a.ip := kept + [a.at]];
    assert (log + [a])[..|log|] == log;
  }

  /** One request, as an address and perhaps a session asks at some time. */
  datatype Request = Request(ip: string, session: Option<string>, now: real)

  /** The latest time any of the requests was made at. */
  function Latest(requests: seq<Request>): real {
    if requests == [] then 0.0
    else if |requests| == 1 then requests[0].now
    else Later(Latest(requests[..|requests| - 1]), requests[|requests| - 1].now)
  }

  /** Each request comes at most `skew` seconds behind the latest before it. */
  ghost predicate AtMostLate(requests: seq<Request>, skew: real) {
    && skew >= 0.0
    && (|requests| > 0 ==> AtMostLate(requests[..|requests| - 1], skew))
    && (|requests| > 1 ==> Latest(requests[..|requests| - 1]) <= requests[|requests| - 1].now + skew)
  }

  lemma {:induction false} LatestGrows(requests: seq<Request>, more: seq<Request>)
    requires requests != []
    ensures Latest(requests + more) >= Latest(requests) >= requests[|requests| - 1].now
  {
    if more == [] {
      assert requests + more == requests;
    } else {
      assert (requests + more)[..|requests + more| - 1] == requests + more[..|more| - 1];
      LatestGrows(requests, more[..|more| - 1]);
    }
  }

  lemma {:induction false} AtMostLateBefore(requests: seq<Request>, more: seq<Request>, skew: real)
    requires AtMostLate(requests + more, skew)
    ensures AtMostLate(requests, skew)
    decreases |more|
  {
    if more == [] {
      assert requests + more == requests;
    } else {
      assert (requests + more)[..|requests + more| - 1] == requests + more[..|more| - 1];
      AtMostLateBefore(requests, more[..|more| - 1], skew);
    }
  }

  /** Every finite run has such a bound. */
  lemma {:induction false} SomeLatenessBounds(requests: seq<Request>) returns (skew: real)
    ensures AtMostLate(requests, skew)
  {
    skew := 0.0;
    if |requests| > 0 {
      var init, last := requests[..|requests| - 1], requests[|requests| - 1];
      var before := SomeLatenessBounds(init);
      skew := if Latest(init) - last.now > before then Latest(init) - last.now else before;
      LooserBound(init, before, skew);
    }
  }

  lemma {:induction false} LooserBound(requests: seq<Request>, skew: real, looser: real)
    requires AtMostLate(requests, skew) && skew <= looser
    ensures AtMostLate(requests, looser)
  {
    if |requests| > 0 { LooserBound(requests[..|requests| - 1], skew, looser); }
  }
}

/** The fixed-window request limiter of one client on one endpoint, over a store with expiring records. */
module RateLimit {
  import opened Wrappers
  import opened Basics

  function Length(seconds: nat): (length: nat)
    ensures seconds >= 1 ==> length >= 1
  {
    seconds * SECOND
  }

  datatype ApiRateLimit = ApiRateLimit(requestsCount: nat, windowStart: int, windowDurationSeconds: nat)

  /** A stored record and the moment the store drops it. */
  datatype Stored = Stored(record: ApiRateLimit, expiresAt: int)

  datatype RateLimitResult = RateLimitResult(allowed: bool, remaining: nat, resetTime: int, retryAfter: int)

  /** The whole seconds of a moment, rounded down. */
  function Timestamp(t: int): (seconds: int)
    ensures seconds * SECOND <= t < (seconds + 1) * SECOND
  {
    t / SECOND
  }

  /** Subtracting below zero in unsigned arithmetic. */
  datatype Underflow = Underflow

  /** The clock readings of one request: at the read, in the check, and at the write. */
  datatype Readings = Readings(getAt: int, now: int, setAt: int)

  /** What the store still answers. */
  function Fetched(stored: Option<Stored>, getAt: int): Option<ApiRateLimit> {
    if stored.Some? && getAt < stored.value.expiresAt then Some(stored.value.record) else None
  }

  function WindowEnd(r: ApiRateLimit): int {
    r.windowStart + Length(r.windowDurationSeconds)
  }

  /** The store after a request. */
  function StoreAfter(stored: Option<Stored>, limit: nat, windowSeconds: nat, at: Readings): Option<Stored> {
    var expiresAt := at.setAt + Length(windowSeconds);
    match Fetched(stored, at.getAt)
    case Some(rl) =>
      if at.now < WindowEnd(rl) then
        if rl.requestsCount + 1 > limit then stored
        else Some(Stored(rl.(requestsCount := rl.requestsCount + 1), expiresAt))
      else Some(Stored(ApiRateLimit(1, at.now, windowSeconds), expiresAt))
    case None => Some(Stored(ApiRateLimit(1, at.now, windowSeconds), expiresAt))
  }

  /** The request finds no record, or one whose window is over. */
  predicate OpensWindow(stored: Option<Stored>, at: Readings) {
    Fetched(stored, at.getAt).None? || at.now >= WindowEnd(Fetched(stored, at.getAt).value)
  }

  /** Whether a request is allowed. */
  predicate Allowed(stored: Option<Stored>, limit: nat, at: Readings) {
    match Fetched(stored, at.getAt)
    case Some(rl) => at.now < WindowEnd(rl) ==> rl.requestsCount + 1 <= limit
    case None => true
  }

  class RateLimiter {
    var stored: Option<Stored>

    constructor ()
      ensures stored == None
    {
      stored := None;
    }

    /**
     One request. Opening a window subtracts one from the limit, after the record is stored: at a
     limit of zero that underflows, and the caller gets no result.
     */
    method CheckRateLimit(limit: nat, windowSeconds: nat, at: Readings) returns (r: Result<RateLimitResult, Underflow>)
      modifies this
      ensures stored == StoreAfter(old(stored), limit, windowSeconds, at)
      ensures r.Err? <==> limit == 0 && OpensWindow(old(stored), at)
      ensures r.Ok? ==> r.value.allowed == Allowed(old(stored), limit, at)
      ensures r.Ok? && !r.value.allowed ==> r.value.remaining == 0 && stored == old(stored)
      ensures r.Ok? && r.value.allowed ==>
                stored.Some? && r.value.remaining == limit - stored.value.record.requestsCount
      ensures r.Ok? ==>
                && stored.Some?
                && var record := stored.value.record;
                   r.value.resetTime == record.windowStart + record.windowDurationSeconds * SECOND
      ensures OpensWindow(old(stored), at) ==>
                stored == Some(Stored(ApiRateLimit(1, at.now, windowSeconds), at.setAt + windowSeconds * SECOND))
      ensures !OpensWindow(old(stored), at) && r.Ok? && r.value.allowed ==>
                && old(stored).Some? && stored.Some?
                && var record := old(stored).value.record;
                   && stored.value.record == record.(requestsCount := record.requestsCount + 1)
                   && stored.value.expiresAt == at.setAt + windowSeconds * SECOND
      ensures OpensWindow(old(stored), at) <==>
                || old(stored).None? || old(stored).value.expiresAt <= at.getAt
                || var record := old(stored).value.record;
                   record.windowStart + record.windowDurationSeconds * SECOND <= at.now
      ensures r.Ok? && r.value.allowed ==> r.value.retryAfter == 0
      ensures r.Ok? && !r.value.allowed ==>
                && r.value.retryAfter >= 0
                && (r.value.retryAfter - 1) * SECOND < r.value.resetTime - at.now < (r.value.retryAfter + 1) * SECOND
    {
      var rateLimit := Fetched(stored, at.getAt);
      if rateLimit.Some? {
        var rl := rateLimit.value;
        var windowEnd := WindowEnd(rl);
        if at.now < windowEnd {
          rl := rl.(requestsCount := rl.requestsCount + 1);
          if rl.requestsCount > limit {
            return Ok(RateLimitResult(false, 0, windowEnd, Timestamp(windowEnd) - Timestamp(at.now)));
          }
          var remaining := limit - rl.requestsCount;
          stored := Some(Stored(rl, at.setAt + Length(windowSeconds)));
          return Ok(RateLimitResult(true, remaining, windowEnd, 0));
        }
      }
      var reset := ApiRateLimit(1, at.now, windowSeconds);
      stored := Some(Stored(reset, at.setAt + Length(windowSeconds)));
      if limit == 0 {
        return Err(Underflow);
      }
      r := Ok(RateLimitResult(true, limit - 1, at.now + Length(windowSeconds), 0));
    }
  }

  // ----- Runs

  function After(requests: seq<Readings>, limit: nat, windowSeconds: nat): Option<Stored> {
    if requests == [] then None
    else StoreAfter(After(requests[..|requests| - 1], limit, windowSeconds), limit, windowSeconds, requests[|requests| - 1])
  }

  /** Every clock reading of the run is at most `now`, and readings never go back. */
  ghost predicate Ordered(requests: seq<Readings>, now: int)
    decreases |requests|
  {
    requests != [] ==>
      var last := requests[|requests| - 1];
      && last.getAt <= last.now <= last.setAt <= now
      && Ordered(requests[..|requests| - 1], last.getAt)
  }

  /** How many of the requests made in `[lo, hi)` were allowed. */
  function Admitted(requests: seq<Readings>, limit: nat, windowSeconds: nat, lo: int, hi: int): nat {
    if requests == [] then 0
    else
      var rest, last := requests[..|requests| - 1], requests[|requests| - 1];
      Admitted(rest, limit, windowSeconds, lo, hi) +
      if Allowed(After(rest, limit, windowSeconds), limit, last) && lo <= last.now < hi then 1 else 0
  }

  datatype Window = Window(start: int, count: nat)

  /** The windows after a request, given those before it. */
  function NextWindows(windows: seq<Window>, stored: Option<Stored>, limit: nat, at: Readings): seq<Window> {
    var rl := Fetched(stored, at.getAt);
    if windows == [] || rl.None? || at.now >= WindowEnd(rl.value) then windows + [Window(at.now, 1)]
    else if !Allowed(stored, limit, at) then windows
    else windows[..|windows| - 1] + [windows[|windows| - 1].(count := windows[|windows| - 1].count + 1)]
  }

  /** The windows opened so far, each with the requests it admitted. */
  function Windows(requests: seq<Readings>, limit: nat, windowSeconds: nat): seq<Window> {
    if requests == [] then []
    else
      var rest := requests[..|requests| - 1];
      NextWindows(Windows(rest, limit, windowSeconds), After(rest, limit, windowSeconds), limit, requests[|requests| - 1])
  }

  /** Windows do not overlap, and none admits more than `limit`. */
  ghost predicate Spaced(windows: seq<Window>, limit: nat, length: nat)
    decreases |windows|
  {
    windows != [] ==>
      var n := |windows|;
      && 1 <= windows[n - 1].count <= limit
      && (n >= 2 ==> windows[n - 2].start + length <= windows[n - 1].start)
      && Spaced(windows[..n - 1], limit, length)
  }

  /** The stored record is the last window, and outlives it. */
  ghost predicate StoresLast(stored: Option<Stored>, windows: seq<Window>, windowSeconds: nat, now: int) {
    if windows == [] then stored.None?
    else
      && stored.Some?
      && var last := windows[|windows| - 1];
         && stored.value.record == ApiRateLimit(last.count, last.start, windowSeconds)
         && last.start <= now
         && last.start + Length(windowSeconds) <= stored.value.expiresAt
  }

  lemma NextWindowsInv(
    windows: seq<Window>, stored: Option<Stored>, limit: nat, windowSeconds: nat, at: Readings
  )
    requires limit >= 1 && at.getAt <= at.now <= at.setAt
    requires Spaced(windows, limit, Length(windowSeconds)) && StoresLast(stored, windows, windowSeconds, at.getAt)
    ensures var windows' := NextWindows(windows, stored, limit, at);
            && Spaced(windows', limit, Length(windowSeconds))
            && StoresLast(StoreAfter(stored, limit, windowSeconds, at), windows', windowSeconds, at.setAt)
  {
    hide Length;
    var windows' := NextWindows(windows, stored, limit, at);
    if |windows'| > |windows| {
      assert windows'[..|windows|] == windows;
    } else if windows' != windows {
      assert windows'[..|windows'| - 1] == windows[..|windows| - 1];
    }
  }

  lemma StoresLastLater(stored: Option<Stored>, windows: seq<Window>, windowSeconds: nat, now: int, later: int)
    requires StoresLast(stored, windows, windowSeconds, now) && now <= later
    ensures StoresLast(stored, windows, windowSeconds, later)
  {
  }

  lemma {:induction false} WindowsKept(requests: seq<Readings>, limit: nat, windowSeconds: nat, now: int)
    requires limit >= 1 && Ordered(requests, now)
    ensures var windows := Windows(requests, limit, windowSeconds);
            && Spaced(windows, limit, Length(windowSeconds))
            && StoresLast(After(requests, limit, windowSeconds), windows, windowSeconds, now)
    decreases |requests|
  {
    if requests == [] {
    } else {
      hide NextWindows, StoreAfter, Spaced, StoresLast, Length;
      var rest, last := requests[..|requests| - 1], requests[|requests| - 1];
      var windows, stored := Windows(rest, limit, windowSeconds), After(rest, limit, windowSeconds);
      WindowsKept(rest, limit, windowSeconds, last.getAt);
      NextWindowsInv(windows, stored, limit, windowSeconds, last);
      StoresLastLater(StoreAfter(stored, limit, windowSeconds, last), NextWindows(windows, stored, limit, last),
                      windowSeconds, last.setAt, now);
    }
  }

  /** Over every run, windows do not overlap, none admits more than `limit`, and the record is the last one. */
  lemma WindowsInv(requests: seq<Readings>, limit: nat, windowSeconds: nat, now: int)
    requires limit >= 1 && Ordered(requests, now)
    ensures var windows, stored := Windows(requests, limit, windowSeconds), After(requests, limit, windowSeconds);
            && Spaced(windows, limit, windowSeconds * SECOND)
            && (windows == [] <==> stored.None?)
            && (windows != [] ==>
                  var last := windows[|windows| - 1];
                  && stored.value.record == ApiRateLimit(last.count, last.start, windowSeconds)
                  && last.start <= now && last.start + windowSeconds * SECOND <= stored.value.expiresAt)
  {
    WindowsKept(requests, limit, windowSeconds, now);
  }

  // ----- Counting

  /**
   The requests admitted by the windows that meet `[lo, hi)`, without the one that opened a window
   before `lo`.
   */
  function AdmittedByWindows(windows: seq<Window>, length: nat, lo: int, hi: int): nat {
    if windows == [] then 0
    else
      AdmittedByWindows(windows[..|windows| - 1], length, lo, hi) + AdmittedByWindow(windows[|windows| - 1], length, lo, hi)
  }

  function AdmittedByWindow(w: Window, length: nat, lo: int, hi: int): nat {
    if w.start < hi && lo < w.start + length && w.count > 0 then if lo <= w.start then w.count else w.count - 1 else 0
  }

  lemma AdmittedSnoc(windows: seq<Window>, w: Window, length: nat, lo: int, hi: int)
    ensures AdmittedByWindows(windows + [w], length, lo, hi) ==
            AdmittedByWindows(windows, length, lo, hi) + AdmittedByWindow(w, length, lo, hi)
  {
    assert (windows + [w])[..|windows|] == windows;
  }

  lemma OpeningAdmits(now: int, length: nat, lo: int, hi: int)
    requires length >= 1
    ensures AdmittedByWindow(Window(now, 1), length, lo, hi) >= if lo <= now < hi then 1 else 0
  {
  }

  lemma OneMoreAdmits(w: Window, now: int, length: nat, lo: int, hi: int)
    requires w.start <= now < w.start + length && w.count >= 1
    ensures AdmittedByWindow(w.(count := w.count + 1), length, lo, hi) >=
            AdmittedByWindow(w, length, lo, hi) + if lo <= now < hi then 1 else 0
  {
  }

  lemma NextWindowsAdmit(
    windows: seq<Window>, stored: Option<Stored>, limit: nat, windowSeconds: nat, at: Readings, lo: int, hi: int
  )
    requires limit >= 1 && windowSeconds >= 1 && at.getAt <= at.now
    requires Spaced(windows, limit, Length(windowSeconds)) && StoresLast(stored, windows, windowSeconds, at.getAt)
    ensures AdmittedByWindows(NextWindows(windows, stored, limit, at), Length(windowSeconds), lo, hi) >=
            AdmittedByWindows(windows, Length(windowSeconds), lo, hi) +
            if Allowed(stored, limit, at) && lo <= at.now < hi then 1 else 0
  {
    assert windows != [] ==> windows[|windows| - 1].count >= 1;
    assert Length(windowSeconds) >= 1;
    NextWindowsFacts(windows, stored, limit, windowSeconds, at);
    hide Length, AdmittedByWindows, AdmittedByWindow, Spaced, StoresLast, NextWindows, Allowed;
    var length, windows' := Length(windowSeconds), NextWindows(windows, stored, limit, at);
    if |windows'| > |windows| {
      assert windows' == windows + [Window(at.now, 1)];
      AdmittedSnoc(windows, Window(at.now, 1), length, lo, hi);
      OpeningAdmits(at.now, length, lo, hi);
    } else {
      var n := |windows|;
      var before, last, last' := windows[..n - 1], windows[n - 1], windows'[n - 1];
      assert windows == before + [last] && windows' == before + [last'];
      AdmittedSnoc(before, last, length, lo, hi);
      AdmittedSnoc(before, last', length, lo, hi);
      if Allowed(stored, limit, at) {
        assert last' == last.(count := last.count + 1);
        OneMoreAdmits(last, at.now, length, lo, hi);
      }
    }
  }

  lemma {:induction false} AdmittedWithinWindows(
    requests: seq<Readings>, limit: nat, windowSeconds: nat, now: int, lo: int, hi: int
  )
    requires limit >= 1 && windowSeconds >= 1 && Ordered(requests, now)
    ensures Admitted(requests, limit, windowSeconds, lo, hi) <=
            AdmittedByWindows(Windows(requests, limit, windowSeconds), Length(windowSeconds), lo, hi)
    decreases |requests|
  {
    if requests == [] {
    } else {
      hide NextWindows, StoreAfter, Spaced, StoresLast, Length, Allowed, AdmittedByWindows;
      var rest, last := requests[..|requests| - 1], requests[|requests| - 1];
      AdmittedWithinWindows(rest, limit, windowSeconds, last.getAt, lo, hi);
      WindowsKept(rest, limit, windowSeconds, last.getAt);
      NextWindowsAdmit(Windows(rest, limit, windowSeconds), After(rest, limit, windowSeconds), limit, windowSeconds,
                       last, lo, hi);
    }
  }

  lemma {:induction false} NoWindowBefore(windows: seq<Window>, limit: nat, length: nat, lo: int, hi: int)
    requires Spaced(windows, limit, length) && length >= 1
    requires windows != [] ==> windows[|windows| - 1].start + length <= lo
    ensures AdmittedByWindows(windows, length, lo, hi) == 0
  {
    if windows == [] {
    } else {
      NoWindowBefore(windows[..|windows| - 1], limit, length, lo, hi);
    }
  }

  /** An interval no longer than a window meets at most two windows, and the opening of only one of them. */
  lemma {:induction false} AtMostTwoWindows(windows: seq<Window>, limit: nat, length: nat, lo: int, hi: int)
    requires limit >= 1 && length >= 1 && Spaced(windows, limit, length) && hi <= lo + length
    ensures AdmittedByWindows(windows, length, lo, hi) <= 2 * limit - 1
  {
    if windows == [] {
    } else {
      var n := |windows|;
      var last, rest := windows[n - 1], windows[..n - 1];
      if last.start < hi && lo < last.start + length {
        if n >= 2 {
          assert rest[n - 2] == windows[n - 2];
          NoWindowBefore(rest[..n - 2], limit, length, lo, hi);
        }
      } else {
        AtMostTwoWindows(rest, limit, length, lo, hi);
      }
    }
  }

  /** Over every run, any interval of one window's length admits fewer than twice the limit. */
  lemma FewerThanTwiceTheLimit(requests: seq<Readings>, limit: nat, windowSeconds: nat, now: int, lo: int)
    requires limit >= 1 && windowSeconds >= 1 && Ordered(requests, now)
    ensures Admitted(requests, limit, windowSeconds, lo, lo + windowSeconds * SECOND) <= 2 * limit - 1
  {
    assert Length(windowSeconds) == windowSeconds * SECOND;
    hide Length, Windows, Spaced, StoresLast;
    var hi := lo + Length(windowSeconds);
    AdmittedWithinWindows(requests, limit, windowSeconds, now, lo, hi);
    WindowsKept(requests, limit, windowSeconds, now);
    AtMostTwoWindows(Windows(requests, limit, windowSeconds), limit, Length(windowSeconds), lo, hi);
  }

  lemma NothingAdmittedYet(requests: seq<Readings>, limit: nat, windowSeconds: nat, now: int, hi: int)
    requires limit >= 1 && windowSeconds >= 1 && Ordered(requests, now)
    requires var windows := Windows(requests, limit, windowSeconds);
             windows != [] ==> windows[|windows| - 1].start + Length(windowSeconds) <= now
    ensures Admitted(requests, limit, windowSeconds, now, hi) == 0
  {
    hide Length, Windows, Spaced, StoresLast;
    AdmittedWithinWindows(requests, limit, windowSeconds, now, now, hi);
    WindowsKept(requests, limit, windowSeconds, now);
    NoWindowBefore(Windows(requests, limit, windowSeconds), limit, Length(windowSeconds), now, hi);
  }

  lemma {:induction false} EarlierWindowsEnded(windows: seq<Window>, limit: nat, length: nat, i: nat)
    requires Spaced(windows, limit, length) && i + 1 < |windows|
    ensures windows[i].start + length <= windows[|windows| - 1].start
  {
    if i + 2 == |windows| {
    } else {
      EarlierWindowsEnded(windows[..|windows| - 1], limit, length, i);
    }
  }

  lemma NextWindowsFacts(
    windows: seq<Window>, stored: Option<Stored>, limit: nat, windowSeconds: nat, at: Readings
  )
    requires StoresLast(stored, windows, windowSeconds, at.getAt) && at.getAt <= at.now && limit >= 1
    ensures var windows' := NextWindows(windows, stored, limit, at); var n := |windows'|;
            && n >= 1 && at.now >= windows'[n - 1].start && |windows| <= n <= |windows| + 1
            && (forall i | 0 <= i < n - 1 :: i < |windows| && windows'[i] == windows[i])
            && if n > |windows| then
                 && Allowed(stored, limit, at) && windows'[n - 1] == Window(at.now, 1)
                 && (windows != [] ==> windows[n - 2].start + Length(windowSeconds) <= at.now)
               else
                 && at.now < windows'[n - 1].start + Length(windowSeconds) && windows'[n - 1].start == windows[n - 1].start
                 && windows'[n - 1].count == windows[n - 1].count + if Allowed(stored, limit, at) then 1 else 0
  {
    hide Length;
  }

  lemma {:induction false} WindowCount(
    requests: seq<Readings>, limit: nat, windowSeconds: nat, now: int, i: nat
  )
    requires limit >= 1 && windowSeconds >= 1 && Ordered(requests, now)
    requires i < |Windows(requests, limit, windowSeconds)|
    ensures var w := Windows(requests, limit, windowSeconds)[i];
            Admitted(requests, limit, windowSeconds, w.start, w.start + Length(windowSeconds)) == w.count
    decreases |requests|
  {
    hide NextWindows, StoreAfter, Spaced, StoresLast, Length, Allowed;
    var rest, last := requests[..|requests| - 1], requests[|requests| - 1];
    var windows, stored := Windows(rest, limit, windowSeconds), After(rest, limit, windowSeconds);
    var windows' := Windows(requests, limit, windowSeconds);
    WindowsKept(requests, limit, windowSeconds, now);
    WindowsKept(rest, limit, windowSeconds, last.getAt);
    NextWindowsFacts(windows, stored, limit, windowSeconds, last);
    if i + 1 < |windows'| {
      EarlierWindowsEnded(windows', limit, Length(windowSeconds), i);
    }
    if i < |windows| {
      WindowCount(rest, limit, windowSeconds, last.getAt, i);
    } else {
      OrderedLater(rest, last.getAt, last.now);
      NothingAdmittedYet(rest, limit, windowSeconds, last.now, last.now + Length(windowSeconds));
    }
  }

  /** Every window admits exactly the requests allowed during it: between one and `limit`. */
  lemma WindowAdmitsItsCount(requests: seq<Readings>, limit: nat, windowSeconds: nat, now: int, i: nat)
    requires limit >= 1 && windowSeconds >= 1 && Ordered(requests, now)
    requires i < |Windows(requests, limit, windowSeconds)|
    ensures var w := Windows(requests, limit, windowSeconds)[i];
            && Admitted(requests, limit, windowSeconds, w.start, w.start + windowSeconds * SECOND) == w.count
            && 1 <= w.count <= limit
  {
    WindowCount(requests, limit, windowSeconds, now, i);
    WindowsKept(requests, limit, windowSeconds, now);
    SpacedCount(Windows(requests, limit, windowSeconds), limit, Length(windowSeconds), i);
    hide Admitted, Windows;
  }

  lemma {:induction false} SpacedCount(windows: seq<Window>, limit: nat, length: nat, i: nat)
    requires Spaced(windows, limit, length) && i < |windows|
    ensures 1 <= windows[i].count <= limit
  {
    if i + 1 == |windows| {
    } else {
      SpacedCount(windows[..|windows| - 1], limit, length, i);
    }
  }

  lemma OrderedLater(requests: seq<Readings>, now: int, later: int)
    requires Ordered(requests, now) && now <= later
    ensures Ordered(requests, later)
  {
  }

  lemma RefusedByLast(
    stored: Option<Stored>, windows: seq<Window>, limit: nat, windowSeconds: nat, at: Readings
  )
    requires StoresLast(stored, windows, windowSeconds, at.getAt) && at.getAt <= at.now
    ensures !Allowed(stored, limit, at) <==>
            windows != [] &&
            at.now < windows[|windows| - 1].start + Length(windowSeconds) && windows[|windows| - 1].count >= limit
  {
  }

  /** A request is refused exactly when the window it falls in has already admitted `limit`. */
  lemma RefusedExactlyWhenFull(requests: seq<Readings>, limit: nat, windowSeconds: nat, at: Readings)
    requires limit >= 1 && windowSeconds >= 1 && Ordered(requests, at.getAt) && at.getAt <= at.now
    ensures var windows := Windows(requests, limit, windowSeconds);
            !Allowed(After(requests, limit, windowSeconds), limit, at) <==>
            windows != [] &&
            var w := windows[|windows| - 1];
            at.now < w.start + windowSeconds * SECOND &&
            Admitted(requests, limit, windowSeconds, w.start, w.start + windowSeconds * SECOND) == limit
  {
    assert Length(windowSeconds) == windowSeconds * SECOND;
    hide StoreAfter, After, Windows, Admitted, Allowed, StoresLast, Length;
    WindowsKept(requests, limit, windowSeconds, at.getAt);
    var windows := Windows(requests, limit, windowSeconds);
    RefusedByLast(After(requests, limit, windowSeconds), windows, limit, windowSeconds, at);
    if windows != [] {
      WindowAdmitsItsCount(requests, limit, windowSeconds, at.getAt, |windows| - 1);
    }
  }

  // ----- The bound is reached

  function Instant(t: int): Readings {
    Readings(t, t, t)
  }

  function Burst(t: int, n: nat): seq<Readings> {
    seq(n, _ => Instant(t))
  }

  lemma Snoc(requests: seq<Readings>, last: Readings, limit: nat, windowSeconds: nat, lo: int, hi: int)
    ensures var stored := After(requests, limit, windowSeconds);
            && After(requests + [last], limit, windowSeconds) == StoreAfter(stored, limit, windowSeconds, last)
            && Admitted(requests + [last], limit, windowSeconds, lo, hi) ==
               Admitted(requests, limit, windowSeconds, lo, hi) +
               if Allowed(stored, limit, last) && lo <= last.now < hi then 1 else 0
  {
    assert (requests + [last])[..|requests|] == requests;
  }

  /** The record holds `count` requests of the window from `start`, and `admitted` were allowed in `[lo, hi)`. */
  ghost predicate Stands(
    requests: seq<Readings>, limit: nat, windowSeconds: nat, start: int, count: nat, t: int,
    lo: int, hi: int, admitted: nat
  ) {
    && Admitted(requests, limit, windowSeconds, lo, hi) == admitted
    && var stored := After(requests, limit, windowSeconds);
       && stored.Some? && t < stored.value.expiresAt
       && stored.value.record == ApiRateLimit(count, start, windowSeconds)
  }

  lemma StandsAdmits(
    requests: seq<Readings>, limit: nat, windowSeconds: nat, start: int, count: nat, t: int,
    lo: int, hi: int, admitted: nat
  )
    requires Stands(requests, limit, windowSeconds, start, count, t, lo, hi, admitted)
    ensures Admitted(requests, limit, windowSeconds, lo, hi) == admitted
  {
  }

  lemma OneMore(
    requests: seq<Readings>, limit: nat, windowSeconds: nat, start: int, count: nat, t: int,
    lo: int, hi: int, admitted: nat
  )
    requires windowSeconds >= 1 && lo <= t < hi && t < start + Length(windowSeconds) && count < limit
    requires Stands(requests, limit, windowSeconds, start, count, t, lo, hi, admitted)
    ensures Stands(requests + [Instant(t)], limit, windowSeconds, start, count + 1, t, lo, hi, admitted + 1)
  {
    hide After, Admitted, Length;
    Snoc(requests, Instant(t), limit, windowSeconds, lo, hi);
  }

  /** `n` more requests in an open window with room for them are all allowed. */
  lemma {:induction false} BurstAllowed(
    requests: seq<Readings>, limit: nat, windowSeconds: nat, start: int, count: nat, t: int, n: nat,
    lo: int, hi: int, admitted: nat
  )
    requires windowSeconds >= 1 && lo <= t < hi && t < start + Length(windowSeconds) && count + n <= limit
    requires Stands(requests, limit, windowSeconds, start, count, t, lo, hi, admitted)
    ensures Stands(requests + Burst(t, n), limit, windowSeconds, start, count + n, t, lo, hi, admitted + n)
  {
    hide Stands, Length;
    if n == 0 {
      assert requests + Burst(t, n) == requests;
    } else {
      BurstAllowed(requests, limit, windowSeconds, start, count, t, n - 1, lo, hi, admitted);
      assert requests + Burst(t, n) == requests + Burst(t, n - 1) + [Instant(t)];
      OneMore(requests + Burst(t, n - 1), limit, windowSeconds, start, count + n - 1, t, lo, hi, admitted + n - 1);
    }
  }

  /** One request opens a window, the rest of its limit comes just before its end, a full window just after. */
  function WorstCase(limit: nat, length: int): seq<Readings>
    requires limit >= 1
  {
    [Instant(0)] + Burst(length - 1, limit - 1) + [Instant(length)] + Burst(length, limit - 1)
  }

  lemma {:induction false} BurstOrdered(requests: seq<Readings>, t: int, n: nat)
    requires Ordered(requests, t)
    ensures Ordered(requests + Burst(t, n), t)
  {
    if n == 0 {
      assert requests + Burst(t, n) == requests;
    } else {
      BurstOrdered(requests, t, n - 1);
      var all := requests + Burst(t, n);
      assert all[..|all| - 1] == requests + Burst(t, n - 1) && all[|all| - 1] == Instant(t);
    }
  }

  lemma WorstCaseOrdered(limit: nat, length: int)
    requires limit >= 1 && length >= 1
    ensures Ordered(WorstCase(limit, length), length)
  {
    BurstOrdered([], 0, 1);
    assert [] + Burst(0, 1) == [Instant(0)];
    OrderedLater([Instant(0)], 0, length - 1);
    BurstOrdered([Instant(0)], length - 1, limit - 1);
    var two := [Instant(0)] + Burst(length - 1, limit - 1);
    OrderedLater(two, length - 1, length);
    BurstOrdered(two, length, 1);
    assert two + Burst(length, 1) == two + [Instant(length)];
    BurstOrdered(two + [Instant(length)], length, limit - 1);
  }

  lemma Opens(limit: nat, windowSeconds: nat, lo: int, hi: int)
    requires windowSeconds >= 1 && 0 < lo < Length(windowSeconds)
    ensures Stands([Instant(0)], limit, windowSeconds, 0, 1, lo, lo, hi, 0)
  {
    hide Length;
    Snoc([], Instant(0), limit, windowSeconds, lo, hi);
    assert [] + [Instant(0)] == [Instant(0)];
  }

  lemma Reopens(requests: seq<Readings>, limit: nat, windowSeconds: nat, count: nat, t: int, lo: int, hi: int, admitted: nat)
    requires windowSeconds >= 1 && lo <= Length(windowSeconds) < hi
    requires Stands(requests, limit, windowSeconds, 0, count, t, lo, hi, admitted)
    ensures var length := Length(windowSeconds);
            Stands(requests + [Instant(length)], limit, windowSeconds, length, 1, length, lo, hi, admitted + 1)
  {
    hide Length;
    Snoc(requests, Instant(Length(windowSeconds)), limit, windowSeconds, lo, hi);
  }

  /** The first window is full at the end of the first burst. */
  lemma FirstWindowFull(limit: nat, windowSeconds: nat, hi: int)
    requires limit >= 1 && windowSeconds >= 1 && Length(windowSeconds) <= hi
    ensures var lo := Length(windowSeconds) - 1;
            Stands([Instant(0)] + Burst(lo, limit - 1), limit, windowSeconds, 0, limit, lo, lo, hi, limit - 1)
  {
    var lo := Length(windowSeconds) - 1;
    assert Length(windowSeconds) >= SECOND;
    hide Length, Stands, Burst;
    Opens(limit, windowSeconds, lo, hi);
    BurstAllowed([Instant(0)], limit, windowSeconds, 0, 1, lo, limit - 1, lo, hi, 0);
  }

  /** Then a request opens the second window, and the rest of its limit follows at once. */
  lemma SecondWindowFull(requests: seq<Readings>, limit: nat, windowSeconds: nat, hi: int)
    requires limit >= 1 && windowSeconds >= 1 && Length(windowSeconds) < hi
    requires var lo := Length(windowSeconds) - 1;
             Stands(requests, limit, windowSeconds, 0, limit, lo, lo, hi, limit - 1)
    ensures var length := Length(windowSeconds);
            Stands(requests + [Instant(length)] + Burst(length, limit - 1), limit, windowSeconds, length, limit, length,
                   length - 1, hi, 2 * limit - 1)
  {
    var length := Length(windowSeconds);
    hide Length, Stands, Burst;
    Reopens(requests, limit, windowSeconds, limit, length - 1, length - 1, hi, limit - 1);
    BurstAllowed(requests + [Instant(length)], limit, windowSeconds, length, 1, length, limit - 1, length - 1, hi, limit);
  }

  /** For every limit, some run admits one less than twice the limit within one window's length. */
  lemma BoundIsReached(limit: nat, windowSeconds: nat)
    requires limit >= 1 && windowSeconds >= 1
    ensures var length := windowSeconds * SECOND;
            && Ordered(WorstCase(limit, length), length)
            && Admitted(WorstCase(limit, length), limit, windowSeconds, length - 1, 2 * length - 1) == 2 * limit - 1
  {
    var length := Length(windowSeconds);
    assert length >= SECOND;
    WorstCaseOrdered(limit, length);
    var first := [Instant(0)] + Burst(length - 1, limit - 1);
    assert WorstCase(limit, length) == first + [Instant(length)] + Burst(length, limit - 1);
    hide Length, Burst, Ordered, Stands, WorstCase, Admitted;
    FirstWindowFull(limit, windowSeconds, 2 * length - 1);
    SecondWindowFull(first, limit, windowSeconds, 2 * length - 1);
    StandsAdmits(WorstCase(limit, length), limit, windowSeconds, length, limit, length, length - 1, 2 * length - 1,
                 2 * limit - 1);
  }
}

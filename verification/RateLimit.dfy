/** Counters per bucket and fixed time window. An attempt increments the counter of the window its clock
    reading falls in and is refused past the limit; accepted requests and the garbage collector delete the
    counters of old windows. The two read the window width separately. */
module RateLimit {
  import opened Wrappers
  import opened Text

  type Counters = map<(string, int), nat>

  const KEPT_WINDOWS: int := 120
  const BUCKET_MAX: nat := 128

  /** The width the limiter uses, the width the collector uses, and the limit of each bucket. */
  datatype Limiter = Limiter(width: int, sweepWidth: int, limit: string -> int)
  {
    ghost predicate Valid() { 1 <= width && 1 <= sweepWidth }

    /** No limit is kept for a bucket whose limit is not positive; a bucket key that is too long is refused. */
    predicate Counts(bucket: string) { limit(bucket) > 0 && |Utf8(bucket)| <= BUCKET_MAX }
  }

  /** `Tidy` is the deletion after an accepted attempt of the given window; `Collect` is the collector's. */
  datatype Event =
    | Attempt(bucket: string, now: int)
    | Tidy(window: int)
    | Collect(now: int)

  function Count(c: Counters, bucket: string, window: int): nat
  {
    if (bucket, window) in c then c[(bucket, window)] else 0
  }

  function Drop(c: Counters, below: int): Counters
  {
    map k | k in c && below <= k.1 :: c[k]
  }

  /** Windows below this one are deleted by the event. */
  function Below(l: Limiter, e: Event): int
    requires l.Valid() && !e.Attempt?
  {
    (if e.Tidy? then e.window else e.now / l.sweepWidth) - KEPT_WINDOWS
  }

  function Next(l: Limiter, c: Counters, e: Event): Counters
    requires l.Valid()
  {
    match e
    case Attempt(bucket, now) =>
      if l.Counts(bucket) then c[(bucket, now / l.width) := Count(c, bucket, now / l.width) + 1] else c
    case Tidy(_) => Drop(c, Below(l, e))
    case Collect(_) => Drop(c, Below(l, e))
  }

  function After(l: Limiter, events: seq<Event>): Counters
    requires l.Valid()
  {
    if events == [] then map[] else Next(l, After(l, events[..|events| - 1]), events[|events| - 1])
  }

  /** Attempt `i` was let through by a limited bucket. */
  predicate Accepted(l: Limiter, events: seq<Event>, i: nat)
    requires l.Valid()
  {
    && i < |events| && events[i].Attempt? && l.Counts(events[i].bucket)
    && Count(After(l, events[..i]), events[i].bucket, events[i].now / l.width) < l.limit(events[i].bucket)
  }

  predicate InWindow(l: Limiter, e: Event, bucket: string, window: int)
    requires l.Valid()
  {
    e.Attempt? && e.bucket == bucket && e.now / l.width == window
  }

  /** Attempts on the bucket in the window, among the first `n` events. */
  function Attempts(l: Limiter, events: seq<Event>, n: nat, bucket: string, window: int): nat
    requires l.Valid() && n <= |events|
  {
    if n == 0 then 0 else
    Attempts(l, events, n - 1, bucket, window) + if InWindow(l, events[n - 1], bucket, window) then 1 else 0
  }

  function AcceptedIn(l: Limiter, events: seq<Event>, n: nat, bucket: string, window: int): nat
    requires l.Valid() && n <= |events|
  {
    if n == 0 then 0 else
    AcceptedIn(l, events, n - 1, bucket, window)
    + if InWindow(l, events[n - 1], bucket, window) && Accepted(l, events, n - 1) then 1 else 0
  }

  /** Accepted attempts on the bucket whose clock reading lies within one window length from `start`. */
  function AcceptedDuring(l: Limiter, events: seq<Event>, n: nat, bucket: string, start: int): nat
    requires l.Valid() && n <= |events|
  {
    if n == 0 then 0 else
    AcceptedDuring(l, events, n - 1, bucket, start)
    + if Accepted(l, events, n - 1) && events[n - 1].bucket == bucket && start <= events[n - 1].now < start + l.width then 1 else 0
  }

  /** One clock that does not go back: each event read it no later than the attempts after it. */
  predicate Before(l: Limiter, e: Event, later: Event)
    requires l.Valid()
  {
    later.Attempt? ==>
      match e
      case Attempt(_, now) => now <= later.now
      case Tidy(window) => window <= later.now / l.width
      case Collect(now) => now <= later.now
  }

  predicate Timed(l: Limiter, events: seq<Event>)
    requires l.Valid()
  {
    && (forall i :: 0 <= i < |events| && !events[i].Tidy? ==> 0 <= events[i].now)
    && (forall i, j :: 0 <= i < j < |events| ==> Before(l, events[i], events[j]))
  }

  lemma AfterOne(l: Limiter, events: seq<Event>, n: nat)
    requires l.Valid() && n < |events|
    ensures After(l, events[..n + 1]) == Next(l, After(l, events[..n]), events[n])
  {
    assert events[..n + 1][..n] == events[..n];
  }

  predicate Spares(l: Limiter, e: Event, window: int)
    requires l.Valid()
  {
    !e.Attempt? ==> Below(l, e) <= window
  }

  /** A counter that no deletion reached is the number of attempts made in its window. */
  lemma {:induction false} CounterTells(l: Limiter, events: seq<Event>, n: nat, bucket: string, window: int)
    requires l.Valid() && n <= |events| && l.Counts(bucket)
    requires forall i :: 0 <= i < n ==> Spares(l, events[i], window)
    ensures Count(After(l, events[..n]), bucket, window) == Attempts(l, events, n, bucket, window)
    decreases n
  {
    if n > 0 {
      CounterTells(l, events, n - 1, bucket, window);
      AfterOne(l, events, n - 1);
      assert Spares(l, events[n - 1], window);
    }
  }

  lemma MulMonotone(w: int, x: int, y: int)
    requires 0 <= w && x <= y
    ensures w * x <= w * y
  {
  }

  lemma MulCancels(w: int, x: int, y: int)
    requires 0 <= w && w * x < w * y
    ensures x < y
  {
    if y <= x {
      MulMonotone(w, y, x);
    }
  }

  /** The quotient is the number of whole windows. */
  lemma QuotientBetween(a: int, w: int, lo: int, hi: int)
    requires 1 <= w && w * lo <= a < w * hi
    ensures lo <= a / w < hi
  {
    var q := a / w;
    assert w * q <= a < w * (q + 1);
    MulCancels(w, lo, q + 1);
    MulCancels(w, q, hi);
  }

  lemma DivMonotone(a: int, b: int, w: int)
    requires a <= b && 1 <= w
    ensures a / w <= b / w
  {
    var q := b / w;
    assert b < w * (q + 1);
    var p := a / w;
    assert w * p <= a;
    MulCancels(w, p, q + 1);
  }

  lemma DivAntitone(a: nat, v: int, w: int)
    requires 1 <= v <= w
    ensures a / w <= a / v
  {
    var p, q := a / w, a / v;
    assert 0 <= p && w * p <= a;
    assert a < v * (q + 1);
    MulMonotone(p, v, w);
    MulCancels(v, p, q + 1);
  }

  /** No deletion removes the counter of a window that is counted again, when the collector's windows are
      no narrower than the limiter's. */
  lemma LiveWindowsSpared(l: Limiter, events: seq<Event>, n: nat)
    requires l.Valid() && l.width <= l.sweepWidth && Timed(l, events)
    requires n < |events| && events[n].Attempt?
    ensures forall i :: 0 <= i < n ==> Spares(l, events[i], events[n].now / l.width)
  {
    forall i | 0 <= i < n
      ensures Spares(l, events[i], events[n].now / l.width)
    {
      assert Before(l, events[i], events[n]);
      if events[i].Collect? {
        DivMonotone(events[i].now, events[n].now, l.width);
        DivAntitone(events[i].now, l.width, l.sweepWidth);
      }
    }
  }

  /** An attempt is let through if and only if fewer attempts than the limit came before it in its window. */
  lemma AcceptedIff(l: Limiter, events: seq<Event>, n: nat)
    requires l.Valid() && l.width <= l.sweepWidth && Timed(l, events)
    requires n < |events| && events[n].Attempt? && l.Counts(events[n].bucket)
    ensures Accepted(l, events, n) <==>
            Attempts(l, events, n, events[n].bucket, events[n].now / l.width) < l.limit(events[n].bucket)
  {
    LiveWindowsSpared(l, events, n);
    CounterTells(l, events, n, events[n].bucket, events[n].now / l.width);
  }

  function Min(a: int, b: int): int
  {
    if a <= b then a else b
  }

  /** Of the attempts in a window, as many are let through as the limit allows. */
  lemma {:induction false} AcceptedPerWindow(l: Limiter, events: seq<Event>, n: nat, bucket: string, window: int)
    requires l.Valid() && l.width <= l.sweepWidth && Timed(l, events)
    requires n <= |events| && l.Counts(bucket)
    ensures AcceptedIn(l, events, n, bucket, window) == Min(Attempts(l, events, n, bucket, window), l.limit(bucket))
    decreases n
  {
    if n > 0 {
      AcceptedPerWindow(l, events, n - 1, bucket, window);
      if InWindow(l, events[n - 1], bucket, window) {
        AcceptedIff(l, events, n - 1);
      }
    }
  }

  lemma WindowLengthSpansTwo(start: int, now: int, w: int)
    requires 1 <= w && start <= now < start + w
    ensures now / w == start / w || now / w == start / w + 1
  {
    var q := start / w;
    assert w * q <= start < w * (q + 1);
    assert w * (q + 2) == w * (q + 1) + w;
    QuotientBetween(now, w, q, q + 2);
  }

  lemma {:induction false} DuringWithinTwo(l: Limiter, events: seq<Event>, n: nat, bucket: string, start: int)
    requires l.Valid() && n <= |events|
    ensures AcceptedDuring(l, events, n, bucket, start) <=
            AcceptedIn(l, events, n, bucket, start / l.width) + AcceptedIn(l, events, n, bucket, start / l.width + 1)
    decreases n
  {
    if n > 0 {
      DuringWithinTwo(l, events, n - 1, bucket, start);
      if events[n - 1].Attempt? && start <= events[n - 1].now < start + l.width {
        WindowLengthSpansTwo(start, events[n - 1].now, l.width);
      }
    }
  }

  /** Any stretch of time as long as one window lets through at most twice the limit. */
  lemma AcceptedDuringBound(l: Limiter, events: seq<Event>, bucket: string, start: int)
    requires l.Valid() && l.width <= l.sweepWidth && Timed(l, events) && l.Counts(bucket)
    ensures AcceptedDuring(l, events, |events|, bucket, start) <= 2 * l.limit(bucket)
  {
    DuringWithinTwo(l, events, |events|, bucket, start);
    AcceptedPerWindow(l, events, |events|, bucket, start / l.width);
    AcceptedPerWindow(l, events, |events|, bucket, start / l.width + 1);
  }

  /** No history lets more attempts than the limit through in one window. */
  ghost predicate LimitHolds(width: int, sweepWidth: int)
    requires 1 <= width && 1 <= sweepWidth
  {
    forall limit: string -> int, events: seq<Event>, bucket: string, window: int ::
      var l := Limiter(width, sweepWidth, limit);
      Timed(l, events) && l.Counts(bucket) ==> AcceptedIn(l, events, |events|, bucket, window) <= limit(bucket)
  }

  /** A collector with narrower windows deletes the counter of the window in progress. */
  lemma NarrowSweepLosesCount(width: int, sweepWidth: int)
    requires 1 <= sweepWidth < width
    ensures !LimitHolds(width, sweepWidth)
  {
    var l := Limiter(width, sweepWidth, (b: string) => 1);
    var now := 121 * (width * sweepWidth);
    var window := now / width;
    ExactQuotients(width, sweepWidth);
    var events := [Attempt("", now), Collect(now), Attempt("", now)];
    assert After(l, events[..0]) == map[];
    AfterOne(l, events, 0);
    AfterOne(l, events, 1);
    assert Count(After(l, events[..2]), "", window) == 0;
    assert Accepted(l, events, 0) && Accepted(l, events, 2);
    assert AcceptedIn(l, events, 1, "", window) == 1;
    assert AcceptedIn(l, events, 2, "", window) == 1;
    assert AcceptedIn(l, events, 3, "", window) == 2;
    assert Timed(l, events) && l.Counts("");
  }

  lemma ExactQuotients(width: int, sweepWidth: int)
    requires 1 <= sweepWidth < width
    ensures var now := 121 * (width * sweepWidth);
            now >= 0 && now / width == 121 * sweepWidth && now / sweepWidth == 121 * width
  {
    var now := 121 * (width * sweepWidth);
    assert width * (121 * sweepWidth) == now && sweepWidth * (121 * width) == now;
    QuotientBetween(now, width, 121 * sweepWidth, 121 * sweepWidth + 1);
    QuotientBetween(now, sweepWidth, 121 * width, 121 * width + 1);
  }

  /** The limit holds in every history if and only if the collector's windows are no narrower than the
      limiter's. */
  lemma LimitHoldsIff(width: int, sweepWidth: int)
    requires 1 <= width && 1 <= sweepWidth
    ensures LimitHolds(width, sweepWidth) <==> width <= sweepWidth
  {
    if width <= sweepWidth {
      forall limit: string -> int, events: seq<Event>, bucket: string, window: int
        | Timed(Limiter(width, sweepWidth, limit), events) && Limiter(width, sweepWidth, limit).Counts(bucket)
        ensures AcceptedIn(Limiter(width, sweepWidth, limit), events, |events|, bucket, window) <= limit(bucket)
      {
        AcceptedPerWindow(Limiter(width, sweepWidth, limit), events, |events|, bucket, window);
      }
    } else {
      NarrowSweepLosesCount(width, sweepWidth);
    }
  }

  /** The counter table. */
  class RateCounters {
    var counters: Counters

    constructor ()
      ensures counters == map[]
    {
      counters := map[];
    }

    /** Counts the attempt and lets it through while the window's count is within the limit. A transaction
        that fails counts nothing and refuses. The deletion of old windows runs only for accepted attempts,
        and may fail. */
    method CheckAndIncrement(l: Limiter, bucket: string, now: int, fault: Option<string>, tidies: bool) returns (r: Result<(), string>)
      requires l.Valid() && 0 <= now
      modifies this
      ensures l.limit(bucket) <= 0 ==> r.Ok? && counters == old(counters)
      ensures l.limit(bucket) > 0 && |Utf8(bucket)| > BUCKET_MAX ==> r.Err? && counters == old(counters)
      ensures l.Counts(bucket) && fault.Some? ==> r.Err? && counters == old(counters)
      ensures l.Counts(bucket) && fault.None? ==>
        var counted := Next(l, old(counters), Attempt(bucket, now));
        && (r.Ok? <==> Count(old(counters), bucket, now / l.width) < l.limit(bucket))
        && counters == if r.Ok? && tidies then Next(l, counted, Tidy(now / l.width)) else counted
    {
      if l.limit(bucket) <= 0 {
        return Ok(());
      }
      if |Utf8(bucket)| > BUCKET_MAX {
        return Err("risk: internal bucket key too long");
      }
      if fault.Some? {
        return Err(fault.value);
      }
      var window := now / l.width;
      var count := if (bucket, window) in counters then counters[(bucket, window)] + 1 else 1;
      counters := counters[(bucket, window) := count];
      if count > l.limit(bucket) {
        return Err("risk: rate limit exceeded");
      }
      if tidies {
        counters := Drop(counters, window - KEPT_WINDOWS);
      }
      return Ok(());
    }

    method Sweep(l: Limiter, now: int)
      requires l.Valid()
      modifies this
      ensures counters == Next(l, old(counters), Collect(now))
    {
      counters := Drop(counters, now / l.sweepWidth - KEPT_WINDOWS);
    }
  }
}

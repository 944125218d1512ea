/**
 The token-bucket rate limiter shared by concurrent callers. Each pass through the lock is one step, so a
 run is any sequence of attempts and rate changes, in the order in which the lock was taken. Because the
 bucket's capacity equals its rate, the fraction of the bucket that is full obeys a law in which the rate
 does not occur, and that bounds admissions over any interval across any rate changes. Times and tokens
 are exact.
 */
module RateLimiting {
  import opened Reals

  datatype Bucket = Bucket(rate: real, capacity: real, tokens: real, last: real)

  datatype Event = Attempt(at: real) | SetRate(rate: real)

  ghost predicate Sane(b: Bucket) {
    b.rate > 0.0 && b.capacity == b.rate && 0.0 <= b.tokens <= b.capacity
  }

  function Refilled(b: Bucket, now: real): real {
    Min(b.capacity, b.tokens + (now - b.last) * b.rate)
  }

  predicate Admits(b: Bucket, now: real) {
    Refilled(b, now) >= 1.0
  }

  /** The bucket after one event. A rate that is not positive is refused and changes nothing. */
  function Next(b: Bucket, e: Event): Bucket {
    match e
    case Attempt(now) =>
      b.(tokens := Refilled(b, now) - (if Admits(b, now) then 1.0 else 0.0), last := now)
    case SetRate(rate) =>
      if rate <= 0.0 then b
      else
        var ratio := if b.capacity > 0.0 then b.tokens / b.capacity else 0.0;
        b.(rate := rate, capacity := rate, tokens := Min(rate, Max(0.0, ratio * rate)))
  }

  class RateLimiter {
    var rate: real
    var capacity: real
    var tokens: real
    var lastCheck: real

    function Contents(): Bucket
      reads this
    {
      Bucket(rate, capacity, tokens, lastCheck)
    }

    ghost predicate Valid()
      reads this
    {
      Sane(Contents())
    }

    constructor (initial: real, now: real)
      requires initial > 0.0
      ensures Valid() && Contents() == Bucket(initial, initial, initial, now)
    {
      rate := initial;
      capacity := initial;
      tokens := initial;
      lastCheck := now;
    }

    /** Construction refuses a rate that is not positive. */
    static method Create(initial: real, now: real) returns (limiter: RateLimiter?)
      ensures limiter == null <==> initial <= 0.0
      ensures limiter != null ==>
        fresh(limiter) && limiter.Valid() && limiter.Contents() == Bucket(initial, initial, initial, now)
    {
      if initial <= 0.0 {
        return null;
      }
      limiter := new RateLimiter(initial, now);
    }

    /** The part of a wait that holds the lock: admit, or say how long to sleep. */
    method TryAcquire(now: real) returns (admitted: bool, sleep: real)
      requires Valid() && lastCheck <= now
      modifies this
      ensures Valid() && Contents() == Next(old(Contents()), Attempt(now))
      ensures admitted == Admits(old(Contents()), now)
      ensures sleep == if admitted then 0.0 else (1.0 - tokens) / rate
    {
      NextIsSane(Contents(), Attempt(now));
      tokens := Min(capacity, tokens + (now - lastCheck) * rate);
      lastCheck := now;
      admitted, sleep := false, 0.0;
      if tokens >= 1.0 {
        tokens := tokens - 1.0;
        admitted := true;
      } else {
        sleep := (1.0 - tokens) / rate;
      }
    }

    method SetRate(newRate: real) returns (ok: bool)
      requires Valid()
      modifies this
      ensures Valid() && ok == (newRate > 0.0)
      ensures Contents() == Next(old(Contents()), Event.SetRate(newRate))
    {
      ghost var before := Contents();
      if newRate <= 0.0 {
        return false;
      }
      var ratio := if capacity > 0.0 then tokens / capacity else 0.0;
      rate := newRate;
      capacity := newRate;
      tokens := Min(capacity, Max(0.0, ratio * capacity));
      NextIsSane(before, Event.SetRate(newRate));
      ok := true;
    }

    /**
     A wait with nobody else at the limiter. `wake` is when a sleep until the given time ends, no earlier
     than asked. At a rate of at least 1 the caller is admitted after at most one sleep.
     */
    method Wait(now: real, wake: real -> real) returns (admittedAt: real, sleeps: nat)
      requires Valid() && lastCheck <= now && rate >= 1.0
      requires forall t :: t <= wake(t)
      modifies this
      ensures Valid() && rate == old(rate) && sleeps <= 1
      ensures sleeps == 0 <==> Admits(old(Contents()), now)
      ensures sleeps == 0 ==> admittedAt == now && Contents() == Next(old(Contents()), Attempt(now))
      ensures sleeps == 1 ==>
        var refused := Next(old(Contents()), Attempt(now));
        admittedAt == wake(now + (1.0 - refused.tokens) / refused.rate)
        && Admits(refused, admittedAt) && Contents() == Next(refused, Attempt(admittedAt))
    {
      sleeps := 0;
      admittedAt := now;
      while true
        invariant Valid() && rate == old(rate) && sleeps <= 1
        invariant lastCheck <= admittedAt
        invariant sleeps == 0 ==> admittedAt == now && Contents() == old(Contents())
        invariant sleeps == 1 ==> !Admits(old(Contents()), now) && Contents() == Next(old(Contents()), Attempt(now))
                                  && admittedAt == wake(now + (1.0 - tokens) / rate)
                                  && Admits(Contents(), admittedAt)
        decreases 2 - sleeps
      {
        var admitted, sleep := TryAcquire(admittedAt);
        if admitted {
          return;
        }
        assert sleeps == 0;
        SleepIsPositive(Contents());
        assert Max(0.0, sleep) == sleep;
        SleepIsEnough(Contents(), wake(admittedAt + Max(0.0, sleep)));
        admittedAt := wake(admittedAt + Max(0.0, sleep));
        sleeps := sleeps + 1;
      }
    }
  }

  // ---- steps ----

  lemma {:induction false} RatioBounds(tokens: real, capacity: real, rate: real)
    requires capacity > 0.0 && rate > 0.0 && 0.0 <= tokens <= capacity
    ensures 0.0 <= tokens / capacity <= 1.0
    ensures 0.0 <= tokens / capacity * rate <= rate
  {
    var ratio := tokens / capacity;
    assert ratio * capacity == tokens;
    if ratio < 0.0 { SignOfProduct(ratio, capacity); }
    if ratio > 1.0 { SignOfProduct(1.0 - ratio, capacity); }
    if ratio * rate > rate { SignOfProduct(ratio - 1.0, rate); }
  }

  lemma {:induction false} NextIsSane(b: Bucket, e: Event)
    requires Sane(b) && (e.Attempt? ==> b.last <= e.at)
    ensures Sane(Next(b, e))
  {
    match e
    case Attempt(now) =>
      var gain := (now - b.last) * b.rate;
      SignOfProduct(now - b.last, b.rate);
      assert Refilled(b, now) == Min(b.capacity, b.tokens + gain);
    case SetRate(rate) => if rate > 0.0 { RatioBounds(b.tokens, b.capacity, rate); }
  }

  lemma {:induction false} SleepIsPositive(b: Bucket)
    requires Sane(b) && b.tokens < 1.0
    ensures 0.0 <= (1.0 - b.tokens) / b.rate
  {
    QuotientAtLeast(1.0 - b.tokens, b.rate, 0.0);
  }

  /** After the sleep a refused caller is told to take, the bucket holds a token if it can hold one. */
  lemma {:induction false} SleepIsEnough(b: Bucket, now: real)
    requires Sane(b) && b.rate >= 1.0 && b.tokens < 1.0
    requires now >= b.last + (1.0 - b.tokens) / b.rate
    ensures b.last <= now && Admits(b, now)
  {
    var sleep := (1.0 - b.tokens) / b.rate;
    assert sleep * b.rate == 1.0 - b.tokens;
    SignOfProduct(sleep, b.rate);
    SignOfProduct(now - b.last - sleep, b.rate);
    assert (now - b.last) * b.rate == (now - b.last - sleep) * b.rate + sleep * b.rate;
  }

  /** Some later attempt would be admitted exactly when the rate is at least 1. */
  lemma {:induction false} AdmissibleExactly(b: Bucket)
    requires Sane(b)
    ensures (exists now :: b.last <= now && Admits(b, now)) <==> b.rate >= 1.0
  {
    if b.rate >= 1.0 {
      if b.tokens < 1.0 {
        var sleep := (1.0 - b.tokens) / b.rate;
        assert sleep * b.rate == 1.0 - b.tokens;
        SignOfProduct(sleep, b.rate);
        SleepIsEnough(b, b.last + sleep);
      } else {
        assert Admits(b, b.last);
      }
    }
  }

  // ---- runs ----

  function Fill(b: Bucket): real
    requires b.capacity > 0.0
  {
    b.tokens / b.capacity
  }

  /** What an event takes out of the bucket, as a fraction of it: one over the rate for an admission. */
  function Cost(b: Bucket, e: Event): real
    requires b.rate > 0.0
  {
    if e.Attempt? && Admits(b, e.at) then 1.0 / b.rate else 0.0
  }

  /** The law of the fill fraction: time adds itself, an admission takes its cost, a rate change does nothing. */
  lemma {:induction false} FillIsRateFree(b: Bucket, e: Event)
    requires Sane(b) && (e.Attempt? ==> b.last <= e.at)
    ensures Sane(Next(b, e)) && 0.0 <= Fill(Next(b, e)) <= 1.0
    ensures Fill(Next(b, e)) == match e
      case Attempt(now) => Min(1.0, Fill(b) + (now - b.last)) - Cost(b, e)
      case SetRate(rate) => Fill(b)
  {
    NextIsSane(b, e);
    var after := Next(b, e);
    RatioBounds(after.tokens, after.capacity, after.capacity);
    match e
    case Attempt(now) => RefillInFractions(b, now);
    case SetRate(rate) =>
      if rate > 0.0 {
        RatioBounds(b.tokens, b.capacity, rate);
        assert after.tokens == Fill(b) * rate;
        assert Fill(b) * rate / rate == Fill(b);
      }
  }

  lemma {:induction false} FractionOfRefill(tokens: real, rate: real, elapsed: real)
    requires rate > 0.0
    ensures Min(rate, tokens + elapsed * rate) / rate == Min(1.0, tokens / rate + elapsed)
  {
    var full := tokens / rate + elapsed;
    assert tokens / rate * rate == tokens;
    assert full * rate == tokens + elapsed * rate;
    SignOfProduct(1.0 - full, rate);
    assert (1.0 - full) * rate == rate - full * rate;
    Quotient(Min(rate, tokens + elapsed * rate), rate, Min(1.0, full));
  }

  lemma {:induction false} FractionAfterAdmission(tokens: real, rate: real)
    requires rate > 0.0
    ensures (tokens - 1.0) / rate == tokens / rate - 1.0 / rate
  {
    var q, cost := tokens / rate, 1.0 / rate;
    assert q * rate == tokens && cost * rate == 1.0;
    assert (q - cost) * rate == q * rate - cost * rate;
    Quotient(tokens - 1.0, rate, q - cost);
  }

  lemma {:induction false} RefillInFractions(b: Bucket, now: real)
    requires Sane(b) && b.last <= now
    ensures Refilled(b, now) / b.rate == Min(1.0, Fill(b) + (now - b.last))
    ensures Fill(Next(b, Attempt(now))) == Refilled(b, now) / b.rate - Cost(b, Attempt(now))
  {
    FractionOfRefill(b.tokens, b.rate, now - b.last);
    FractionAfterAdmission(Refilled(b, now), b.rate);
  }

  function After(b: Bucket, events: seq<Event>, n: nat): Bucket
    requires n <= |events|
  {
    if n == 0 then b else Next(After(b, events, n - 1), events[n - 1])
  }

  /** The clock read under the lock never goes back. */
  ghost predicate Timely(b: Bucket, events: seq<Event>) {
    forall i :: 0 <= i < |events| && events[i].Attempt? ==> After(b, events, i).last <= events[i].at
  }

  lemma {:induction false} RunStaysSane(b: Bucket, events: seq<Event>, n: nat)
    requires Sane(b) && Timely(b, events) && n <= |events|
    ensures Sane(After(b, events, n))
  {
    if n > 0 {
      RunStaysSane(b, events, n - 1);
      NextIsSane(After(b, events, n - 1), events[n - 1]);
    }
  }

  ghost function Spent(b: Bucket, events: seq<Event>, n: nat): real
    requires n <= |events|
  {
    if n == 0 then 0.0
    else
      var now := After(b, events, n - 1);
      Spent(b, events, n - 1) + if now.rate > 0.0 then Cost(now, events[n - 1]) else 0.0
  }

  function Admitted(b: Bucket, events: seq<Event>, n: nat): nat
    requires n <= |events|
  {
    if n == 0 then 0
    else
      Admitted(b, events, n - 1)
      + if events[n - 1].Attempt? && Admits(After(b, events, n - 1), events[n - 1].at) then 1 else 0
  }

  ghost predicate Within(events: seq<Event>, start: real, end: real) {
    forall i :: 0 <= i < |events| && events[i].Attempt? ==> start <= events[i].at <= end
  }

  /** What was spent and what is left fit the interval so far, and nothing was spent outside it. */
  ghost predicate Fits(start: real, end: real, spent: real, fill: real, last: real) {
    spent + fill <= 1.0 + Max(0.0, last - start) && (spent != 0.0 ==> start <= last <= end)
  }

  lemma {:induction false} AttemptFits(start: real, end: real, spent: real, fill: real, last: real, now: real,
                                       cost: real, fill': real)
    requires Fits(start, end, spent, fill, last) && last <= now && start <= now <= end
    requires fill' == Min(1.0, fill + (now - last)) - cost
    ensures Fits(start, end, spent + cost, fill', now)
  {
  }

  lemma {:induction false} SpendingFits(b: Bucket, events: seq<Event>, start: real, end: real, n: nat)
    requires Sane(b) && Timely(b, events) && Within(events, start, end) && n <= |events|
    ensures Sane(After(b, events, n))
    ensures Fits(start, end, Spent(b, events, n), Fill(After(b, events, n)), After(b, events, n).last)
  {
    if n == 0 {
      RatioBounds(b.tokens, b.capacity, b.capacity);
    } else {
      SpendingFits(b, events, start, end, n - 1);
      var now, e := After(b, events, n - 1), events[n - 1];
      FillIsRateFree(now, e);
      if e.Attempt? {
        AttemptFits(start, end, Spent(b, events, n - 1), Fill(now), now.last, e.at, Cost(now, e), Fill(Next(now, e)));
      }
    }
  }

  /**
   In any interleaving of attempts and rate changes, from any state, the admissions of an interval of
   length T have costs 1/rate that sum to at most 1 + T.
   */
  lemma {:induction false} AdmissionBound(b: Bucket, events: seq<Event>, start: real, end: real)
    requires Sane(b) && Timely(b, events) && start <= end && Within(events, start, end)
    ensures Spent(b, events, |events|) <= 1.0 + (end - start)
  {
    SpendingFits(b, events, start, end, |events|);
    var after := After(b, events, |events|);
    RatioBounds(after.tokens, after.capacity, after.capacity);
  }

  ghost predicate RatesAtMost(b: Bucket, events: seq<Event>, top: real) {
    b.rate <= top && forall i :: 0 <= i < |events| && events[i].SetRate? ==> events[i].rate <= top
  }

  lemma {:induction false} Reciprocal(rate: real, top: real)
    requires 0.0 < rate <= top
    ensures 1.0 / top <= 1.0 / rate
  {
    var r, t := 1.0 / rate, 1.0 / top;
    assert r * rate == 1.0 && t * top == 1.0;
    SignOfProduct(t, top);
    SignOfProduct(top - rate, t);
    assert (top - rate) * t == t * top - t * rate;
    SignOfProduct(r - t, rate);
    assert (r - t) * rate == r * rate - t * rate;
  }

  lemma {:induction false} CountOneMore(count: nat, top: real, rate: real, spent: real)
    requires 0.0 < rate <= top && Repeated(count, 1.0 / top) <= spent
    ensures Repeated(count + 1, 1.0 / top) <= spent + 1.0 / rate
  {
    Reciprocal(rate, top);
  }

  lemma {:induction false} CountedBySpending(b: Bucket, events: seq<Event>, top: real, n: nat)
    requires Sane(b) && Timely(b, events) && RatesAtMost(b, events, top) && n <= |events|
    ensures After(b, events, n).rate <= top
    ensures Repeated(Admitted(b, events, n), 1.0 / top) <= Spent(b, events, n)
  {
    if n > 0 {
      CountedBySpending(b, events, top, n - 1);
      RunStaysSane(b, events, n - 1);
      CountOneMore(Admitted(b, events, n - 1), top, After(b, events, n - 1).rate, Spent(b, events, n - 1));
    }
  }

  lemma {:induction false} CountFromCost(n: nat, top: real, length: real)
    requires 0.0 < top && Repeated(n, 1.0 / top) <= 1.0 + length
    ensures n as real <= top * (1.0 + length)
  {
    var cost, count, total := 1.0 / top, n as real, 1.0 + length;
    RepeatedIsProduct(n, cost);
    assert cost * top == 1.0;
    assert (count * cost) * top == count * (cost * top);
    SignOfProduct(total - count * cost, top);
    assert (total - count * cost) * top == total * top - (count * cost) * top;
  }

  lemma {:induction false} SpendingCounts(n: nat, spent: real, top: real, length: real)
    requires 0.0 < top && Repeated(n, 1.0 / top) <= spent <= 1.0 + length
    ensures n as real <= top * (1.0 + length)
  {
    CountFromCost(n, top, length);
  }

  /** While every rate is at most R, at most R * (1 + T) requests are admitted in an interval of length T. */
  lemma {:induction false} RequestBound(b: Bucket, events: seq<Event>, start: real, length: real, top: real)
    requires Sane(b) && Timely(b, events) && 0.0 <= length && Within(events, start, start + length)
    requires RatesAtMost(b, events, top)
    ensures Admitted(b, events, |events|) as real <= top * (1.0 + length)
  {
    AdmissionBound(b, events, start, start + length);
    CountedBySpending(b, events, top, |events|);
    SpendingCounts(Admitted(b, events, |events|), Spent(b, events, |events|), top, length);
  }

  /** A run of `burst` attempts at once, then `paced` attempts one step apart. */
  function Saturating(step: real, start: real, burst: nat, paced: nat): seq<Event>
    decreases burst + paced
  {
    if paced > 0 then Saturating(step, start, burst, paced - 1) + [Attempt(start + Repeated(paced, step))]
    else if burst > 0 then Saturating(step, start, burst - 1, 0) + [Attempt(start)]
    else []
  }

  lemma {:induction false} AfterPrefix(b: Bucket, events: seq<Event>, more: seq<Event>, n: nat)
    requires n <= |events|
    ensures After(b, events + more, n) == After(b, events, n)
    ensures Admitted(b, events + more, n) == Admitted(b, events, n)
  {
    if n > 0 { AfterPrefix(b, events, more, n - 1); }
  }

  lemma {:induction false} TimelyOneMore(b: Bucket, events: seq<Event>, e: Event)
    requires Timely(b, events) && (e.Attempt? ==> After(b, events, |events|).last <= e.at)
    ensures Timely(b, events + [e])
  {
    var more := events + [e];
    forall i | 0 <= i < |more| && more[i].Attempt? ensures After(b, more, i).last <= more[i].at {
      AfterPrefix(b, events, [e], i);
    }
  }

  /** An attempt is admitted exactly when the refilled fraction covers its cost. */
  lemma {:induction false} AdmitsByFill(b: Bucket, now: real)
    requires Sane(b) && b.last <= now
    ensures Admits(b, now) <==> 1.0 / b.rate <= Min(1.0, Fill(b) + (now - b.last))
  {
    RefillInFractions(b, now);
    var filled, cost := Refilled(b, now) / b.rate, 1.0 / b.rate;
    assert filled * b.rate == Refilled(b, now) && cost * b.rate == 1.0;
    SignOfProduct(filled - cost, b.rate);
    assert (filled - cost) * b.rate == filled * b.rate - cost * b.rate;
  }

  /** The run is timely, all of it is admitted, and this fraction is left in the bucket. */
  ghost predicate AllAdmitted(b: Bucket, events: seq<Event>, fill: real, last: real) {
    var after := After(b, events, |events|);
    && Timely(b, events) && Admitted(b, events, |events|) == |events|
    && Sane(after) && after.rate == b.rate && Fill(after) == fill && after.last == last
  }

  lemma {:induction false} OneMoreAdmitted(b: Bucket, events: seq<Event>, fill: real, last: real, now: real)
    requires b.rate > 0.0 && AllAdmitted(b, events, fill, last) && last <= now
    requires 1.0 / b.rate <= fill + (now - last) <= 1.0
    ensures AllAdmitted(b, events + [Attempt(now)], fill + (now - last) - 1.0 / b.rate, now)
  {
    var after := After(b, events, |events|);
    FillIsRateFree(after, Attempt(now));
    AdmitsByFill(after, now);
    AfterPrefix(b, events, [Attempt(now)], |events|);
    TimelyOneMore(b, events, Attempt(now));
    assert (events + [Attempt(now)])[|events|] == Attempt(now);
  }

  function Full(rate: real, start: real): Bucket {
    Bucket(rate, rate, rate, start)
  }

  lemma {:induction false} WholeBucket(rate: nat)
    requires 0 < rate
    ensures Repeated(rate, 1.0 / rate as real) == 1.0
  {
    RepeatedIsProduct(rate, 1.0 / rate as real);
    assert rate as real * (1.0 / rate as real) == 1.0;
  }

  lemma {:induction false} CostIsPositive(rate: real)
    requires 0.0 < rate
    ensures 0.0 < 1.0 / rate
  {
    var cost := 1.0 / rate;
    assert cost * rate == 1.0;
    SignOfProduct(cost, rate);
  }

  lemma {:induction false} BurstStep(b: Bucket, before: seq<Event>, left: real, at: real)
    requires b.rate > 0.0 && 0.0 <= left && left + 1.0 / b.rate <= 1.0
    requires AllAdmitted(b, before, left + 1.0 / b.rate, at)
    ensures AllAdmitted(b, before + [Attempt(at)], left, at)
  {
    OneMoreAdmitted(b, before, left + 1.0 / b.rate, at, at);
  }

  lemma {:induction false} PacedStep(b: Bucket, before: seq<Event>, last: real)
    requires b.rate > 0.0 && 0.0 <= 1.0 / b.rate <= 1.0 && AllAdmitted(b, before, 0.0, last)
    ensures AllAdmitted(b, before + [Attempt(last + 1.0 / b.rate)], 0.0, last + 1.0 / b.rate)
  {
    OneMoreAdmitted(b, before, 0.0, last, last + 1.0 / b.rate);
  }

  lemma {:induction false} BurstIsAdmitted(rate: nat, start: real, burst: nat)
    requires 0 < rate && burst <= rate
    ensures |Saturating(1.0 / rate as real, start, burst, 0)| == burst
    ensures AllAdmitted(Full(rate as real, start), Saturating(1.0 / rate as real, start, burst, 0),
                        Repeated(rate - burst, 1.0 / rate as real), start)
  {
    var cost := 1.0 / rate as real;
    WholeBucket(rate);
    if burst == 0 {
      Quotient(rate as real, rate as real, 1.0);
    } else {
      BurstIsAdmitted(rate, start, burst - 1);
      CostIsPositive(rate as real);
      RepeatedGrows(rate - burst, rate - burst, cost);
      RepeatedGrows(rate - burst + 1, rate, cost);
      BurstStep(Full(rate as real, start), Saturating(cost, start, burst - 1, 0), Repeated(rate - burst, cost), start);
    }
  }

  /** A full bucket of whole rate admits the whole saturating run. */
  lemma {:induction false} CostIsAtMostOne(rate: nat)
    requires 0 < rate
    ensures 0.0 < 1.0 / rate as real <= 1.0
  {
    CostIsPositive(rate as real);
    WholeBucket(rate);
    RepeatedGrows(1, rate, 1.0 / rate as real);
    assert Repeated(1, 1.0 / rate as real) == Repeated(0, 1.0 / rate as real) + 1.0 / rate as real;
  }

  lemma {:induction false} SaturatingIsAdmitted(rate: nat, start: real, paced: nat)
    requires 0 < rate
    ensures |Saturating(1.0 / rate as real, start, rate, paced)| == rate + paced
    ensures AllAdmitted(Full(rate as real, start), Saturating(1.0 / rate as real, start, rate, paced),
                        0.0, start + Repeated(paced, 1.0 / rate as real))
  {
    if paced == 0 {
      BurstIsAdmitted(rate, start, rate);
    } else {
      var cost := 1.0 / rate as real;
      SaturatingIsAdmitted(rate, start, paced - 1);
      CostIsAtMostOne(rate);
      PacedStep(Full(rate as real, start), Saturating(cost, start, rate, paced - 1), start + Repeated(paced - 1, cost));
    }
  }

  lemma {:induction false} SaturatingIsWithin(step: real, start: real, burst: nat, paced: nat)
    requires 0.0 <= step
    ensures Within(Saturating(step, start, burst, paced), start, start + Repeated(paced, step))
    ensures forall i :: 0 <= i < |Saturating(step, start, burst, paced)| ==>
        Saturating(step, start, burst, paced)[i].Attempt?
    decreases burst + paced
  {
    RepeatedGrows(0, paced, step);
    if paced > 0 {
      SaturatingIsWithin(step, start, burst, paced - 1);
    } else if burst > 0 {
      SaturatingIsWithin(step, start, burst - 1, 0);
    }
  }

  lemma {:induction false} SaturatedCount(rate: nat, paced: nat)
    requires 0 < rate
    ensures (rate + paced) as real == rate as real * (1.0 + Repeated(paced, 1.0 / rate as real))
  {
    var cost, r, p := 1.0 / rate as real, rate as real, paced as real;
    RepeatedIsProduct(paced, cost);
    assert cost * r == 1.0;
    assert (p * cost) * r == p * (cost * r);
    assert r * (1.0 + p * cost) == r + (p * cost) * r;
  }

  /** The bound is met: for every whole rate R, runs of length T = paced / R exist that admit R * (1 + T). */
  lemma {:induction false} BoundIsMet(rate: nat, start: real, paced: nat)
    requires 0 < rate
    ensures var b, events := Full(rate as real, start), Saturating(1.0 / rate as real, start, rate, paced);
      Timely(b, events) && RatesAtMost(b, events, rate as real)
      && Within(events, start, start + Repeated(paced, 1.0 / rate as real))
    ensures Admitted(Full(rate as real, start), Saturating(1.0 / rate as real, start, rate, paced),
                     |Saturating(1.0 / rate as real, start, rate, paced)|) as real
         == rate as real * (1.0 + Repeated(paced, 1.0 / rate as real))
  {
    SaturatingIsAdmitted(rate, start, paced);
    CostIsPositive(rate as real);
    SaturatingIsWithin(1.0 / rate as real, start, rate, paced);
    SaturatedCount(rate, paced);
  }

  /** While the rate stays below 1 the bucket never holds a token, and nobody is ever admitted. */
  lemma {:induction false} SlowRateStarves(b: Bucket, events: seq<Event>, n: nat)
    requires Sane(b) && Timely(b, events) && n <= |events|
    requires b.rate < 1.0 && forall i :: 0 <= i < |events| && events[i].SetRate? ==> events[i].rate < 1.0
    ensures After(b, events, n).capacity == After(b, events, n).rate < 1.0
    ensures Admitted(b, events, n) == 0
  {
    if n > 0 {
      SlowRateStarves(b, events, n - 1);
      RunStaysSane(b, events, n - 1);
    }
  }
}

/**
 The guardrail that watches a long job for lack of progress. Recording progress, checking and taking a
 snapshot each run under one lock, so a run is any sequence of the three; emitting a log line takes one
 more snapshot, which is one more step. The results count the soft warnings against the idle time, say
 exactly when a check raises, and identify the maximum idle time with a maximum over the run. Times are
 exact seconds.
 */
module ProgressGuardrails {
  import opened Wrappers
  import opened Reals

  datatype Config = Config(interval: int, soft: Option<int>, hard: Option<int>, workInterval: Option<int>)

  /** What construction accepts; anything else raises. */
  predicate Accepts(c: Config) {
    && c.interval > 0
    && (c.workInterval.Some? ==> c.workInterval.value > 0)
    && (c.soft.Some? ==> c.soft.value > 0)
    && (c.hard.Some? ==> c.hard.value > 0)
    && (c.soft.Some? && c.hard.Some? ==> c.hard.value > c.soft.value)
  }

  datatype State = State(
    lastProgress: real, lastHeartbeat: real, lastLoggedWork: int, work: int,
    warnings: nat, maxIdle: real, nextWarning: Option<real>)

  datatype Event = Progress(at: real, increment: int, force: bool) | Check(at: real) | Snapshot(at: real)

  /** What a check reports: it raises, warns, logs a heartbeat, or stays silent. */
  datatype Report = HardTimeout | SoftWarning | Heartbeat | Quiet

  function Idle(s: State, now: real): real {
    Max(0.0, now - s.lastProgress)
  }

  function FirstWarning(c: Config): Option<real> {
    if c.soft.Some? then Some(c.soft.value as real) else None
  }

  predicate Warns(s: State, now: real) {
    s.nextWarning.Some? && Idle(s, now) >= s.nextWarning.value
  }

  predicate Fails(c: Config, s: State, now: real) {
    c.hard.Some? && Idle(s, now) >= c.hard.value as real
  }

  function Total(s: State, increment: int): int {
    s.work + if increment > 0 then increment else 0
  }

  predicate LogsProgress(c: Config, s: State, now: real, increment: int, force: bool) {
    || force
    || (c.workInterval.Some? && Total(s, increment) - s.lastLoggedWork >= c.workInterval.value)
    || now - s.lastHeartbeat >= c.interval as real
  }

  /** A failing check has already moved the heartbeat to now, so it is not due. */
  predicate BeatIsDue(c: Config, s: State, now: real) {
    !Fails(c, s, now) && now - s.lastHeartbeat >= c.interval as real
  }

  function Next(c: Config, s: State, e: Event): State {
    match e
    case Progress(now, increment, force) =>
      var work, log := Total(s, increment), LogsProgress(c, s, now, increment, force);
      State(now, if log then now else s.lastHeartbeat, if log then work else s.lastLoggedWork, work,
            s.warnings, Max(s.maxIdle, Idle(s, now)), FirstWarning(c))
    case Check(now) =>
      s.(maxIdle := Max(s.maxIdle, Idle(s, now)),
         warnings := s.warnings + if Warns(s, now) then 1 else 0,
         nextWarning :=
           if Warns(s, now) && c.soft.Some? then Some(s.nextWarning.value + c.soft.value as real) else s.nextWarning,
         lastHeartbeat := if Fails(c, s, now) || BeatIsDue(c, s, now) then now else s.lastHeartbeat)
    case Snapshot(now) =>
      s.(maxIdle := Max(s.maxIdle, Idle(s, now)))
  }

  function Reported(c: Config, s: State, now: real): Report {
    if Fails(c, s, now) then HardTimeout
    else if Warns(s, now) then SoftWarning
    else if BeatIsDue(c, s, now) then Heartbeat
    else Quiet
  }

  function Start(c: Config, now: real): State {
    State(now, now, 0, 0, 0, 0.0, FirstWarning(c))
  }

  class ProgressGuardrail {
    const config: Config
    var lastProgress: real
    var lastHeartbeat: real
    var lastLoggedWork: int
    var work: int
    var warnings: nat
    var maxIdle: real
    var nextWarning: Option<real>

    function Contents(): State
      reads this
    {
      State(lastProgress, lastHeartbeat, lastLoggedWork, work, warnings, maxIdle, nextWarning)
    }

    ghost predicate Valid()
      reads this
    {
      Accepts(config) && (nextWarning.Some? <==> config.soft.Some?)
    }

    constructor (config: Config, now: real)
      requires Accepts(config)
      ensures Valid() && this.config == config && Contents() == Start(config, now)
    {
      this.config := config;
      lastProgress := now;
      lastHeartbeat := now;
      lastLoggedWork := 0;
      work := 0;
      warnings := 0;
      maxIdle := 0.0;
      nextWarning := if config.soft.Some? then Some(config.soft.value as real) else None;
    }

    /** Construction refuses limits that are not positive, or a hard limit not above the soft one. */
    static method Create(config: Config, now: real) returns (guardrail: ProgressGuardrail?)
      ensures guardrail == null <==>
        config.interval <= 0 || config.workInterval.GetOr(1) <= 0
        || config.soft.GetOr(1) <= 0 || config.hard.GetOr(1) <= 0
        || (config.soft.Some? && config.hard.Some? && config.hard.value <= config.soft.value)
      ensures guardrail != null ==>
        fresh(guardrail) && guardrail.Valid() && guardrail.config == config
            && guardrail.Contents() == Start(config, now)
    {
      if !Accepts(config) {
        return null;
      }
      guardrail := new ProgressGuardrail(config, now);
    }

    method RecordProgress(now: real, increment: int, force: bool) returns (log: bool)
      requires Valid()
      modifies this
      ensures Valid() && Contents() == Next(config, old(Contents()), Progress(now, increment, force))
      ensures log == LogsProgress(config, old(Contents()), now, increment, force)
    {
      maxIdle := Max(maxIdle, Max(0.0, now - lastProgress));
      lastProgress := now;
      work := work + if increment > 0 then increment else 0;
      nextWarning := if config.soft.Some? then Some(config.soft.value as real) else None;
      log := force;
      if !log && config.workInterval.Some? && work - lastLoggedWork >= config.workInterval.value {
        log := true;
      }
      if !log && now - lastHeartbeat >= config.interval as real {
        log := true;
      }
      if log {
        lastHeartbeat := now;
        lastLoggedWork := work;
      }
    }

    method Check(now: real) returns (report: Report)
      requires Valid()
      modifies this
      ensures Valid() && Contents() == Next(config, old(Contents()), Event.Check(now))
      ensures report == Reported(config, old(Contents()), now)
    {
      var warn, fail, beat := false, false, false;
      var idle := Max(0.0, now - lastProgress);
      maxIdle := Max(maxIdle, idle);
      if nextWarning.Some? && idle >= nextWarning.value {
        warn := true;
        warnings := warnings + 1;
        nextWarning := Some(nextWarning.value + config.soft.value as real);
      }
      if config.hard.Some? && idle >= config.hard.value as real {
        fail := true;
        lastHeartbeat := now;
      }
      if now - lastHeartbeat >= config.interval as real {
        beat := true;
        lastHeartbeat := now;
      }
      report := if fail then HardTimeout else if warn then SoftWarning else if beat then Heartbeat else Quiet;
    }

    method Snapshot(now: real) returns (idle: real, longest: real)
      modifies this
      ensures Contents() == Next(config, old(Contents()), Event.Snapshot(now))
      ensures idle == Idle(old(Contents()), now) && longest == maxIdle
    {
      idle := Max(0.0, now - lastProgress);
      maxIdle := Max(maxIdle, idle);
      longest := maxIdle;
    }
  }

  // ---- runs ----

  function After(c: Config, s: State, events: seq<Event>, n: nat): State
    requires n <= |events|
  {
    if n == 0 then s else Next(c, After(c, s, events, n - 1), events[n - 1])
  }

  /** The time of the last progress among the first n events. */
  function ProgressTime(start: real, events: seq<Event>, n: nat): real
    requires n <= |events|
  {
    if n == 0 then start
    else if events[n - 1].Progress? then events[n - 1].at
    else ProgressTime(start, events, n - 1)
  }

  function IdleAt(start: real, events: seq<Event>, i: nat): real
    requires i < |events|
  {
    Max(0.0, events[i].at - ProgressTime(start, events, i))
  }

  /** How many checks since the last progress counted a warning. */
  function WarningsSince(c: Config, start: real, events: seq<Event>, n: nat): nat
    requires n <= |events|
  {
    if n == 0 || events[n - 1].Progress? then 0
    else
      var before := After(c, Start(c, start), events, n - 1);
      WarningsSince(c, start, events, n - 1) + if events[n - 1].Check? && Warns(before, events[n - 1].at) then 1 else 0
  }

  /** The clock never goes back. */
  ghost predicate Timely(start: real, events: seq<Event>) {
    && (forall i :: 0 <= i < |events| ==> start <= events[i].at)
    && (forall i, j :: 0 <= i < j < |events| ==> events[i].at <= events[j].at)
  }

  lemma {:induction false} TracksProgress(c: Config, start: real, events: seq<Event>, n: nat)
    requires n <= |events|
    ensures After(c, Start(c, start), events, n).lastProgress == ProgressTime(start, events, n)
    ensures n < |events| ==> Idle(After(c, Start(c, start), events, n), events[n].at) == IdleAt(start, events, n)
  {
    if n > 0 { TracksProgress(c, start, events, n - 1); }
  }

  /** The next warning is due one soft limit after the ones already counted. */
  lemma {:induction false} NextWarningIsDue(c: Config, start: real, events: seq<Event>, n: nat)
    requires Accepts(c) && n <= |events|
    ensures After(c, Start(c, start), events, n).nextWarning ==
      if c.soft.Some? then Some(Repeated(WarningsSince(c, start, events, n) + 1, c.soft.value as real)) else None
  {
    if n > 0 {
      NextWarningIsDue(c, start, events, n - 1);
    }
    if c.soft.Some? {
      assert Repeated(1, c.soft.value as real) == Repeated(0, c.soft.value as real) + c.soft.value as real;
    }
  }

  lemma {:induction false} ProgressTimeIsPast(start: real, events: seq<Event>, n: nat)
    requires Timely(start, events) && n <= |events|
    ensures start <= ProgressTime(start, events, n)
    ensures forall i :: n <= i < |events| ==> ProgressTime(start, events, n) <= events[i].at
  {
    if n > 0 { ProgressTimeIsPast(start, events, n - 1); }
  }

  /** Soft warnings counted since the last progress never exceed idle / soft, at every event of every run. */
  lemma {:induction false} WarningsFitIdleTime(c: Config, start: real, events: seq<Event>, n: nat)
    requires Accepts(c) && c.soft.Some? && Timely(start, events) && 0 < n <= |events|
    ensures Repeated(WarningsSince(c, start, events, n), c.soft.value as real)
         <= Max(0.0, events[n - 1].at - ProgressTime(start, events, n))
  {
    var e := events[n - 1];
    if !e.Progress? {
      TracksProgress(c, start, events, n - 1);
      NextWarningIsDue(c, start, events, n - 1);
      if n > 1 {
        WarningsFitIdleTime(c, start, events, n - 1);
        ProgressTimeIsPast(start, events, n - 1);
        assert events[n - 2].at <= events[n - 1].at;
      }
    }
  }

  /** From the start, from each progress and from each check, the next check comes within the given gap. */
  ghost predicate ChecksWithin(start: real, events: seq<Event>, gap: real) {
    forall i :: 0 <= i < |events| && events[i].Check? ==> events[i].at <= LastLook(start, events, i) + gap
  }

  /** The time of the last progress or check among the first n events. */
  function LastLook(start: real, events: seq<Event>, n: nat): real
    requires n <= |events|
  {
    if n == 0 then start
    else if events[n - 1].Snapshot? then LastLook(start, events, n - 1)
    else events[n - 1].at
  }

  lemma {:induction false} LastLookIsPast(start: real, events: seq<Event>, n: nat)
    requires Timely(start, events) && n <= |events|
    ensures forall i :: n <= i < |events| ==> LastLook(start, events, n) <= events[i].at
  {
    if n > 0 { LastLookIsPast(start, events, n - 1); }
  }

  /** Between looks, the warnings counted are the most the idle time at the last look allows. */
  lemma {:induction false} WarningsKeepUp(c: Config, start: real, events: seq<Event>, n: nat)
    requires Accepts(c) && c.soft.Some? && Timely(start, events) && n <= |events|
    requires ChecksWithin(start, events, c.soft.value as real)
    ensures var idle, w := LastLook(start, events, n) - ProgressTime(start, events, n),
        WarningsSince(c, start, events, n);
      0.0 <= idle && Repeated(w, c.soft.value as real) <= idle < Repeated(w + 1, c.soft.value as real)
  {
    if n > 0 {
      WarningsKeepUp(c, start, events, n - 1);
      TracksProgress(c, start, events, n - 1);
      NextWarningIsDue(c, start, events, n - 1);
      ProgressTimeIsPast(start, events, n - 1);
      LastLookIsPast(start, events, n - 1);
    }
    assert Repeated(1, c.soft.value as real) == Repeated(0, c.soft.value as real) + c.soft.value as real;
  }

  lemma {:induction false} FloorOfQuotient(w: nat, soft: real, idle: real)
    requires soft > 0.0 && Repeated(w, soft) <= idle < Repeated(w + 1, soft)
    ensures (idle / soft).Floor == w
  {
    RepeatedIsProduct(w, soft);
    RepeatedIsProduct(w + 1, soft);
    assert (w + 1) as real == w as real + 1.0;
    QuotientAtLeast(idle, soft, w as real);
    QuotientBelow(idle, soft, w as real + 1.0);
  }

  /** With checks at most one soft limit apart, each check leaves exactly floor(idle / soft) warnings counted. */
  lemma {:induction false} WarningsAreExact(c: Config, start: real, events: seq<Event>, n: nat)
    requires Accepts(c) && c.soft.Some? && Timely(start, events) && 0 < n <= |events| && events[n - 1].Check?
    requires ChecksWithin(start, events, c.soft.value as real)
    ensures WarningsSince(c, start, events, n) == (IdleAt(start, events, n - 1) / c.soft.value as real).Floor
  {
    WarningsKeepUp(c, start, events, n);
    FloorOfQuotient(WarningsSince(c, start, events, n), c.soft.value as real, IdleAt(start, events, n - 1));
  }

  /**
   A check raises exactly when the idle time has reached the hard limit, and when both limits are set
   at least one warning has then been counted since the last progress, by this check at the latest.
   */
  lemma {:induction false} RaisesExactly(c: Config, start: real, events: seq<Event>, n: nat)
    requires Accepts(c) && n < |events| && events[n].Check?
    ensures Reported(c, After(c, Start(c, start), events, n), events[n].at).HardTimeout? <==>
            c.hard.Some? && IdleAt(start, events, n) >= c.hard.value as real
    ensures Reported(c, After(c, Start(c, start), events, n), events[n].at).HardTimeout? && c.soft.Some? ==>
            WarningsSince(c, start, events, n + 1) >= 1
  {
    TracksProgress(c, start, events, n);
    NextWarningIsDue(c, start, events, n);
    if c.soft.Some? {
      assert Repeated(1, c.soft.value as real) == Repeated(0, c.soft.value as real) + c.soft.value as real;
    }
  }

  /** The maximum idle time is the greatest idle time seen by any event so far, and 0 at first. */
  lemma {:induction false} MaxIdleIsTheMaximum(c: Config, start: real, events: seq<Event>, n: nat)
    requires n <= |events|
    ensures var longest := After(c, Start(c, start), events, n).maxIdle;
      (forall i :: 0 <= i < n ==> IdleAt(start, events, i) <= longest)
      && (longest == 0.0 || exists i :: 0 <= i < n && IdleAt(start, events, i) == longest)
  {
    if n > 0 {
      MaxIdleIsTheMaximum(c, start, events, n - 1);
      TracksProgress(c, start, events, n - 1);
    }
  }

  /** The event wrote, or was meant to write, a progress or heartbeat line. */
  ghost predicate Marks(c: Config, s: State, e: Event) {
    match e
    case Progress(now, increment, force) => LogsProgress(c, s, now, increment, force)
    case Check(now) => Fails(c, s, now) || BeatIsDue(c, s, now)
    case Snapshot(_) => false
  }

  lemma {:induction false} HeartbeatNeverEarly(c: Config, start: real, events: seq<Event>, i: nat, n: nat)
    requires Timely(start, events) && i < n <= |events|
    requires Marks(c, After(c, Start(c, start), events, i), events[i])
    ensures events[i].at <= After(c, Start(c, start), events, n).lastHeartbeat
  {
    if i < n - 1 {
      HeartbeatNeverEarly(c, start, events, i, n - 1);
      HeartbeatIsPast(c, start, events, n - 1);
    }
  }

  lemma {:induction false} HeartbeatIsPast(c: Config, start: real, events: seq<Event>, n: nat)
    requires Timely(start, events) && n <= |events|
    ensures forall i :: n <= i < |events| ==> After(c, Start(c, start), events, n).lastHeartbeat <= events[i].at
  {
    if n > 0 { HeartbeatIsPast(c, start, events, n - 1); }
  }

  /** A heartbeat comes at least one interval after every earlier progress line, heartbeat and failure. */
  lemma {:induction false} HeartbeatsAreSpaced(c: Config, start: real, events: seq<Event>, i: nat, n: nat)
    requires Timely(start, events) && i < n < |events| && events[n].Check?
    requires Marks(c, After(c, Start(c, start), events, i), events[i])
    requires Reported(c, After(c, Start(c, start), events, n), events[n].at).Heartbeat?
    ensures events[n].at - events[i].at >= c.interval as real
  {
    HeartbeatNeverEarly(c, start, events, i, n);
  }

  /** After every event less than one work interval of completed work is unlogged. */
  lemma {:induction false} UnloggedWorkIsBounded(c: Config, start: real, events: seq<Event>, n: nat)
    requires Accepts(c) && c.workInterval.Some? && n <= |events|
    ensures var s := After(c, Start(c, start), events, n); 0 <= s.work - s.lastLoggedWork < c.workInterval.value
  {
    if n > 0 { UnloggedWorkIsBounded(c, start, events, n - 1); }
  }

  // ---- warnings counted and warnings emitted ----

  function Emitted(c: Config, start: real, events: seq<Event>, n: nat): nat
    requires n <= |events|
  {
    if n == 0 then 0
    else
      var before := After(c, Start(c, start), events, n - 1);
      Emitted(c, start, events, n - 1)
      + if events[n - 1].Check? && Reported(c, before, events[n - 1].at) == SoftWarning then 1 else 0
  }

  /** Checks that raise although a warning was due. */
  function Swallowed(c: Config, start: real, events: seq<Event>, n: nat): nat
    requires n <= |events|
  {
    if n == 0 then 0
    else
      var before := After(c, Start(c, start), events, n - 1);
      Swallowed(c, start, events, n - 1)
      + if events[n - 1].Check? && Warns(before, events[n - 1].at) && Fails(c, before, events[n - 1].at) then 1 else 0
  }

  /** Every warning counted is emitted, except those due at a check that raises. */
  lemma {:induction false} CountedWarningsAreEmittedOrSwallowed(c: Config, start: real, events: seq<Event>, n: nat)
    requires n <= |events|
    ensures After(c, Start(c, start), events, n).warnings
        == Emitted(c, start, events, n) + Swallowed(c, start, events, n)
  {
    if n > 0 { CountedWarningsAreEmittedOrSwallowed(c, start, events, n - 1); }
  }

  // ---- the reports, from the run's events alone ----

  /** Work done by the first n events: increments that are not positive count as none. */
  function WorkDone(events: seq<Event>, n: nat): int
    requires n <= |events|
  {
    if n == 0 then 0
    else match events[n - 1]
         case Progress(_, increment, _) => WorkDone(events, n - 1) + if increment <= 0 then 0 else increment
         case _ => WorkDone(events, n - 1)
  }

  /** What is on record: when the last mark was made, and the work that the last progress line showed. */
  datatype Mark = Mark(at: real, work: int)

  /** At least one interval has gone by. */
  predicate IsOverdue(c: Config, mark: Mark, now: real) {
    mark.at + c.interval as real <= now
  }

  /** The n-th event, a progress, writes a line. */
  predicate WritesLine(c: Config, start: real, events: seq<Event>, n: nat)
    requires n < |events| && events[n].Progress?
    decreases n, 1
  {
    var mark := LastMark(c, start, events, n);
    events[n].force || IsOverdue(c, mark, events[n].at)
    || (c.workInterval.Some? && mark.work + c.workInterval.value <= WorkDone(events, n + 1))
  }

  /** The idle time has reached a limit. */
  predicate HasReached(start: real, events: seq<Event>, n: nat, limit: Option<int>)
    requires n < |events|
  {
    limit.Some? && ProgressTime(start, events, n) + limit.value as real <= events[n].at
  }

  /** The latest progress line, heartbeat or failure among the first n events; the start counts as one. */
  function LastMark(c: Config, start: real, events: seq<Event>, n: nat): Mark
    requires n <= |events|
    decreases n, 0
  {
    if n == 0 then Mark(start, 0)
    else
      var mark := LastMark(c, start, events, n - 1);
      match events[n - 1]
      case Progress(now, _, _) => if WritesLine(c, start, events, n - 1) then Mark(now, WorkDone(events, n)) else mark
      case Check(now) =>
        if HasReached(start, events, n - 1, c.hard) || IsOverdue(c, mark, now) then mark.(at := now) else mark
      case Snapshot(_) => mark
  }

  lemma {:induction false} StateIsTheRecord(c: Config, start: real, events: seq<Event>, n: nat)
    requires Accepts(c) && Timely(start, events) && n <= |events|
    ensures var s := After(c, Start(c, start), events, n);
      s.work == WorkDone(events, n) && Mark(s.lastHeartbeat, s.lastLoggedWork) == LastMark(c, start, events, n)
  {
    if n > 0 {
      StateIsTheRecord(c, start, events, n - 1);
      TracksProgress(c, start, events, n - 1);
      ProgressTimeIsPast(start, events, n - 1);
    }
  }

  /** A progress is logged exactly if it is forced, one interval after the last mark, or has work enough to show. */
  lemma {:induction false} LogsExactly(c: Config, start: real, events: seq<Event>, n: nat)
    requires Accepts(c) && Timely(start, events) && n < |events| && events[n].Progress?
    ensures LogsProgress(c, After(c, Start(c, start), events, n), events[n].at, events[n].increment, events[n].force)
       <==> WritesLine(c, start, events, n)
  {
    StateIsTheRecord(c, start, events, n);
  }

  /** The n-th event comes once more soft limits have passed since the last progress than warnings were counted. */
  predicate IsWarned(c: Config, start: real, events: seq<Event>, n: nat)
    requires n < |events|
  {
    c.soft.Some?
    && ProgressTime(start, events, n) + Repeated(WarningsSince(c, start, events, n) + 1, c.soft.value as real)
       <= events[n].at
  }

  /**
   What a check reports: a failure exactly at the hard limit; else a warning exactly if the idle time has
   room for one more than were counted; else a heartbeat exactly if one interval has passed since the last
   progress line, heartbeat or failure.
   */
  lemma {:induction false} ReportsExactly(c: Config, start: real, events: seq<Event>, n: nat)
    requires Accepts(c) && Timely(start, events) && n < |events| && events[n].Check?
    ensures Reported(c, After(c, Start(c, start), events, n), events[n].at)
         == if HasReached(start, events, n, c.hard) then HardTimeout
            else if IsWarned(c, start, events, n) then SoftWarning
            else if IsOverdue(c, LastMark(c, start, events, n), events[n].at) then Heartbeat
            else Quiet
  {
    StateIsTheRecord(c, start, events, n);
    TracksProgress(c, start, events, n);
    NextWarningIsDue(c, start, events, n);
    ProgressTimeIsPast(start, events, n);
    if c.soft.Some? { RepeatedGrows(0, WarningsSince(c, start, events, n), c.soft.value as real); }
  }

  /** After every check, and after every progress, the last mark is less than one interval old. */
  lemma {:induction false} NeverSilentForLong(c: Config, start: real, events: seq<Event>, n: nat)
    requires Accepts(c) && Timely(start, events) && 0 < n <= |events| && !events[n - 1].Snapshot?
    ensures events[n - 1].at - LastMark(c, start, events, n).at < c.interval as real
    ensures events[n - 1].at - After(c, Start(c, start), events, n).lastHeartbeat < c.interval as real
  {
    StateIsTheRecord(c, start, events, n);
  }
}

/**
 The sanitized football facts and events a market portrait is built from, and the gate they pass
 first. Instants are microseconds since the epoch; the source's datetimes have that resolution.
 */
module MatchFacts {
  import opened Wrappers
  import opened Timescale

  const SANITIZATION := "deterministic-micro-epsilon-v1"

  datatype Period = FirstHalf | SecondHalf | FirstExtra | SecondExtra | Penalties

  /** Event types, as far as the score depends on them. */
  datatype EventKind = Goal | OwnGoal | PenaltyScored | OtherKind

  datatype Facts = Facts(
    sanitization: string,
    provenance: string,
    kickoff: int,
    firstStart: int, firstEnd: int,
    secondStart: int, secondEnd: int,
    firstExtraStart: Option<int>, firstExtraEnd: Option<int>,
    secondExtraStart: Option<int>, secondExtraEnd: Option<int>,
    matchEnd: Option<int>,
    homeScore: Option<int>, awayScore: Option<int>)

  datatype Event = Event(
    id: string,
    order: int,
    kind: EventKind,
    period: Period,
    minute: Option<int>,
    stoppage: Option<int>,
    home: Option<int>, away: Option<int>,
    revoked: bool,
    shootout: bool,
    minutePrecision: bool)

  datatype Interval = Interval(start: int, end: int) {
    function Span(): int { end - start }
  }

  datatype FactsError =
    | WrongSanitation | WrongProvenance
    | KickoffTooFarOff | MissingBoundary | EmptyPeriod | PeriodsOverlap
    | ImplausibleDuration | ImplausibleHalftime | ImplausibleBreak
    | MatchEndTooEarly | MatchEndTooLate
    | EventOrderNotMonotonic | DuplicateEventId | HalfFinalScore
    | NotMinutePrecision | HalfEventScore | PenaltyMisplaced | MissingMinute
    | PenaltiesWithoutMatchEnd

  predicate HasExtraTime(facts: Facts) {
    facts.firstExtraStart.Some? || facts.firstExtraEnd.Some?
    || facts.secondExtraStart.Some? || facts.secondExtraEnd.Some?
  }

  predicate Within(low: int, value: int, high: int) {
    low <= value <= high
  }

  function PeriodIntervals(facts: Facts): Result<seq<Interval>, FactsError> {
    var halves := [Interval(facts.firstStart, facts.firstEnd), Interval(facts.secondStart, facts.secondEnd)];
    if !HasExtraTime(facts) then Success(halves)
    else if facts.firstExtraStart.None? || facts.firstExtraEnd.None?
            || facts.secondExtraStart.None? || facts.secondExtraEnd.None? then
      // Periods are looked at in order, so an earlier empty one is reported first.
      if exists p <- halves :: p.start >= p.end then Failure(EmptyPeriod)
      else if facts.firstExtraStart.Some? && facts.firstExtraEnd.Some?
              && facts.firstExtraStart.value >= facts.firstExtraEnd.value then
        Failure(EmptyPeriod)
      else Failure(MissingBoundary)
    else
      Success(halves + [Interval(facts.firstExtraStart.value, facts.firstExtraEnd.value),
                        Interval(facts.secondExtraStart.value, facts.secondExtraEnd.value)])
  }

  function ValidateMatchPeriods(facts: Facts): (r: Result<seq<Interval>, FactsError>)
    ensures r.Success? ==> |r.value| == if HasExtraTime(facts) then 4 else 2
    ensures r.Success? ==> forall i :: 0 <= i < |r.value| ==> r.value[i].start < r.value[i].end
    ensures r.Success? ==> forall i, j :: 0 <= i < j < |r.value| ==> r.value[i].end <= r.value[j].start
  {
    if !Within(-2 * MINUTE, facts.firstStart - facts.kickoff, 30 * MINUTE) then Failure(KickoffTooFarOff)
    else
      var ordered :- PeriodIntervals(facts);
      if exists p <- ordered :: p.start >= p.end then Failure(EmptyPeriod)
      else if ordered[0].end > ordered[1].start then Failure(PeriodsOverlap)
      else if |ordered| == 4 && (ordered[1].end > ordered[2].start || ordered[2].end > ordered[3].start) then
        Failure(PeriodsOverlap)
      else if !Within(40 * MINUTE, ordered[0].Span(), 75 * MINUTE)
              || !Within(40 * MINUTE, ordered[1].Span(), 90 * MINUTE) then
        Failure(ImplausibleDuration)
      else if |ordered| == 4
              && (!Within(10 * MINUTE, ordered[2].Span(), 30 * MINUTE)
                  || !Within(10 * MINUTE, ordered[3].Span(), 30 * MINUTE)) then
        Failure(ImplausibleDuration)
      else if !Within(5 * MINUTE, ordered[1].start - ordered[0].end, 30 * MINUTE) then Failure(ImplausibleHalftime)
      else if |ordered| == 4
              && (!Within(0, ordered[2].start - ordered[1].end, 30 * MINUTE)
                  || !Within(0, ordered[3].start - ordered[2].end, 15 * MINUTE)) then
        Failure(ImplausibleBreak)
      else
        var final := ordered[|ordered| - 1].end;
        match facts.matchEnd
        case None => Success(ordered)
        case Some(ended) =>
          if ended + 2 < final then Failure(MatchEndTooEarly)
          else if ended - final > 45 * MINUTE then Failure(MatchEndTooLate)
          else Success(ordered)
  }

  /** Event orders are unique and increasing. */
  predicate OrdersIncrease(events: seq<Event>) {
    forall i, j :: 0 <= i < j < |events| ==> events[i].order < events[j].order
  }

  predicate DistinctIds(events: seq<Event>) {
    forall i, j :: 0 <= i < j < |events| ==> events[i].id != events[j].id
  }

  function EventDefect(e: Event): Option<FactsError> {
    if !e.minutePrecision then Some(NotMinutePrecision)
    else if e.home.None? != e.away.None? then Some(HalfEventScore)
    else if e.period == Penalties then
      if !e.shootout || e.minute.Some? then Some(PenaltyMisplaced) else None
    else if e.minute.None? then Some(MissingMinute)
    else None
  }

  function FirstEventDefect(events: seq<Event>): (r: Option<FactsError>)
    ensures r.None? <==> forall e :: e in events ==> EventDefect(e).None?
  {
    if events == [] then None
    else
      var d := EventDefect(events[0]);
      if d.Some? then assert events[0] in events; d else FirstEventDefect(events[1..])
  }

  predicate HasPenalties(events: seq<Event>) {
    exists e <- events :: e.period == Penalties
  }

  function ValidateFootballEvents(facts: Facts, events: seq<Event>, finalPeriodEnd: int): Result<(), FactsError> {
    if !OrdersIncrease(events) then Failure(EventOrderNotMonotonic)
    else if !DistinctIds(events) then Failure(DuplicateEventId)
    else if facts.homeScore.None? != facts.awayScore.None? then Failure(HalfFinalScore)
    else if FirstEventDefect(events).Some? then Failure(FirstEventDefect(events).value)
    else if HasPenalties(events) && (facts.matchEnd.None? || facts.matchEnd.value <= finalPeriodEnd) then
      Failure(PenaltiesWithoutMatchEnd)
    else Success(())
  }

  predicate LowerHex(c: char) {
    '0' <= c <= '9' || 'a' <= c <= 'f'
  }

  function ValidateFacts(facts: Facts, events: seq<Event>): Result<seq<Interval>, FactsError> {
    if facts.sanitization != SANITIZATION then Failure(WrongSanitation)
    else if |facts.provenance| != 64 || exists c <- facts.provenance :: !LowerHex(c) then Failure(WrongProvenance)
    else
      var ordered :- ValidateMatchPeriods(facts);
      var _ :- ValidateFootballEvents(facts, events, ordered[|ordered| - 1].end);
      Success(ordered)
  }

  // ---- which facts are accepted ----

  /** A boundary of extra time, if it is given, or 0. */
  function Instant(boundary: Option<int>): int {
    boundary.GetOr(0)
  }

  /** A period of at least `least` and at most `most` minutes. */
  predicate Lasts(start: int, end: int, least: int, most: int) {
    start < end && start + least * MINUTE <= end && end <= start + most * MINUTE
  }

  predicate ExtraTimeIsPlausible(facts: Facts) {
    var a, b := Instant(facts.firstExtraStart), Instant(facts.firstExtraEnd);
    var c, d := Instant(facts.secondExtraStart), Instant(facts.secondExtraEnd);
    && facts.firstExtraStart.Some? && facts.firstExtraEnd.Some?
    && facts.secondExtraStart.Some? && facts.secondExtraEnd.Some?
    && Lasts(a, b, 10, 30) && Lasts(c, d, 10, 30)
    && facts.secondEnd <= a <= facts.secondEnd + 30 * MINUTE
    && b <= c <= b + 15 * MINUTE
  }

  /** When the football ends: with extra time if there was any. */
  function LastWhistle(facts: Facts): int {
    if facts.secondExtraEnd.Some? then facts.secondExtraEnd.value else facts.secondEnd
  }

  /** The limits, boundary by boundary, with no order among them. */
  predicate PeriodsArePlausible(facts: Facts) {
    && facts.kickoff - 2 * MINUTE <= facts.firstStart <= facts.kickoff + 30 * MINUTE
    && Lasts(facts.firstStart, facts.firstEnd, 40, 75)
    && Lasts(facts.secondStart, facts.secondEnd, 40, 90)
    && facts.firstEnd + 5 * MINUTE <= facts.secondStart <= facts.firstEnd + 30 * MINUTE
    && (HasExtraTime(facts) ==> ExtraTimeIsPlausible(facts))
    && (facts.matchEnd.Some? ==>
          LastWhistle(facts) - 2 <= facts.matchEnd.value <= LastWhistle(facts) + 45 * MINUTE)
  }

  lemma {:induction false} IntervalsOfExtraTime(facts: Facts)
    requires HasExtraTime(facts)
    ensures PeriodIntervals(facts).Success? <==>
              facts.firstExtraStart.Some? && facts.firstExtraEnd.Some?
              && facts.secondExtraStart.Some? && facts.secondExtraEnd.Some?
    ensures PeriodIntervals(facts).Success? ==>
              PeriodIntervals(facts).value ==
              [Interval(facts.firstStart, facts.firstEnd), Interval(facts.secondStart, facts.secondEnd),
               Interval(Instant(facts.firstExtraStart), Instant(facts.firstExtraEnd)),
               Interval(Instant(facts.secondExtraStart), Instant(facts.secondExtraEnd))]
  {
  }

  /** The periods are accepted exactly within the plausibility limits, and are then the played ones in order. */
  lemma {:induction false} PeriodsAcceptedExactly(facts: Facts)
    ensures ValidateMatchPeriods(facts).Success? <==> PeriodsArePlausible(facts)
    ensures ValidateMatchPeriods(facts).Success? ==>
              var ordered := ValidateMatchPeriods(facts).value;
              ordered[|ordered| - 1].end == LastWhistle(facts)
  {
    if HasExtraTime(facts) {
      IntervalsOfExtraTime(facts);
    } else {
      assert PeriodIntervals(facts).value[0] == Interval(facts.firstStart, facts.firstEnd);
      assert PeriodIntervals(facts).value[1] == Interval(facts.secondStart, facts.secondEnd);
    }
  }

  /** What is asked of each event, on its own. */
  predicate EventIsSound(e: Event) {
    && e.minutePrecision
    && (e.home.Some? <==> e.away.Some?)
    && (e.period == Penalties ==> e.shootout && e.minute == None)
    && (e.period != Penalties ==> e.minute.Some?)
  }

  /** What is asked of the events together, and of the facts they come with. */
  predicate EventsAreSound(facts: Facts, events: seq<Event>) {
    && (forall i, j :: 0 <= i < j < |events| ==> events[i].order < events[j].order && events[i].id != events[j].id)
    && (facts.homeScore.Some? <==> facts.awayScore.Some?)
    && (forall i :: 0 <= i < |events| ==> EventIsSound(events[i]))
    && (forall i :: 0 <= i < |events| && events[i].period == Penalties ==>
          facts.matchEnd.Some? && LastWhistle(facts) < facts.matchEnd.value)
  }

  lemma {:induction false} EventsAcceptedExactly(facts: Facts, events: seq<Event>)
    ensures ValidateFootballEvents(facts, events, LastWhistle(facts)).Success? <==> EventsAreSound(facts, events)
  {
    forall e: Event ensures EventDefect(e).None? <==> EventIsSound(e) {
    }
    if forall i :: 0 <= i < |events| ==> EventIsSound(events[i]) {
      forall e | e in events ensures EventIsSound(e) {
        var i :| 0 <= i < |events| && events[i] == e;
      }
    }
  }

  /** A SHA-256 commitment in lower case. */
  predicate IsCommitment(s: string) {
    |s| == 64 && forall i :: 0 <= i < |s| ==> s[i] in "0123456789abcdef"
  }

  /** The gate, as one condition on the inputs. */
  lemma {:induction false} FactsAcceptedExactly(facts: Facts, events: seq<Event>)
    ensures ValidateFacts(facts, events).Success?
       <==> facts.sanitization == "deterministic-micro-epsilon-v1" && IsCommitment(facts.provenance)
            && PeriodsArePlausible(facts) && EventsAreSound(facts, events)
  {
    PeriodsAcceptedExactly(facts);
    EventsAcceptedExactly(facts, events);
    forall c: char ensures LowerHex(c) <==> c in "0123456789abcdef" {
    }
    if IsCommitment(facts.provenance) {
      forall c | c in facts.provenance ensures LowerHex(c) {
        var i :| 0 <= i < |facts.provenance| && facts.provenance[i] == c;
      }
    }
  }

  // ---- which error the periods raise ----

  /** Every boundary that must be there is there, and no period is empty. */
  predicate AreComplete(facts: Facts) {
    && facts.firstStart < facts.firstEnd && facts.secondStart < facts.secondEnd
    && (HasExtraTime(facts) ==>
          && facts.firstExtraStart.Some? && facts.firstExtraEnd.Some?
          && facts.secondExtraStart.Some? && facts.secondExtraEnd.Some?
          && facts.firstExtraStart.value < facts.firstExtraEnd.value
          && facts.secondExtraStart.value < facts.secondExtraEnd.value)
  }

  /** A boundary is missing in a period of extra time, and no period before it is empty. */
  predicate BoundaryIsMissing(facts: Facts) {
    && HasExtraTime(facts) && facts.firstStart < facts.firstEnd && facts.secondStart < facts.secondEnd
    && (facts.firstExtraStart.None? || facts.firstExtraEnd.None?
        || (facts.firstExtraStart.value < facts.firstExtraEnd.value
            && (facts.secondExtraStart.None? || facts.secondExtraEnd.None?)))
  }

  /** Some period starts before the one before it has ended. */
  predicate Overlap(facts: Facts) {
    facts.secondStart < facts.firstEnd
    || (HasExtraTime(facts) && (Instant(facts.firstExtraStart) < facts.secondEnd
                                || Instant(facts.secondExtraStart) < Instant(facts.firstExtraEnd)))
  }

  predicate DurationsArePlausible(facts: Facts) {
    && Lasts(facts.firstStart, facts.firstEnd, 40, 75) && Lasts(facts.secondStart, facts.secondEnd, 40, 90)
    && (HasExtraTime(facts) ==>
          && Lasts(Instant(facts.firstExtraStart), Instant(facts.firstExtraEnd), 10, 30)
          && Lasts(Instant(facts.secondExtraStart), Instant(facts.secondExtraEnd), 10, 30))
  }

  lemma {:induction false} PresentIntervals(facts: Facts)
    requires AreComplete(facts) && !HasExtraTime(facts)
    ensures PeriodIntervals(facts)
         == Success([Interval(facts.firstStart, facts.firstEnd), Interval(facts.secondStart, facts.secondEnd)])
  {
  }

  /** The kickoff is looked at first, then whether periods are whole, overlap, last, and only then the breaks. */
  lemma {:induction false} PeriodErrorsExactly(facts: Facts)
    ensures var r := ValidateMatchPeriods(facts);
      var near := facts.kickoff - 2 * MINUTE <= facts.firstStart <= facts.kickoff + 30 * MINUTE;
      && (r == Failure(KickoffTooFarOff) <==> !near)
      && (r in {Failure(EmptyPeriod), Failure(MissingBoundary)} <==> near && !AreComplete(facts))
      && (r == Failure(MissingBoundary) <==> near && BoundaryIsMissing(facts))
      && (r == Failure(PeriodsOverlap) <==> near && AreComplete(facts) && Overlap(facts))
      && (r == Failure(ImplausibleDuration) <==>
            near && AreComplete(facts) && !Overlap(facts) && !DurationsArePlausible(facts))
  {
    if HasExtraTime(facts) {
      IntervalsOfExtraTime(facts);
    } else if AreComplete(facts) {
      PresentIntervals(facts);
    }
  }
}

/**
 Cutting each played period into one-minute bands of source time. A period of n = nominal + stoppage
 minutes gets n bands; all but the last are exactly one minute and the last is clamped to the
 period's actual end.
 */
module MinuteBands {
  import opened Wrappers
  import opened Timescale
  import opened MatchFacts

  /** One played period: its first and last nominal minutes, its stoppage count and its boundaries. */
  datatype PeriodSpec = PeriodSpec(period: Period, first: int, last: int, stoppage: nat, start: int, end: int) {
    predicate Valid() {
      first <= last && start < end
    }

    function Nominal(): nat
      requires Valid()
    {
      last - first + 1
    }

    function Count(): (n: nat)
      requires Valid()
    {
      Nominal() + stoppage
    }

    /** The football minute and stoppage minute of the band at an offset. */
    function Label(offset: nat): (int, Option<int>)
      requires Valid() && offset < Count()
    {
      if first + offset <= last then (first + offset, None) else (last, Some(first + offset - last))
    }

    function BandStart(offset: nat): int {
      start + offset * MINUTE
    }

    function BandEnd(offset: nat): int
      requires Valid()
    {
      if offset == Count() - 1 then end else BandStart(offset) + MINUTE
    }

    /** The builder's own test of a band. */
    predicate BandFits(offset: nat)
      requires Valid()
    {
      BandStart(offset) < BandEnd(offset) <= end
    }

    /** What a caller can check before the call: the period outlasts all its bands but the last. */
    predicate Fits()
      requires Valid()
    {
      end - start > (Count() - 1) * MINUTE
    }
  }

  function Larger(a: int, b: int): int {
    if a >= b then a else b
  }

  /** The greatest stoppage minute an event at the period's last nominal minute carries, or 0. */
  function ExplicitStoppage(events: seq<Event>, period: Period, boundary: int): (r: nat)
    ensures forall e :: e in events && e.period == period && e.minute == Some(boundary) ==> e.stoppage.GetOr(0) <= r
    ensures r == 0 || exists e ::
              e in events && e.period == period && e.minute == Some(boundary) && e.stoppage == Some(r)
  {
    if events == [] then 0
    else
      var rest := ExplicitStoppage(events[1..], period, boundary);
      var e := events[0];
      if e.period == period && e.minute == Some(boundary) && e.stoppage.GetOr(0) > rest then
        e.stoppage.GetOr(0)
      else rest
  }

  function NominalMinutes(period: Period): nat {
    if period == FirstHalf || period == SecondHalf then 45 else 15
  }

  /** Ceiling of the time beyond nominal, less one millisecond, in minutes. */
  function InferredStoppage(period: Period, start: int, end: int): nat {
    var excess := Larger(0, end - start - NominalMinutes(period) * MINUTE - MILLISECOND);
    (excess + MINUTE - 1) / MINUTE
  }

  function Spec(events: seq<Event>, period: Period, first: int, last: int, start: int, end: int): PeriodSpec {
    var stoppage := Larger(ExplicitStoppage(events, period, last), InferredStoppage(period, start, end));
    PeriodSpec(period, first, last, stoppage, start, end)
  }

  function MinuteSpecs(facts: Facts, events: seq<Event>): seq<PeriodSpec> {
    [Spec(events, FirstHalf, 1, 45, facts.firstStart, facts.firstEnd),
     Spec(events, SecondHalf, 46, 90, facts.secondStart, facts.secondEnd)]
    + (if facts.firstExtraStart.Some? && facts.firstExtraEnd.Some?
          && facts.secondExtraStart.Some? && facts.secondExtraEnd.Some? then
         [Spec(events, FirstExtra, 91, 105, facts.firstExtraStart.value, facts.firstExtraEnd.value),
          Spec(events, SecondExtra, 106, 120, facts.secondExtraStart.value, facts.secondExtraEnd.value)]
       else [])
  }

  ghost predicate ValidSpec(spec: PeriodSpec) {
    spec.Valid() && spec.Nominal() == NominalMinutes(spec.period) && spec.period != Penalties
    && spec.stoppage >= InferredStoppage(spec.period, spec.start, spec.end)
  }

  /** Well-formed specs: valid, and no period twice. */
  ghost predicate ValidSpecs(specs: seq<PeriodSpec>) {
    (forall i :: 0 <= i < |specs| ==> ValidSpec(specs[i]))
    && (forall i, j :: 0 <= i < j < |specs| ==> specs[i].period != specs[j].period)
  }

  /** Periods are complete, non-empty, in order and apart. */
  ghost predicate PeriodsInOrder(facts: Facts) {
    && facts.firstStart < facts.firstEnd <= facts.secondStart < facts.secondEnd
    && (HasExtraTime(facts) ==>
          && facts.firstExtraStart.Some? && facts.firstExtraEnd.Some?
          && facts.secondExtraStart.Some? && facts.secondExtraEnd.Some?
          && facts.secondEnd <= facts.firstExtraStart.value < facts.firstExtraEnd.value
          && facts.firstExtraEnd.value <= facts.secondExtraStart.value < facts.secondExtraEnd.value)
  }

  lemma {:induction false} AcceptedPeriodsAreInOrder(facts: Facts)
    requires ValidateMatchPeriods(facts).Success?
    ensures PeriodsInOrder(facts)
  {
    var ordered := ValidateMatchPeriods(facts).value;
    assert PeriodIntervals(facts) == Success(ordered);
    assert ordered[0] == Interval(facts.firstStart, facts.firstEnd);
    assert ordered[1] == Interval(facts.secondStart, facts.secondEnd);
    if HasExtraTime(facts) {
      assert ordered[2] == Interval(facts.firstExtraStart.value, facts.firstExtraEnd.value);
      assert ordered[3] == Interval(facts.secondExtraStart.value, facts.secondExtraEnd.value);
    }
  }

  lemma {:induction false} OrderedPeriodsGiveValidSpecs(facts: Facts, events: seq<Event>)
    requires PeriodsInOrder(facts)
    ensures ValidSpecs(MinuteSpecs(facts, events))
    ensures |MinuteSpecs(facts, events)| == if HasExtraTime(facts) then 4 else 2
    ensures MinuteSpecs(facts, events)[0].period == FirstHalf
  {
    SpecIsValid(events, FirstHalf, 1, 45, facts.firstStart, facts.firstEnd);
    SpecIsValid(events, SecondHalf, 46, 90, facts.secondStart, facts.secondEnd);
    if HasExtraTime(facts) {
      SpecIsValid(events, FirstExtra, 91, 105, facts.firstExtraStart.value, facts.firstExtraEnd.value);
      SpecIsValid(events, SecondExtra, 106, 120, facts.secondExtraStart.value, facts.secondExtraEnd.value);
    }
  }

  lemma {:induction false} SpecIsValid(events: seq<Event>, period: Period, first: int, last: int, start: int, end: int)
    requires start < end && period != Penalties && first <= last && last - first + 1 == NominalMinutes(period)
    ensures ValidSpec(Spec(events, period, first, last, start, end))
  {
  }

  // ---- how many minutes a period gets ----

  /** The nominal minutes of a period: none for the shootout. */
  function FirstMinute(period: Period): int {
    match period
    case FirstHalf => 1 case SecondHalf => 46 case FirstExtra => 91 case SecondExtra => 106 case Penalties => 1
  }

  function LastMinute(period: Period): int {
    match period
    case FirstHalf => 45 case SecondHalf => 90 case FirstExtra => 105 case SecondExtra => 120 case Penalties => 0
  }

  /** The period is played, from one instant to the other. */
  predicate IsPlayed(facts: Facts, period: Period, start: int, end: int) {
    match period
    case FirstHalf => start == facts.firstStart && end == facts.firstEnd
    case SecondHalf => start == facts.secondStart && end == facts.secondEnd
    case FirstExtra => HasExtraTime(facts) && Some(start) == facts.firstExtraStart && Some(end) == facts.firstExtraEnd
    case SecondExtra => HasExtraTime(facts) && Some(start) == facts.secondExtraStart
        && Some(end) == facts.secondExtraEnd
    case Penalties => false
  }

  const PERIODS := [FirstHalf, SecondHalf, FirstExtra, SecondExtra]

  lemma {:induction false} SpecAt(facts: Facts, events: seq<Event>, i: nat)
    requires PeriodsInOrder(facts) && i < |MinuteSpecs(facts, events)|
    ensures i < |PERIODS|
    ensures var s := MinuteSpecs(facts, events)[i];
      s.period == PERIODS[i] && IsPlayed(facts, s.period, s.start, s.end)
      && s == Spec(events, s.period, FirstMinute(s.period), LastMinute(s.period), s.start, s.end)
  {
    assert HasExtraTime(facts) || i < 2;
  }

  /** Each specification is a played period with its minutes and its boundaries. */
  lemma {:induction false} SpecsArePlayed(facts: Facts, events: seq<Event>, s: PeriodSpec)
    requires PeriodsInOrder(facts) && s in MinuteSpecs(facts, events)
    ensures s.first == FirstMinute(s.period) && s.last == LastMinute(s.period)
        && IsPlayed(facts, s.period, s.start, s.end)
    ensures s == Spec(events, s.period, s.first, s.last, s.start, s.end) && s.period != Penalties
  {
    var i :| 0 <= i < |MinuteSpecs(facts, events)| && MinuteSpecs(facts, events)[i] == s;
    SpecAt(facts, events, i);
  }

  /** Every played period has a specification. */
  lemma {:induction false} PlayedHasSpec(facts: Facts, events: seq<Event>, period: Period, start: int, end: int)
    requires PeriodsInOrder(facts) && IsPlayed(facts, period, start, end)
    ensures exists s :: s in MinuteSpecs(facts, events) && (s.period, s.start, s.end) == (period, start, end)
  {
    var specs := MinuteSpecs(facts, events);
    var i := match period case FirstHalf => 0 case SecondHalf => 1 case FirstExtra => 2 case _ => 3;
    assert |specs| == if HasExtraTime(facts) then 4 else 2;
    SpecAt(facts, events, i);
    assert specs[i] in specs;
  }

  /** No event of the period at its last minute carries more than n minutes of stoppage. */
  ghost predicate CarriesAtMost(events: seq<Event>, period: Period, n: nat) {
    forall i :: 0 <= i < |events| && events[i].period == period && events[i].minute == Some(LastMinute(period)) ==>
      events[i].stoppage.GetOr(0) <= n
  }

  /** A period's stoppage is the least count that its events and the tolerance of its last band allow. */
  lemma {:induction false} StoppageIsLeast(facts: Facts, events: seq<Event>, s: PeriodSpec, n: nat)
    requires PeriodsInOrder(facts) && s in MinuteSpecs(facts, events)
    ensures s.stoppage <= n
       <==> CarriesAtMost(events, s.period, n)
            && s.end - s.start - (s.last - s.first + 1 + n - 1) * MINUTE <= MINUTE + MILLISECOND
  {
    SpecsArePlayed(facts, events, s);
    OrderedPeriodsGiveValidSpecs(facts, events);
    StoppageIsTheLarger(facts, events, s);
    InferredStoppageIsLeast(s.period, s.start, s.end, n);
    var explicit := ExplicitStoppage(events, s.period, s.last);
    if CarriesAtMost(events, s.period, n) && explicit > 0 {
      var e :| e in events && e.period == s.period && e.minute == Some(s.last) && e.stoppage == Some(explicit);
      var i :| 0 <= i < |events| && events[i] == e;
    }
    if explicit <= n {
      forall i | 0 <= i < |events| && events[i].period == s.period && events[i].minute == Some(s.last)
        ensures events[i].stoppage.GetOr(0) <= n
      {
        assert events[i] in events;
      }
    }
  }

  lemma {:induction false} StoppageIsTheLarger(facts: Facts, events: seq<Event>, s: PeriodSpec)
    requires PeriodsInOrder(facts) && s in MinuteSpecs(facts, events)
    ensures s.last - s.first + 1 == NominalMinutes(s.period)
    ensures s.stoppage == Larger(ExplicitStoppage(events, s.period, s.last), InferredStoppage(s.period, s.start, s.end))
  {
    SpecsArePlayed(facts, events, s);
  }

  /**
   The period outlasts all its minutes but the last: the nominal ones, and the stoppage minutes that its
   events carry. Stoppage that is only inferred always has room.
   */
  ghost predicate Outlasts(events: seq<Event>, period: Period, start: int, end: int) {
    var nominal := LastMinute(period) - FirstMinute(period) + 1;
    && end - start > (nominal - 1) * MINUTE
    && forall i :: 0 <= i < |events| && events[i].period == period && events[i].minute == Some(LastMinute(period)) ==>
         end - start > (nominal + events[i].stoppage.GetOr(0) - 1) * MINUTE
  }

  lemma {:induction false} SpecFitsExactly(facts: Facts, events: seq<Event>, s: PeriodSpec)
    requires PeriodsInOrder(facts) && s in MinuteSpecs(facts, events) && s.Valid()
    ensures s.Fits() <==> Outlasts(events, s.period, s.start, s.end)
  {
    SpecsArePlayed(facts, events, s);
    StoppageIsTheLarger(facts, events, s);
    var explicit, inferred := ExplicitStoppage(events, s.period, s.last), InferredStoppage(s.period, s.start, s.end);
    if s.end - s.start > (NominalMinutes(s.period) - 1) * MINUTE { InferredHasRoom(s.period, s.start, s.end); }
    if Outlasts(events, s.period, s.start, s.end) && explicit > 0 {
      var e :| e in events && e.period == s.period && e.minute == Some(s.last) && e.stoppage == Some(explicit);
      var i :| 0 <= i < |events| && events[i] == e;
    }
    if s.Fits() {
      forall i | 0 <= i < |events| && events[i].period == s.period && events[i].minute == Some(s.last)
        ensures s.end - s.start > (s.Nominal() + events[i].stoppage.GetOr(0) - 1) * MINUTE
      {
        assert events[i] in events;
      }
    }
  }

  lemma {:induction false} InferredHasRoom(period: Period, start: int, end: int)
    requires end - start > (NominalMinutes(period) - 1) * MINUTE
    ensures end - start > (NominalMinutes(period) + InferredStoppage(period, start, end) - 1) * MINUTE
  {
    var inferred := InferredStoppage(period, start, end);
    if inferred > 0 { InferredStoppageIsLeast(period, start, end, inferred - 1); }
  }

  // ---- source tiling ----

  /** The bands of an accepted period tile [start, end]: no gap, no overlap, one minute each but the last. */
  ghost predicate Tiles(spec: PeriodSpec)
    requires spec.Valid()
  {
    var n := spec.Count();
    && spec.BandStart(0) == spec.start
    && spec.BandEnd(n - 1) == spec.end
    && (forall k :: 0 <= k < n - 1 ==>
          spec.BandEnd(k) == spec.BandStart(k + 1) && spec.BandEnd(k) - spec.BandStart(k) == MINUTE)
    && 0 < spec.BandEnd(n - 1) - spec.BandStart(n - 1) <= MINUTE + MILLISECOND
  }

  /** The builder accepts a period's bands exactly when its span exceeds n - 1 minutes, and then they tile it. */
  lemma {:induction false} PeriodFitsExactly(spec: PeriodSpec)
    requires ValidSpec(spec)
    ensures (forall k :: 0 <= k < spec.Count() ==> spec.BandFits(k)) <==> spec.Fits()
    ensures spec.Fits() ==> Tiles(spec)
  {
    var n := spec.Count();
    if spec.Fits() {
    } else {
      assert !spec.BandFits(n - 1);
    }
  }

  /** The inferred stoppage is the least count of extra bands for which the last band meets the tolerance. */
  lemma {:induction false} InferredStoppageIsLeast(period: Period, start: int, end: int, count: nat)
    ensures InferredStoppage(period, start, end) <= count
       <==> end - start - (NominalMinutes(period) + count - 1) * MINUTE <= MINUTE + MILLISECOND
  {
    var excess := Larger(0, end - start - NominalMinutes(period) * MINUTE - MILLISECOND);
    var inferred := InferredStoppage(period, start, end);
    assert (inferred - 1) * MINUTE < excess <= inferred * MINUTE || (excess == 0 && inferred == 0);
    if inferred <= count {
      assert count * MINUTE >= inferred * MINUTE;
    } else {
      assert count * MINUTE <= (inferred - 1) * MINUTE;
    }
  }

  /**
   Without explicit stoppage the only periods refused are those at least a full minute short of
   nominal: inference alone never makes a band empty.
   */
  lemma {:induction false} InferenceNeverOverflows(spec: PeriodSpec)
    requires ValidSpec(spec) && spec.stoppage == InferredStoppage(spec.period, spec.start, spec.end)
    ensures spec.Fits() <==> spec.end - spec.start > (NominalMinutes(spec.period) - 1) * MINUTE
  {
    var excess := Larger(0, spec.end - spec.start - NominalMinutes(spec.period) * MINUTE - MILLISECOND);
    assert (spec.stoppage - 1) * MINUTE < excess || spec.stoppage == 0;
  }

  // ---- which events have a band ----

  /** A band of the spec carries this minute and stoppage minute. */
  predicate HasLabel(spec: PeriodSpec, minute: Option<int>, stoppage: Option<int>)
    requires spec.Valid()
  {
    minute.Some?
    && match stoppage
       case None => spec.first <= minute.value <= spec.last
       case Some(added) => minute.value == spec.last && 1 <= added <= spec.stoppage
  }

  function LabelOffset(spec: PeriodSpec, minute: Option<int>, stoppage: Option<int>): (k: nat)
    requires spec.Valid() && HasLabel(spec, minute, stoppage)
    ensures k < spec.Count()
  {
    if stoppage.None? then minute.value - spec.first else spec.last - spec.first + stoppage.value
  }

  /** A label sits at one offset and no other. */
  lemma {:induction false} LabelIsUnique(spec: PeriodSpec, minute: Option<int>, stoppage: Option<int>, k: nat)
    requires spec.Valid() && k < spec.Count()
    ensures (Some(spec.Label(k).0), spec.Label(k).1) == (minute, stoppage)
       <==> HasLabel(spec, minute, stoppage) && k == LabelOffset(spec, minute, stoppage)
  {
  }

  /** The period is played, and the event's minute lies in it or is positive stoppage at its last minute. */
  predicate InPlayedMinute(facts: Facts, e: Event) {
    var window :=
      match e.period
      case FirstHalf => (1, 45)
      case SecondHalf => (46, 90)
      case FirstExtra => if HasExtraTime(facts) then (91, 105) else (1, 0)
      case SecondExtra => if HasExtraTime(facts) then (106, 120) else (1, 0)
      case Penalties => (1, 0);
    && e.minute.Some?
    && match e.stoppage
       case None => window.0 <= e.minute.value <= window.1
       case Some(added) => window.0 <= window.1 == e.minute.value && 1 <= added
  }

  /**
   An event has a band exactly when its minute was played. Explicit stoppage widens its period, so
   no stoppage minute is ever too late for its own event.
   */
  lemma {:induction false} EventHasBandExactly(facts: Facts, events: seq<Event>, e: Event)
    requires PeriodsInOrder(facts) && e in events
    ensures (exists s :: s in MinuteSpecs(facts, events) && s.Valid() && s.period == e.period
                         && HasLabel(s, e.minute, e.stoppage))
       <==> InPlayedMinute(facts, e)
  {
    OrderedPeriodsGiveValidSpecs(facts, events);
    var specs := MinuteSpecs(facts, events);
    if InPlayedMinute(facts, e) {
      var i := match e.period case FirstHalf => 0 case SecondHalf => 1 case FirstExtra => 2 case SecondExtra => 3;
      assert specs[i].period == e.period && specs[i].Valid();
      assert e.minute == Some(specs[i].last) ==> e.stoppage.GetOr(0) <= specs[i].stoppage;
      assert specs[i] in specs && HasLabel(specs[i], e.minute, e.stoppage);
    }
  }
}

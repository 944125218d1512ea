/**
 Building a story: lay out the bands, place the events, order them for display, replay the score, compute
 the reactions and validate the result. The builder's loops are proved to compute the function `Build`.
 */
module PortraitStory {
  import opened Wrappers
  import opened MatchFacts
  import opened MinuteBands
  import opened VideoTimeline
  import opened ScoreReplay
  import opened Reactions
  import opened StoryValidator
  import Sorting

  datatype StoryError =
    | BadFacts(facts: FactsError)
    | NotADate
    | BadBand(band: BandError)
    | EventOutsidePeriod(id: string)
    | BadScore(score: ScoreError)
    | InvalidStory

  // ---- the builder's steps ----

  function ShootoutBand(facts: Facts, events: seq<Event>, profile: Profile, cursor: real): Band {
    var start := if facts.secondExtraEnd.Some? then facts.secondExtraEnd.value else facts.secondEnd;
    Band(Penalties, None, None, start, facts.matchEnd.GetOr(start),
         Ticks(cursor), Ticks(Duration(facts, events, profile) - profile.postMatch), None)
  }

  function WithShootout(facts: Facts, events: seq<Event>, profile: Profile, regular: seq<Band>,
                        cursor: real): seq<Band>
  {
    if HasPenalties(events) then regular + [ShootoutBand(facts, events, profile, cursor)] else regular
  }

  /** The row an event is shown in. A shootout event's stoppage minute is not looked at. */
  function Placement(rows: seq<Band>, e: Event): (r: Option<nat>)
    ensures r.Some? ==> r.value < |rows|
  {
    if e.period == Penalties then KeyIndex(rows, Penalties, None, None) else EventIndex(rows, e)
  }

  function Annotate(row: Band, e: Event): Annotation {
    Annotation(e, row.videoStart, row.videoEnd)
  }

  function PlaceAll(rows: seq<Band>, events: seq<Event>, n: nat): (r: Result<seq<Annotation>, StoryError>)
    requires n <= |events|
    ensures r.Success? ==> |r.value| == n
  {
    if n == 0 then Success([])
    else match PlaceAll(rows, events, n - 1)
         case Failure(e) => Failure(e)
         case Success(placed) =>
           var index := Placement(rows, events[n - 1]);
           if index.None? then Failure(EventOutsidePeriod(events[n - 1].id))
           else Success(placed + [Annotate(rows[index.value], events[n - 1])])
  }

  predicate VideoLeq(a: Annotation, b: Annotation) {
    a.videoStart < b.videoStart
    || (a.videoStart == b.videoStart
        && (a.videoEnd < b.videoEnd || (a.videoEnd == b.videoEnd && a.event.order <= b.event.order)))
  }

  method PlaceEvents(rows: seq<Band>, events: seq<Event>) returns (r: Result<seq<Annotation>, StoryError>)
    ensures r == PlaceAll(rows, events, |events|)
  {
    var annotations: seq<Annotation> := [];
    var i := 0;
    while i < |events|
      invariant 0 <= i <= |events|
      invariant PlaceAll(rows, events, i) == Success(annotations)
    {
      var index := Placement(rows, events[i]);
      if index.None? {
        assert PlaceAll(rows, events, i + 1) == Failure(EventOutsidePeriod(events[i].id));
        PlacementFailureSticks(rows, events, i + 1);
        return Failure(EventOutsidePeriod(events[i].id));
      }
      annotations := annotations + [Annotate(rows[index.value], events[i])];
      i := i + 1;
    }
    r := Success(annotations);
  }

  lemma {:induction false} PlacementFailureSticks(rows: seq<Band>, events: seq<Event>, n: nat)
    requires n <= |events| && PlaceAll(rows, events, n).Failure?
    ensures PlaceAll(rows, events, |events|) == PlaceAll(rows, events, n)
    decreases |events| - n
  {
    if n < |events| { PlacementFailureSticks(rows, events, n + 1); }
  }

  // ---- what placement gives ----

  /** The annotation shows this event in a row that carries its key, unless it is a shootout event. */
  ghost predicate PlacedFrom(rows: seq<Band>, events: seq<Event>, a: Annotation) {
    && a.event in events
    && Placement(rows, a.event).Some?
    && a == Annotate(rows[Placement(rows, a.event).value], a.event)
  }

  lemma {:induction false} PlaceAllPlaces(rows: seq<Band>, events: seq<Event>, n: nat)
    requires n <= |events|
    ensures PlaceAll(rows, events, n).Success? <==> forall i :: 0 <= i < n ==> Placement(rows, events[i]).Some?
    ensures PlaceAll(rows, events, n).Success? ==>
              forall i :: 0 <= i < n ==> PlacedFrom(rows, events, PlaceAll(rows, events, n).value[i])
                                         && PlaceAll(rows, events, n).value[i].event == events[i]
  {
    if n > 0 { PlaceAllPlaces(rows, events, n - 1); }
  }

  lemma {:induction false} InsertKeepsDistinctIds(a: Annotation, s: seq<Annotation>)
    requires DistinctAnnotationIds(s) && forall x :: x in s ==> x.event.id != a.event.id
    ensures DistinctAnnotationIds(Sorting.Insert(a, s, VideoLeq))
  {
    if s != [] && !VideoLeq(a, s[0]) {
      InsertKeepsDistinctIds(a, s[1..]);
      Sorting.InsertMembers(a, s[1..], VideoLeq);
      var t := Sorting.Insert(a, s[1..], VideoLeq);
      forall j | 0 <= j < |t| ensures t[j].event.id != s[0].event.id {
        assert t[j] == a || t[j] in s[1..];
      }
    }
  }

  lemma {:induction false} SortKeepsDistinctIds(s: seq<Annotation>)
    requires DistinctAnnotationIds(s)
    ensures DistinctAnnotationIds(Sorting.Sort(s, VideoLeq))
  {
    if s != [] {
      SortKeepsDistinctIds(s[1..]);
      Sorting.SortKeepsMembers(s[1..], VideoLeq);
      InsertKeepsDistinctIds(s[0], Sorting.Sort(s[1..], VideoLeq));
    }
  }

  /** The annotations in display order, before the score is replayed. */
  function DisplayOrder(rows: seq<Band>, events: seq<Event>): seq<Annotation>
    requires PlaceAll(rows, events, |events|).Success?
  {
    Sorting.Sort(PlaceAll(rows, events, |events|).value, VideoLeq)
  }

  lemma {:induction false} DisplayedAnnotations(rows: seq<Band>, events: seq<Event>)
    requires PlaceAll(rows, events, |events|).Success?
    ensures forall i :: 0 <= i < |DisplayOrder(rows, events)| ==>
        PlacedFrom(rows, events, DisplayOrder(rows, events)[i])
    ensures forall e :: e in events ==>
        exists i :: 0 <= i < |DisplayOrder(rows, events)| && DisplayOrder(rows, events)[i].event == e
    ensures DistinctIds(events) ==> DistinctAnnotationIds(DisplayOrder(rows, events))
  {
    var placed := PlaceAll(rows, events, |events|).value;
    var shown := DisplayOrder(rows, events);
    PlaceAllPlaces(rows, events, |events|);
    Sorting.SortKeepsMembers(placed, VideoLeq);
    forall i | 0 <= i < |shown| ensures PlacedFrom(rows, events, shown[i]) {
      assert shown[i] in placed;
    }
    forall e | e in events ensures exists i :: 0 <= i < |shown| && shown[i].event == e {
      var k :| 0 <= k < |events| && events[k] == e;
      assert placed[k] in shown;
    }
    if DistinctIds(events) { SortKeepsDistinctIds(placed); }
  }

  lemma {:induction false} DisplayedNonShootoutIsPlaced(rows: seq<Band>, events: seq<Event>)
    requires PlaceAll(rows, events, |events|).Success?
    requires FirstEventDefect(events).None?
    ensures AllPlaced(rows, DisplayOrder(rows, events))
  {
    DisplayedAnnotations(rows, events);
    var shown := DisplayOrder(rows, events);
    forall i | 0 <= i < |shown| && !shown[i].event.shootout ensures EventIndex(rows, shown[i].event).Some? {
      assert PlacedFrom(rows, events, shown[i]);
      assert EventDefect(shown[i].event).None?;
    }
  }

  lemma {:induction false} NormalizingKeepsPlaces(rows: seq<Band>, shown: seq<Annotation>)
    requires Replays(shown) && AllPlaced(rows, shown)
    ensures AllPlaced(rows, Normalized(shown))
  {
  }

  function Assemble(facts: Facts, events: seq<Event>, metrics: seq<Metric>, rows: seq<Band>): Result<Story, StoryError>
    requires FirstEventDefect(events).None?
  {
    match PlaceAll(rows, events, |events|)
    case Failure(e) => Failure(e)
    case Success(_) =>
      match Replay(facts, DisplayOrder(rows, events))
      case Failure(e) => Failure(BadScore(e))
      case Success((annotations, checkpoints)) =>
        DisplayedNonShootoutIsPlaced(rows, events);
        NormalizingKeepsPlaces(rows, DisplayOrder(rows, events));
        var story := Story(rows, annotations, checkpoints, metrics, AllReactions(rows, annotations, metrics));
        if ValidStory(facts, story) then Success(story) else Failure(InvalidStory)
  }

  lemma {:induction false} AcceptedFacts(facts: Facts, events: seq<Event>)
    requires ValidateFacts(facts, events).Success?
    ensures PeriodsInOrder(facts)
    ensures ValidSpecs(MinuteSpecs(facts, events))
    ensures MinuteSpecs(facts, events) != []
    ensures DistinctIds(events) && OrdersIncrease(events) && FirstEventDefect(events).None?
    ensures forall e :: e in events ==> EventDefect(e).None?
  {
    AcceptedPeriodsAreInOrder(facts);
    OrderedPeriodsGiveValidSpecs(facts, events);
  }

  /** The story of observations whose timestamps are dates, or the error raised. */
  function Build(facts: Facts, events: seq<Event>, metrics: seq<Metric>, profile: Profile): Result<Story, StoryError> {
    match ValidateFacts(facts, events)
    case Failure(e) => Failure(BadFacts(e))
    case Success(_) =>
      AcceptedFacts(facts, events);
      match MinuteRows(MinuteSpecs(facts, events), profile.preMatch, Step(facts, events, profile), profile.halftime)
      case Failure(e) => Failure(BadBand(e))
      case Success((regular, cursor)) =>
        Assemble(facts, events, metrics, WithShootout(facts, events, profile, regular, cursor))
  }

  // ---- dates ----

  /** The first millisecond of the year 1 and the last one of the year 9999. */
  const FIRST_DATE: int := -62_135_596_800_000
  const LAST_DATE: int := 253_402_300_799_999

  predicate IsDate(timestamp: int) {
    FIRST_DATE <= timestamp <= LAST_DATE
  }

  function Least(times: seq<int>): (least: int)
    requires times != []
    ensures least in times && forall t :: t in times ==> least <= t
  {
    if |times| == 1 then times[0] else
    var rest := Least(times[1..]);
    assert times == [times[0]] + times[1..];
    if times[0] <= rest then times[0] else rest
  }

  function Greatest(times: seq<int>): (greatest: int)
    requires times != []
    ensures greatest in times && forall t :: t in times ==> t <= greatest
  {
    if |times| == 1 then times[0] else
    var rest := Greatest(times[1..]);
    assert times == [times[0]] + times[1..];
    if times[0] >= rest then times[0] else rest
  }

  /** Each observation's timestamp, and then each trade's. */
  function SourceTimestamps(metrics: seq<Metric>, trades: seq<int>): seq<int> {
    seq(|metrics|, i requires 0 <= i < |metrics| => metrics[i].timestamp) + trades
  }

  /** The market's first and last instant, if there is any, are made into dates. */
  predicate MarketHasDates(times: seq<int>) {
    times != [] ==> IsDate(Least(times)) && IsDate(Greatest(times))
  }

  /** All that `build_story` does, as a function. */
  function BuildFromMarket(facts: Facts, events: seq<Event>, metrics: seq<Metric>, trades: seq<int>, profile: Profile)
    : Result<Story, StoryError>
  {
    match ValidateFacts(facts, events)
    case Failure(e) => Failure(BadFacts(e))
    case Success(_) =>
      if MarketHasDates(SourceTimestamps(metrics, trades)) then Build(facts, events, metrics, profile)
      else Failure(NotADate)
  }

  /** The builder, step by step. */
  method BuildStory(facts: Facts, events: seq<Event>, metrics: seq<Metric>, trades: seq<int>, profile: Profile)
    returns (r: Result<Story, StoryError>)
    ensures r == BuildFromMarket(facts, events, metrics, trades, profile)
  {
    var checked := ValidateFacts(facts, events);
    if checked.Failure? {
      return Failure(BadFacts(checked.error));
    }
    if !MarketHasDates(SourceTimestamps(metrics, trades)) {
      return Failure(NotADate);
    }
    AcceptedFacts(facts, events);
    var step := Step(facts, events, profile);
    var built := BuildMinuteRows(MinuteSpecs(facts, events), profile.preMatch, step, profile.halftime);
    if built.Failure? {
      return Failure(BadBand(built.error));
    }
    var rows := WithShootout(facts, events, profile, built.value.0, built.value.1);
    var placed := PlaceEvents(rows, events);
    if placed.Failure? {
      return Failure(placed.error);
    }
    var shown := Sorting.Sort(placed.value, VideoLeq);
    var replayed := NormalizeScores(facts, shown);
    if replayed.Failure? {
      return Failure(BadScore(replayed.error));
    }
    DisplayedNonShootoutIsPlaced(rows, events);
    NormalizingKeepsPlaces(rows, shown);
    var reactions := MarketReactions(rows, replayed.value.0, metrics);
    var story := Story(rows, replayed.value.0, replayed.value.1, metrics, reactions);
    if !ValidStory(facts, story) {
      return Failure(InvalidStory);
    }
    r := Success(story);
  }

  // ---- the shootout's row and the dates, in their own terms ----

  /** The shootout's row runs from the last whistle to the end of the match and has no minute. */
  lemma {:induction false} ShootoutRowIs(facts: Facts, events: seq<Event>, profile: Profile, cursor: real)
    requires ValidateFacts(facts, events).Success? && HasPenalties(events)
    ensures var row := ShootoutBand(facts, events, profile, cursor);
      row.period == Penalties && row.minute.None? && row.stoppage.None? && row.weight.None?
      && row.sourceStart == LastWhistle(facts) && Some(row.sourceEnd) == facts.matchEnd
          && row.sourceStart < row.sourceEnd
  {
    FactsAcceptedExactly(facts, events);
    var e :| e in events && e.period == Penalties;
    var i :| 0 <= i < |events| && events[i] == e;
  }

  /** Days of the Gregorian calendar from the first of January of the year 1 to that of the given year. */
  function DaysBefore(year: int): int {
    365 * (year - 1) + (year - 1) / 4 - (year - 1) / 100 + (year - 1) / 400
  }

  /** A timestamp is a date exactly if its day lies in the years 1 to 9999. */
  lemma {:induction false} DatesExactly(timestamp: int)
    ensures IsDate(timestamp) <==>
            DaysBefore(1) <= timestamp / 86_400_000 + DaysBefore(1970) < DaysBefore(10_000)
  {
  }
}

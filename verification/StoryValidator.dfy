/**
 The story of a match and the validator that re-derives its invariants from the facts alone, reading
 nothing of how the builder produced it.
 */
module StoryValidator {
  import opened Wrappers
  import opened Timescale
  import opened Counting
  import opened MatchFacts
  import opened ScoreReplay
  import opened VideoTimeline
  import opened Reactions

  datatype Story = Story(
    bands: seq<Band>,
    annotations: seq<Annotation>,
    checkpoints: seq<Checkpoint>,
    metrics: seq<Metric>,
    reactions: seq<Reaction>)

  datatype Played = Played(period: Period, start: int, end: int)

  function PlayedPeriods(facts: Facts): seq<Played> {
    [Played(FirstHalf, facts.firstStart, facts.firstEnd), Played(SecondHalf, facts.secondStart, facts.secondEnd)]
    + (if facts.firstExtraStart.Some? && facts.firstExtraEnd.Some?
          && facts.secondExtraStart.Some? && facts.secondExtraEnd.Some? then
         [Played(FirstExtra, facts.firstExtraStart.value, facts.firstExtraEnd.value),
          Played(SecondExtra, facts.secondExtraStart.value, facts.secondExtraEnd.value)]
       else [])
  }

  function PeriodRows(bands: seq<Band>, period: Period): seq<Band> {
    if bands == [] then []
    else (if bands[0].period == period then [bands[0]] else []) + PeriodRows(bands[1..], period)
  }

  /** Every band but the shootout's belongs to a played period, and every played period has one. */
  predicate InventoryMatches(facts: Facts, bands: seq<Band>) {
    && (forall i :: 0 <= i < |bands| && bands[i].period != Penalties ==>
          exists p <- PlayedPeriods(facts) :: p.period == bands[i].period)
    && (forall p <- PlayedPeriods(facts) :: PeriodRows(bands, p.period) != [])
  }

  predicate RowsTilePeriod(rows: seq<Band>, start: int, end: int) {
    && rows != []
    && rows[0].sourceStart == start
    && rows[|rows| - 1].sourceEnd == end
    && (forall i :: 0 <= i < |rows| ==>
          rows[i].sourceStart < rows[i].sourceEnd && rows[i].weight == Some(1.0)
              && rows[i].videoStart < rows[i].videoEnd)
    && (forall i :: 0 <= i < |rows| - 1 ==>
          rows[i].sourceEnd - rows[i].sourceStart == MINUTE && rows[i].sourceEnd == rows[i + 1].sourceStart)
    && rows[|rows| - 1].sourceEnd - rows[|rows| - 1].sourceStart <= MINUTE + MILLISECOND
  }

  predicate PeriodsTile(facts: Facts, bands: seq<Band>) {
    forall p <- PlayedPeriods(facts) :: RowsTilePeriod(PeriodRows(bands, p.period), p.start, p.end)
  }

  /** The longest and shortest minute on screen differ by at most 2e-9 seconds. */
  predicate VideoIsUniform(bands: seq<Band>) {
    forall i, j ::
      0 <= i < |bands| && 0 <= j < |bands| && bands[i].period != Penalties && bands[j].period != Penalties ==>
      Length(bands[i]) - Length(bands[j]) <= 2
  }

  predicate DistinctAnnotationIds(annotations: seq<Annotation>) {
    forall i, j :: 0 <= i < j < |annotations| ==> annotations[i].event.id != annotations[j].event.id
  }

  predicate AnnotationMapped(bands: seq<Band>, a: Annotation) {
    var index := EventIndex(bands, a.event);
    && index.Some?
    && a.videoStart == bands[index.value].videoStart
    && a.videoEnd == bands[index.value].videoEnd
    && a.event.home.Some? && a.event.away.Some? && a.event.home.value >= 0 && a.event.away.value >= 0
  }

  predicate AllMapped(bands: seq<Band>, annotations: seq<Annotation>) {
    forall i :: 0 <= i < |annotations| ==> AnnotationMapped(bands, annotations[i])
  }

  function ScoringAnnotations(annotations: seq<Annotation>, n: nat): seq<Annotation>
    requires n <= |annotations|
  {
    if n == 0 then []
    else if IsScoring(annotations[n - 1].event) then ScoringAnnotations(annotations, n - 1) + [annotations[n - 1]]
    else ScoringAnnotations(annotations, n - 1)
  }

  predicate CheckpointMatches(c: Checkpoint, a: Annotation) {
    c.order == a.event.order && c.videoStart == a.videoEnd
    && Some(c.home) == a.event.home && Some(c.away) == a.event.away
  }

  predicate CheckpointsMatch(annotations: seq<Annotation>, checkpoints: seq<Checkpoint>) {
    var scoring := ScoringAnnotations(annotations, |annotations|);
    && checkpoints != []
    && checkpoints[0] == Checkpoint(0, 0, 0, 0)
    && |checkpoints| == |scoring| + 1
    && forall k :: 0 <= k < |scoring| ==> CheckpointMatches(checkpoints[k + 1], scoring[k])
  }

  /** The event-role pairs a complete set of reactions has, in order. */
  function ExpectedPairs(annotations: seq<Annotation>, n: nat, roles: seq<string>): seq<(string, string)>
    requires n <= |annotations|
  {
    if n == 0 then []
    else if annotations[n - 1].event.shootout then ExpectedPairs(annotations, n - 1, roles)
    else ExpectedPairs(annotations, n - 1, roles) + PairsOf(annotations[n - 1].event.id, roles)
  }

  function PairsOf(id: string, roles: seq<string>): seq<(string, string)> {
    seq(|roles|, k requires 0 <= k < |roles| => (id, roles[k]))
  }

  function ActualPairs(reactions: seq<Reaction>): seq<(string, string)> {
    seq(|reactions|, k requires 0 <= k < |reactions| => (reactions[k].eventId, reactions[k].role))
  }

  predicate ReactionsComplete(story: Story) {
    var actual := ActualPairs(story.reactions);
    && actual == ExpectedPairs(story.annotations, |story.annotations|, RoleNames(story.metrics, |story.metrics|))
    && NoRepeats(actual)
  }

  function AnnotationIndex(annotations: seq<Annotation>, id: string): (r: Option<nat>)
    ensures r.Some? ==> r.value < |annotations| && annotations[r.value].event.id == id
    ensures r.None? <==> forall i :: 0 <= i < |annotations| ==> annotations[i].event.id != id
  {
    if annotations == [] then None
    else if annotations[|annotations| - 1].event.id == id then Some(|annotations| - 1)
    else AnnotationIndex(annotations[..|annotations| - 1], id)
  }

  predicate BeforeIsInPeriod(before: Option<Observation>, start: int, period: Period, rows: seq<Band>)
    requires rows != []
  {
    before.Some? ==>
      before.value.timestamp < start
      && (period == FirstHalf || before.value.timestamp >= CeilMs(rows[0].sourceStart))
  }

  predicate AfterIsInPeriod(after: Option<Observation>, end: Option<int>, rows: seq<Band>)
    requires rows != []
  {
    after.Some? ==>
      end.Some? && end.value <= after.value.timestamp <= FloorMs(rows[|rows| - 1].sourceEnd)
  }

  predicate ReactionValid(bands: seq<Band>, a: Annotation, r: Reaction) {
    EventIndex(bands, a.event).Some?
    && var index := EventIndex(bands, a.event).value;
       var rows := PeriodRows(bands, bands[index].period);
       && rows != []
       && r.primary.start == r.extended.start == WindowStart(bands, index)
       && r.primary.end == Some(WindowEnd(bands, index))
       && r.extended.end == FollowingEnd(bands, index)
       && r.primary.before == r.extended.before
       && BeforeIsInPeriod(r.primary.before, r.primary.start, bands[index].period, rows)
       && AfterIsInPeriod(r.primary.after, r.primary.end, rows)
       && AfterIsInPeriod(r.extended.after, r.extended.end, rows)
  }

  predicate ReactionsValid(story: Story) {
    forall k :: 0 <= k < |story.reactions| ==>
      var index := AnnotationIndex(story.annotations, story.reactions[k].eventId);
      index.Some? && ReactionValid(story.bands, story.annotations[index.value], story.reactions[k])
  }

  predicate ValidStory(facts: Facts, story: Story) {
    && InventoryMatches(facts, story.bands)
    && PeriodsTile(facts, story.bands)
    && VideoIsUniform(story.bands)
    && DistinctAnnotationIds(story.annotations)
    && AllMapped(story.bands, story.annotations)
    && CheckpointsMatch(story.annotations, story.checkpoints)
    && ReactionsComplete(story)
    && ReactionsValid(story)
  }
}

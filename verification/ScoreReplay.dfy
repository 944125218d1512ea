/**
 Replaying the score along a match's annotations: scoring events must raise exactly one team's score
 by one, every annotation shows the score so far, and a checkpoint is kept per goal.
 */
module ScoreReplay {
  import opened Wrappers
  import opened MatchFacts

  /** An event placed on the video. Its home and away fields are overwritten by the replay. */
  datatype Annotation = Annotation(event: Event, videoStart: int, videoEnd: int)

  datatype Checkpoint = Checkpoint(order: int, videoStart: int, home: int, away: int)

  datatype Score = Score(home: int, away: int) {
    function Total(): int { home + away }
  }

  datatype ScoreError = MissingScore(id: string) | NotOneGoal(id: string) | FinalScoreMismatch

  predicate IsScoring(e: Event) {
    e.period != Penalties && !e.shootout && !e.revoked && e.kind != OtherKind
  }

  /** Goals, own goals and scored penalties count; revoked events and those of a shootout never do. */
  lemma {:induction false} ScoringExactly(e: Event)
    ensures e.kind in {Goal, OwnGoal, PenaltyScored} && !e.revoked && !e.shootout && e.period != Penalties ==>
        IsScoring(e)
    ensures e.revoked || e.shootout || e.period == Penalties || e.kind == OtherKind ==> !IsScoring(e)
    ensures IsScoring(e) <==> IsScoring(e.(kind := if e.kind == OtherKind then OtherKind else Goal, stoppage := None))
  {
  }

  predicate OneGoal(before: Score, after: Score) {
    (after.home - before.home, after.away - before.away) == (1, 0)
    || (after.home - before.home, after.away - before.away) == (0, 1)
  }

  /** The score after one more annotation. */
  function Next(current: Score, e: Event): Result<Score, ScoreError> {
    if !IsScoring(e) then Success(current)
    else if e.home.None? || e.away.None? then Failure(MissingScore(e.id))
    else if !OneGoal(current, Score(e.home.value, e.away.value)) then Failure(NotOneGoal(e.id))
    else Success(Score(e.home.value, e.away.value))
  }

  /** The score after the first n annotations, or the first error on the way. */
  function Scoreboard(annotations: seq<Annotation>, n: nat): Result<Score, ScoreError>
    requires n <= |annotations|
  {
    if n == 0 then Success(Score(0, 0))
    else match Scoreboard(annotations, n - 1)
         case Failure(e) => Failure(e)
         case Success(current) => Next(current, annotations[n - 1].event)
  }

  predicate Replays(annotations: seq<Annotation>) {
    Scoreboard(annotations, |annotations|).Success?
  }

  lemma {:induction false} PrefixReplays(annotations: seq<Annotation>, i: nat, n: nat)
    requires i <= n <= |annotations|
    ensures Scoreboard(annotations, i).Failure? ==> Scoreboard(annotations, n) == Scoreboard(annotations, i)
    decreases n - i
  {
    if i < n { PrefixReplays(annotations, i + 1, n); }
  }

  function ScoreAt(annotations: seq<Annotation>, n: nat): Score
    requires Replays(annotations) && n <= |annotations|
  {
    PrefixReplays(annotations, n, |annotations|);
    Scoreboard(annotations, n).value
  }

  function Shown(a: Annotation, score: Score): Annotation {
    a.(event := a.event.(home := Some(score.home), away := Some(score.away)))
  }

  /** The annotations with the running score written into them. */
  function Normalized(annotations: seq<Annotation>): (r: seq<Annotation>)
    requires Replays(annotations)
    ensures |r| == |annotations|
  {
    seq(|annotations|, i requires 0 <= i < |annotations| => Shown(annotations[i], ScoreAt(annotations, i + 1)))
  }

  function CheckpointFor(a: Annotation, score: Score): Checkpoint {
    Checkpoint(a.event.order, a.videoEnd, score.home, score.away)
  }

  /** The opening 0-0 and one checkpoint per scoring event among the first n annotations. */
  function Checkpoints(annotations: seq<Annotation>, n: nat): seq<Checkpoint>
    requires n <= |annotations| && Scoreboard(annotations, n).Success?
  {
    if n == 0 then [Checkpoint(0, 0, 0, 0)]
    else if IsScoring(annotations[n - 1].event) then
      Checkpoints(annotations, n - 1) + [CheckpointFor(annotations[n - 1], Scoreboard(annotations, n).value)]
    else Checkpoints(annotations, n - 1)
  }

  /** The declared final score, when both teams' are given, is the replayed one. */
  predicate FinalAgrees(facts: Facts, score: Score) {
    facts.homeScore.Some? && facts.awayScore.Some? ==> score == Score(facts.homeScore.value, facts.awayScore.value)
  }

  function Replay(facts: Facts, annotations: seq<Annotation>): Result<(seq<Annotation>, seq<Checkpoint>), ScoreError> {
    match Scoreboard(annotations, |annotations|)
    case Failure(e) => Failure(e)
    case Success(score) =>
      if FinalAgrees(facts, score) then Success((Normalized(annotations), Checkpoints(annotations, |annotations|)))
      else Failure(FinalScoreMismatch)
  }

  ghost predicate ShowsScore(annotations: seq<Annotation>, k: nat, shown: Annotation)
    requires k < |annotations|
  {
    Scoreboard(annotations, k + 1).Success? && shown == Shown(annotations[k], Scoreboard(annotations, k + 1).value)
  }

  /** The source's loop, which overwrites each annotation's score and collects checkpoints. */
  method NormalizeScores(facts: Facts, annotations: seq<Annotation>)
    returns (r: Result<(seq<Annotation>, seq<Checkpoint>), ScoreError>)
    ensures r == Replay(facts, annotations)
  {
    var shown := annotations;
    var checkpoints := [Checkpoint(0, 0, 0, 0)];
    var current := Score(0, 0);
    var i := 0;
    while i < |annotations|
      invariant 0 <= i <= |annotations| == |shown|
      invariant Scoreboard(annotations, i) == Success(current)
      invariant forall k :: i <= k < |shown| ==> shown[k] == annotations[k]
      invariant forall k :: 0 <= k < i ==> ShowsScore(annotations, k, shown[k])
      invariant checkpoints == Checkpoints(annotations, i)
    {
      var a := shown[i];
      PrefixReplays(annotations, i + 1, |annotations|);
      if IsScoring(a.event) {
        if a.event.home.None? || a.event.away.None? {
          return Failure(MissingScore(a.event.id));
        }
        var next := Score(a.event.home.value, a.event.away.value);
        if !OneGoal(current, next) {
          return Failure(NotOneGoal(a.event.id));
        }
        current := next;
        checkpoints := checkpoints + [CheckpointFor(a, current)];
      }
      assert Scoreboard(annotations, i + 1) == Success(current);
      assert ShowsScore(annotations, i, Shown(a, current));
      assert checkpoints == Checkpoints(annotations, i + 1);
      shown := shown[i := Shown(a, current)];
      i := i + 1;
    }
    forall k | 0 <= k < |annotations| ensures shown[k] == Normalized(annotations)[k] {
      assert ShowsScore(annotations, k, shown[k]);
    }
    assert shown == Normalized(annotations);
    if facts.homeScore.Some? && facts.awayScore.Some?
       && current != Score(facts.homeScore.value, facts.awayScore.value) {
      return Failure(FinalScoreMismatch);
    }
    r := Success((shown, checkpoints));
  }

  // ---- conservation ----

  /** Scoring events among the first n annotations. */
  function Goals(annotations: seq<Annotation>, n: nat): nat
    requires n <= |annotations|
  {
    if n == 0 then 0 else Goals(annotations, n - 1) + if IsScoring(annotations[n - 1].event) then 1 else 0
  }

  /** The replayed score counts exactly the scoring events, and neither side's is negative. */
  lemma {:induction false} GoalsAreConserved(annotations: seq<Annotation>, n: nat)
    requires n <= |annotations| && Scoreboard(annotations, n).Success?
    ensures var score := Scoreboard(annotations, n).value;
            score.Total() == Goals(annotations, n) && score.home >= 0 && score.away >= 0
  {
    if n > 0 { GoalsAreConserved(annotations, n - 1); }
  }

  /** Shown scores count the goals up to and including the annotation; nothing else in it changes. */
  lemma {:induction false} ShownScoreCountsGoals(annotations: seq<Annotation>, i: nat)
    requires Replays(annotations) && i < |annotations|
    ensures var e := Normalized(annotations)[i].event;
            && e.home.Some? && e.away.Some? && e.home.value >= 0 && e.away.value >= 0
            && e.home.value + e.away.value == Goals(annotations, i + 1)
            && Normalized(annotations)[i].(event := e.(home := annotations[i].event.home,
                away := annotations[i].event.away))
               == annotations[i]
  {
    PrefixReplays(annotations, i + 1, |annotations|);
    GoalsAreConserved(annotations, i + 1);
  }

  /** Neither team's score ever falls. */
  lemma {:induction false} ScoresNeverFall(annotations: seq<Annotation>, i: nat, j: nat)
    requires Replays(annotations) && i <= j <= |annotations|
    ensures ScoreAt(annotations, i).home <= ScoreAt(annotations, j).home
    ensures ScoreAt(annotations, i).away <= ScoreAt(annotations, j).away
    decreases j
  {
    if i < j {
      PrefixReplays(annotations, j, |annotations|);
      ScoresNeverFall(annotations, i, j - 1);
    }
  }

  /** One checkpoint per goal after the opening 0-0; the k-th holds k goals; the last is the score reached. */
  lemma {:induction false} CheckpointsCountGoals(annotations: seq<Annotation>, n: nat)
    requires n <= |annotations| && Scoreboard(annotations, n).Success?
    ensures var cs := Checkpoints(annotations, n);
            && |cs| == Goals(annotations, n) + 1
            && cs[0] == Checkpoint(0, 0, 0, 0)
            && (forall k :: 0 <= k < |cs| ==> cs[k].home + cs[k].away == k && cs[k].home >= 0 && cs[k].away >= 0)
            && Score(cs[|cs| - 1].home, cs[|cs| - 1].away) == Scoreboard(annotations, n).value
  {
    if n > 0 {
      CheckpointsCountGoals(annotations, n - 1);
      GoalsAreConserved(annotations, n);
    }
  }

  // ---- when the replay succeeds ----

  function ScoringEvents(annotations: seq<Annotation>, n: nat): seq<Event>
    requires n <= |annotations|
  {
    if n == 0 then []
    else if IsScoring(annotations[n - 1].event) then ScoringEvents(annotations, n - 1) + [annotations[n - 1].event]
    else ScoringEvents(annotations, n - 1)
  }

  /** The score supplied by the k-th scoring event; 0-0 before the first. */
  function SuppliedScore(goals: seq<Event>, k: nat): Option<Score>
    requires k <= |goals|
  {
    if k == 0 then Some(Score(0, 0))
    else if goals[k - 1].home.None? || goals[k - 1].away.None? then None
    else Some(Score(goals[k - 1].home.value, goals[k - 1].away.value))
  }

  predicate StepsAt(goals: seq<Event>, k: nat)
    requires k < |goals|
  {
    && SuppliedScore(goals, k).Some? && SuppliedScore(goals, k + 1).Some?
    && (var before, after := SuppliedScore(goals, k).value, SuppliedScore(goals, k + 1).value;
        after == before.(home := before.home + 1) || after == before.(away := before.away + 1))
  }

  /** Every scoring event supplies a score, one goal up on the one before. */
  predicate StepsByOne(goals: seq<Event>) {
    forall k :: 0 <= k < |goals| ==> StepsAt(goals, k)
  }

  predicate SuppliedFinalAgrees(facts: Facts, goals: seq<Event>) {
    && SuppliedScore(goals, |goals|).Some?
    && (facts.homeScore.Some? && facts.awayScore.Some? ==>
          SuppliedScore(goals, |goals|).value.home == facts.homeScore.value
          && SuppliedScore(goals, |goals|).value.away == facts.awayScore.value)
  }

  lemma {:induction false} StepsByOneExtends(goals: seq<Event>, e: Event)
    ensures StepsByOne(goals + [e]) <==> StepsByOne(goals) && StepsAt(goals + [e], |goals|)
  {
    var more := goals + [e];
    assert forall k :: 0 <= k <= |goals| ==> SuppliedScore(more, k) == SuppliedScore(goals, k);
    forall k | 0 <= k < |goals| ensures StepsAt(more, k) <==> StepsAt(goals, k) {
    }
  }

  /** The replay depends only on the scoring events' own scores, and succeeds exactly when they step by one. */
  lemma {:induction false} ReplaySucceedsExactly(annotations: seq<Annotation>, n: nat)
    requires n <= |annotations|
    ensures var goals := ScoringEvents(annotations, n);
            && (Scoreboard(annotations, n).Success? <==> StepsByOne(goals))
            && (Scoreboard(annotations, n).Success? ==>
                  SuppliedScore(goals, |goals|) == Some(Scoreboard(annotations, n).value))
  {
    if n > 0 {
      ReplaySucceedsExactly(annotations, n - 1);
      StepsByOneExtends(ScoringEvents(annotations, n - 1), annotations[n - 1].event);
    }
  }

  /** The whole replay, the declared result included. */
  lemma {:induction false} ReplayExactly(facts: Facts, annotations: seq<Annotation>)
    ensures var goals := ScoringEvents(annotations, |annotations|);
      Replay(facts, annotations).Success? <==> StepsByOne(goals) && SuppliedFinalAgrees(facts, goals)
  {
    ReplaySucceedsExactly(annotations, |annotations|);
  }
}

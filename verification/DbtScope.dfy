/**
 Which tables a dbt build protects. A build marks the tables that its selection text, or the asset keys of a
 subset, mention, and the soccer tables only when it runs for the soccer scope; dbt itself writes whatever
 it selects. The results are exactly which requests are safe wherever they are cut, that no whole run of
 the main asset protects the hourly table and the soccer tables together, and what the default build leaves.
 */
module DbtScope {
  import opened Wrappers
  import opened DbtBuild

  const SOCCER := "polymarket_soccer_"
  const RESULT := SOCCER + "match_result_"

  const HOURLY_MODEL: Model := "int_polymarket_wc2026_token_hourly_odds"
  const OBSERVED_MODEL: Model := "int_" + RESULT + "observed"
  const DENSE_MODEL: Model := "int_" + RESULT + "minute_odds"
  const SOCCER_MODELS: seq<Model> := [OBSERVED_MODEL, DENSE_MODEL]

  const HOURLY_SUBJECTS := [
    HOURLY_MODEL, "token_hourly_odds", "polymarket_wc2026_market_hourly_odds", "market_hourly_odds"
  ]
  const QUALITY := RESULT + "data_quality"
  const SOCCER_SUBJECTS := [OBSERVED_MODEL, DENSE_MODEL, RESULT + "minute_odds", QUALITY]

  const MODELING := RESULT + "minute_odds_modeling"
  const CORE_SELECT := "+" + (QUALITY + (" +" + (MODELING + (" " + (SOCCER + "matches")))))
  const SOCCER_SELECT := CORE_SELECT + (" +" + (SOCCER + "pipeline_health"))

  // ---- text ----

  function Lower(c: char): char {
    if 'A' <= c <= 'Z' then c - 'A' + 'a' else c
  }

  function Lowered(s: string): string {
    seq(|s|, i requires 0 <= i < |s| => Lower(s[i]))
  }

  predicate IsBlank(c: char) {
    c == ' ' || '\t' <= c <= '\r' || '\U{1C}' <= c <= '\U{1F}'
  }

  function Stripped(s: string): string
    decreases |s|
  {
    if s == "" then ""
    else if IsBlank(s[0]) then Stripped(s[1..])
    else if IsBlank(s[|s| - 1]) then Stripped(s[..|s| - 1])
    else s
  }

  predicate OccursAt(text: string, part: string, i: nat)
    requires i + |part| <= |text|
  {
    text[i..i + |part|] == part
  }

  predicate Contains(text: string, part: string) {
    exists i :: 0 <= i <= |text| - |part| && OccursAt(text, part, i)
  }

  predicate Mentions(text: string, subjects: seq<string>) {
    exists i :: 0 <= i < |subjects| && Contains(text, subjects[i])
  }

  // ---- scopes ----

  /** A build as asked for: the configured selection ("" for none) and, of a subset run, the selected asset keys. */
  datatype Request = Request(fullRefresh: bool, select: string, subset: Option<set<string>>) {
    function Selector(): string {
      Lowered(Stripped(select))
    }

    predicate KeysMention(subjects: seq<string>)
      requires subset.Some?
    {
      exists key :: key in subset.value && Mentions(Lowered(key), subjects)
    }

    predicate HourlyInScope() {
      if subset.Some? then KeysMention(HOURLY_SUBJECTS)
      else Selector() == "" || Mentions(Selector(), HOURLY_SUBJECTS)
    }

    predicate SoccerInScope() {
      if subset.Some? then KeysMention(SOCCER_SUBJECTS)
      else Selector() == "" || Contains(Selector(), "tag:soccer") || Mentions(Selector(), SOCCER_SUBJECTS)
    }
  }

  datatype Asset = OddsfoxDbt | SoccerMonitoring

  /** The main asset runs for the soccer scope only under the two shipped soccer selections, letter for letter. */
  predicate RunsForSoccer(asset: Asset, q: Request) {
    asset == SoccerMonitoring || q.select == CORE_SELECT || q.select == SOCCER_SELECT
  }

  /** The models whose markers a build reads, sets and clears, in that order. */
  function Scope(asset: Asset, q: Request): seq<Model> {
    if q.fullRefresh then []
    else
      (if q.HourlyInScope() then [HOURLY_MODEL] else [])
      + (if RunsForSoccer(asset, q) && q.SoccerInScope() then SOCCER_MODELS else [])
  }

  /** The build that serves a request when dbt selects the given tables, cut after `steps` actions. */
  function JobOf(asset: Asset, q: Request, writes: set<Model>, steps: nat): Job {
    if q.fullRefresh then FullRefresh(writes, steps) else Ordinary(Scope(asset, q), writes, steps)
  }

  // ---- which requests are safe ----

  ghost predicate SafeWhenServed(d: Disk, asset: Asset, q: Request, writes: set<Model>, steps: nat) {
    Safe(Done(d, JobOf(asset, q, writes, steps)))
  }

  /** A request can be cut anywhere exactly if every table dbt writes for it is in its scope or marked from before. */
  lemma {:induction false} RequestIsSafeExactly(d: Disk, asset: Asset, q: Request, writes: set<Model>)
    requires Safe(d)
    ensures (forall steps :: SafeWhenServed(d, asset, q, writes, steps))
        <==> writes - Models(Scope(asset, q)) <= d.marked
  {
    var worst := if q.fullRefresh then 1 else |Preparation(Scope(asset, q), d.marked)| + 1;
    forall steps ensures writes - Models(Scope(asset, q)) <= d.marked ==> SafeWhenServed(d, asset, q, writes, steps) {
      JobIsSafeExactly(d, JobOf(asset, q, writes, steps));
    }
    JobIsSafeExactly(d, JobOf(asset, q, writes, worst));
    if forall steps :: SafeWhenServed(d, asset, q, writes, steps) {
      assert SafeWhenServed(d, asset, q, writes, worst);
    }
  }

  // ---- what the shipped selections mention ----

  predicate HoAt(s: string, i: nat)
    requires i + 1 < |s|
  {
    s[i] == 'h' && s[i + 1] == 'o'
  }

  /** Every hourly subject has these two letters in a row, and no shipped soccer selection has. */
  predicate HasHo(s: string) {
    exists i :: 0 <= i < |s| - 1 && HoAt(s, i)
  }

  lemma {:induction false} HoIsInherited(text: string, part: string)
    requires Contains(text, part) && HasHo(part)
    ensures HasHo(text)
  {
    var i: nat :| i + |part| <= |text| && OccursAt(text, part, i);
    var j: nat :| j < |part| - 1 && HoAt(part, j);
    assert text[i..i + |part|][j] == text[i + j] && text[i..i + |part|][j + 1] == text[i + j + 1];
    assert HoAt(text, i + j);
  }

  lemma {:induction false} HourlySubjectsHaveHo(i: nat)
    requires i < |HOURLY_SUBJECTS|
    ensures HasHo(HOURLY_SUBJECTS[i])
  {
    assert HoAt("token_hourly_odds", 6);
    assert HoAt("market_hourly_odds", 7);
    assert HoAt(HOURLY_MODEL, 28);
    assert HoAt("polymarket_wc2026_market_hourly_odds", 25);
  }

  lemma {:induction false} MentionHasHo(text: string)
    requires Mentions(text, HOURLY_SUBJECTS)
    ensures HasHo(text)
  {
    var i :| 0 <= i < |HOURLY_SUBJECTS| && Contains(text, HOURLY_SUBJECTS[i]);
    HourlySubjectsHaveHo(i);
    HoIsInherited(text, HOURLY_SUBJECTS[i]);
  }

  /** Small letters throughout, no "ho", and none to come from a join with what follows. */
  predicate IsPlain(s: string) {
    && (forall i :: 0 <= i < |s| ==> Lower(s[i]) == s[i])
    && (forall i :: 0 <= i < |s| - 1 ==> !HoAt(s, i))
    && s != "" && s[0] != 'o'
  }

  lemma {:induction false} PlainJoins(a: string, b: string)
    requires IsPlain(a) && IsPlain(b)
    ensures IsPlain(a + b)
  {
    forall i | 0 <= i < |a + b| - 1 ensures !HoAt(a + b, i) {
      if i + 1 < |a| {
        assert !HoAt(a, i);
      } else if i >= |a| {
        assert !HoAt(b, i - |a|);
      }
    }
  }

  lemma {:induction false} SeparatorsArePlain()
    ensures IsPlain("+") && IsPlain(" +") && IsPlain(" ")
  {
  }

  lemma {:induction false} SoccerIsPlain()
    ensures IsPlain(SOCCER)
  {
  }

  lemma {:induction false} ResultIsPlain()
    ensures IsPlain("match_result_") && IsPlain("data_quality")
  {
  }

  lemma {:induction false} ModelingIsPlain()
    ensures IsPlain("minute_odds_modeling")
  {
  }

  lemma {:induction false} EndsArePlain()
    ensures IsPlain("matches") && IsPlain("pipeline_health")
  {
  }

  lemma {:induction false} PlainLine(a: string, b: string, c: string, d: string, e: string)
    requires IsPlain(a) && IsPlain(b) && IsPlain(c) && IsPlain(d) && IsPlain(e)
    ensures IsPlain(a + (b + (c + (d + e))))
  {
    PlainJoins(d, e);
    PlainJoins(c, d + e);
    PlainJoins(b, c + (d + e));
    PlainJoins(a, b + (c + (d + e)));
  }

  lemma {:induction false} SelectionsArePlain()
    ensures IsPlain(CORE_SELECT) && IsPlain(SOCCER_SELECT)
  {
    SeparatorsArePlain();
    SoccerIsPlain();
    ResultIsPlain();
    ModelingIsPlain();
    EndsArePlain();
    PlainJoins(SOCCER, "match_result_");
    PlainJoins(RESULT, "data_quality");
    PlainJoins(RESULT, "minute_odds_modeling");
    PlainJoins(SOCCER, "matches");
    PlainJoins(SOCCER, "pipeline_health");
    PlainJoins(" ", SOCCER + "matches");
    PlainLine("+", QUALITY, " +", MODELING, " " + (SOCCER + "matches"));
    PlainJoins(" +", SOCCER + "pipeline_health");
    PlainJoins(CORE_SELECT, " +" + (SOCCER + "pipeline_health"));
  }

  lemma {:induction false} PlainTextIsItsSelector(s: string)
    requires IsPlain(s) && !IsBlank(s[0]) && !IsBlank(s[|s| - 1])
    ensures Lowered(Stripped(s)) == s
  {
  }

  lemma {:induction false} ContainsMiddle(a: string, part: string, b: string, c: string)
    ensures Contains(a + (part + b), part) && Contains(a + (part + b) + c, part)
  {
    assert (a + (part + b))[|a|..|a| + |part|] == part;
    assert OccursAt(a + (part + b), part, |a|);
    assert (a + (part + b) + c)[|a|..|a| + |part|] == part;
    assert OccursAt(a + (part + b) + c, part, |a|);
  }

  lemma {:induction false} SoccerSelectionsMentionSoccer()
    ensures Mentions(CORE_SELECT, SOCCER_SUBJECTS) && Mentions(SOCCER_SELECT, SOCCER_SUBJECTS)
  {
    ContainsMiddle("+", QUALITY, " +" + (MODELING + (" " + (SOCCER + "matches"))), " +" + (SOCCER + "pipeline_health"));
    assert Contains(CORE_SELECT, SOCCER_SUBJECTS[3]) && Contains(SOCCER_SELECT, SOCCER_SUBJECTS[3]);
  }

  lemma {:induction false} SelectionsAreTheirSelectors(s: string)
    requires s == CORE_SELECT || s == SOCCER_SELECT
    ensures Lowered(Stripped(s)) == s && s != "" && IsPlain(s)
  {
    SelectionsArePlain();
    assert "matches"[6] == 's' && "pipeline_health"[14] == 'h';
    assert CORE_SELECT[|CORE_SELECT| - 1] == 's' && SOCCER_SELECT[|SOCCER_SELECT| - 1] == 'h';
    assert s[0] == '+';
    PlainTextIsItsSelector(s);
  }

  /**
   A whole run of the main asset protects the soccer tables, or the hourly table, or nothing; it never
   protects all.
   */
  lemma {:induction false} ScopeOfWholeRun(q: Request)
    requires q.subset.None?
    ensures Scope(OddsfoxDbt, q)
         == if q.fullRefresh then []
            else if q.select == CORE_SELECT || q.select == SOCCER_SELECT then SOCCER_MODELS
            else if q.HourlyInScope() then [HOURLY_MODEL]
            else []
  {
    if q.select == CORE_SELECT || q.select == SOCCER_SELECT {
      SelectionsAreTheirSelectors(q.select);
      SoccerSelectionsMentionSoccer();
      if Mentions(q.select, HOURLY_SUBJECTS) { MentionHasHo(q.select); }
    }
  }

  // ---- what whole runs of the main asset leave open ----

  const DEFAULT_BUILD := Request(false, "", None)
  const TABLES: set<Model> := {HOURLY_MODEL, OBSERVED_MODEL, DENSE_MODEL}

  lemma {:induction false} HourlyIsNotSoccer()
    ensures HOURLY_MODEL !in SOCCER_MODELS
  {
    assert HOURLY_MODEL[15] == 'w' && SOCCER[11] == 's';
    assert OBSERVED_MODEL[15] == 's' && DENSE_MODEL[15] == 's';
  }

  lemma {:induction false} HalfProtected(scope: seq<Model>, writes: set<Model>, a: Model, b: Model)
    requires {a, b} <= writes && (a !in scope || b !in scope)
    ensures !(writes - Models(scope) <= {})
  {
    assert a in writes - Models(scope) || b in writes - Models(scope);
  }

  /**
   With no marker set, a whole run that writes the hourly table and a soccer table is unsafe, whatever its
   selection.
   */
  lemma {:induction false} NoWholeRunProtectsAll(d: Disk, q: Request, writes: set<Model>, soccer: Model)
    requires Safe(d) && d.marked == {} && q.subset.None?
    requires {HOURLY_MODEL, soccer} <= writes && soccer in SOCCER_MODELS
    ensures !forall steps :: SafeWhenServed(d, OddsfoxDbt, q, writes, steps)
  {
    HourlyIsNotSoccer();
    ScopeOfWholeRun(q);
    HalfProtected(Scope(OddsfoxDbt, q), writes, HOURLY_MODEL, soccer);
    RequestIsSafeExactly(d, OddsfoxDbt, q, writes);
  }

  /**
   The default build selects every table and marks the hourly one. Cut while dbt writes, it leaves the soccer
   tables half-written without a marker, so that no later build of them recovers them: each starts on them
   incrementally and, uncut, ends normally over tables that are still half-written and unmarked.
   */
  lemma {:induction false} DefaultBuildTearsSoccer(asset: Asset, later: Request, writes: set<Model>, soccer: Model)
    requires !later.fullRefresh && soccer in writes && soccer in SOCCER_MODELS
    ensures var cut := Done(Disk({}, {}, {}), JobOf(OddsfoxDbt, DEFAULT_BUILD, TABLES, 2));
      var plan := PlanOf(cut, JobOf(asset, later, writes, 0));
      cut == Disk({HOURLY_MODEL}, TABLES, {})
      && !AlwaysStartsWhole(cut, plan) && IsTornUnmarked(Run(cut, plan), soccer)
  {
    HourlyIsNotSoccer();
    ScopeOfDefaultBuild();
    CutAfterOneMark(HOURLY_MODEL, TABLES);
    UnmarkedTornTableIsBuiltOn(Disk({HOURLY_MODEL}, TABLES, {}), Scope(asset, later), writes, soccer);
  }

  lemma {:induction false} ScopeOfDefaultBuild()
    ensures Scope(OddsfoxDbt, DEFAULT_BUILD) == [HOURLY_MODEL]
  {
    assert CORE_SELECT[0] == '+' && SOCCER_SELECT[0] == '+';
    ScopeOfWholeRun(DEFAULT_BUILD);
  }

  lemma {:induction false} CutAfterOneMark(m: Model, tables: set<Model>)
    ensures Done(Disk({}, {}, {}), Ordinary([m], tables, 2)) == Disk({m}, tables, {})
  {
    var scope, clean := [m], Disk({}, {}, {});
    assert scope[1..] == [] && Models(scope) == {m};
    assert Recovery(scope[1..], {}) == [] && Marks(scope[1..]) == [];
    assert Preparation(scope, {}) == [Mark(m)];
    PreparationIsWatched(clean, scope);
    assert Prepared(clean, scope) == Disk({m}, {}, {});
    CutInFirst(clean, Preparation(scope, {}), Incremental(tables) + Clears(scope), 2);
    CutInFirst(Prepared(clean, scope), Incremental(tables), Clears(scope), 1);
    IncrementalRuns(Prepared(clean, scope), tables);
  }

  // ---- selections without an underscore ----

  const TAG_SELECT := "+tag:polymarket" + ",tag:wc2026"

  lemma {:induction false} PartsLieInside(text: string, part: string, c: char)
    requires Contains(text, part) && c in part
    ensures c in text
  {
    var i: nat :| i + |part| <= |text| && OccursAt(text, part, i);
    assert c in text[i..i + |part|];
  }

  lemma {:induction false} SubjectsHaveUnderscores(i: nat)
    ensures i < |HOURLY_SUBJECTS| ==> '_' in HOURLY_SUBJECTS[i]
    ensures i < |SOCCER_SUBJECTS| ==> '_' in SOCCER_SUBJECTS[i]
  {
    assert HOURLY_MODEL[3] == '_' && "token_hourly_odds"[5] == '_';
    assert "polymarket_wc2026_market_hourly_odds"[10] == '_' && "market_hourly_odds"[6] == '_';
    assert SOCCER[10] == '_' && '_' in RESULT;
  }

  lemma {:induction false} StrippedMembers(s: string, c: char)
    requires c in Stripped(s)
    ensures c in s
    decreases |s|
  {
    if s != "" && IsBlank(s[0]) {
      StrippedMembers(s[1..], c);
    } else if s != "" && IsBlank(s[|s| - 1]) {
      StrippedMembers(s[..|s| - 1], c);
    }
  }

  lemma {:induction false} SelectorKeepsUnderscores(q: Request)
    requires '_' in q.Selector()
    ensures '_' in q.select
  {
    StrippedMembers(q.select, '_');
  }

  /** A selection without an underscore, such as one by tags, protects no table, whatever dbt selects by it. */
  lemma {:induction false} PlainTagsProtectNothing(q: Request)
    requires q.subset.None? && '_' !in q.select && Stripped(q.select) != ""
    ensures Scope(OddsfoxDbt, q) == []
  {
    var text := q.Selector();
    if Mentions(text, HOURLY_SUBJECTS) {
      var i :| 0 <= i < |HOURLY_SUBJECTS| && Contains(text, HOURLY_SUBJECTS[i]);
      SubjectsHaveUnderscores(i);
      PartsLieInside(text, HOURLY_SUBJECTS[i], '_');
      SelectorKeepsUnderscores(q);
    }
    assert SOCCER[10] == '_' && '_' in CORE_SELECT && '_' in SOCCER_SELECT;
  }

  lemma {:induction false} TagSelectionProtectsNothing()
    ensures Scope(OddsfoxDbt, Request(false, TAG_SELECT, None)) == []
  {
    PlainTagsProtectNothing(Request(false, TAG_SELECT, None));
  }

  // ---- what a mention is ----

  /** A part occurs in a text exactly if the text reads something, the part, and something else. */
  lemma {:induction false} ContainsExactly(text: string, part: string)
    ensures Contains(text, part) <==> exists front, back :: text == front + part + back
  {
    if Contains(text, part) {
      var i: nat :| i + |part| <= |text| && OccursAt(text, part, i);
      assert text == text[..i] + part + text[i + |part|..];
    }
    if exists front, back :: text == front + part + back {
      var front, back :| text == front + part + back;
      assert text[|front|..|front| + |part|] == part;
      assert OccursAt(text, part, |front|);
    }
  }

  lemma {:induction false} PartsOfParts(text: string, part: string, inner: string)
    requires Contains(text, part) && Contains(part, inner)
    ensures Contains(text, inner)
  {
    var i: nat :| i + |part| <= |text| && OccursAt(text, part, i);
    var j: nat :| j + |inner| <= |part| && OccursAt(part, inner, j);
    forall k | 0 <= k < |inner| ensures text[i + j + k] == inner[k] {
      assert text[i + j + k] == text[i..i + |part|][j + k] == part[j..j + |inner|][k];
    }
    assert text[i + j..i + j + |inner|] == inner;
    assert OccursAt(text, inner, i + j);
  }

  /** The hourly table is mentioned by its own short name or by its mart's: the long names contain these. */
  lemma {:induction false} HourlyMentionsExactly(text: string)
    ensures Mentions(text, HOURLY_SUBJECTS) <==>
            Contains(text, "token_hourly_odds") || Contains(text, "market_hourly_odds")
  {
    HourlyNamesContain();
    assert HOURLY_SUBJECTS[1] == "token_hourly_odds" && HOURLY_SUBJECTS[3] == "market_hourly_odds";
    if Mentions(text, HOURLY_SUBJECTS) {
      var i :| 0 <= i < |HOURLY_SUBJECTS| && Contains(text, HOURLY_SUBJECTS[i]);
      if i == 0 { PartsOfParts(text, HOURLY_MODEL, "token_hourly_odds"); }
      if i == 2 { PartsOfParts(text, HOURLY_SUBJECTS[2], "market_hourly_odds"); }
    }
  }

  lemma {:induction false} HourlyNamesContain()
    ensures Contains(HOURLY_MODEL, "token_hourly_odds") && Contains(HOURLY_SUBJECTS[2], "market_hourly_odds")
  {
    assert OccursAt(HOURLY_MODEL, "token_hourly_odds", 22);
    assert OccursAt(HOURLY_SUBJECTS[2], "market_hourly_odds", 18);
  }

  /**
   The soccer tables are mentioned by the observed table's name, or the dense one's without prefix, or the
   quality mart's.
   */
  lemma {:induction false} SoccerMentionsExactly(text: string)
    ensures Mentions(text, SOCCER_SUBJECTS) <==>
            Contains(text, "int_" + RESULT + "observed") || Contains(text, RESULT + "minute_odds")
                || Contains(text, QUALITY)
  {
    var dense := RESULT + "minute_odds";
    assert SOCCER_SUBJECTS == [OBSERVED_MODEL, DENSE_MODEL, dense, QUALITY];
    ContainsMiddle("int_", dense, "", "");
    assert "int_" + (dense + "") == DENSE_MODEL;
    if Mentions(text, SOCCER_SUBJECTS) {
      var i :| 0 <= i < |SOCCER_SUBJECTS| && Contains(text, SOCCER_SUBJECTS[i]);
      if i == 1 { PartsOfParts(text, DENSE_MODEL, dense); }
    }
    assert SOCCER_SUBJECTS[0] == OBSERVED_MODEL && SOCCER_SUBJECTS[2] == dense && SOCCER_SUBJECTS[3] == QUALITY;
  }

  /** Capitals and blanks around a selection make no difference to what it mentions. */
  lemma {:induction false} BlanksAndCapitalsAreIgnored(s: string, blank: char)
    requires blank as int in {9, 10, 11, 12, 13, 28, 29, 30, 31, 32}
    ensures Stripped([blank] + s) == Stripped(s)
    ensures s != "" && s[0] as int > 32 && s[|s| - 1] as int > 32 ==> Stripped(s) == s == Stripped(s + [blank])
    ensures forall c: char :: 'A' <= c <= 'Z' ==> Lower(c) as int == c as int + 32
    ensures forall c: char :: !('A' <= c <= 'Z') ==> Lower(c) == c
  {
    assert ([blank] + s)[1..] == s;
    if s != "" && s[0] as int > 32 && s[|s| - 1] as int > 32 {
      assert (s + [blank])[0] == s[0] && (s + [blank])[..|s + [blank]| - 1] == s;
    }
  }

  // ---- the shipped selection of the hourly mart ----

  const GOLDEN_SELECT := "+polymarket_wc2026_market_hourly_odds"

  lemma {:induction false} GoldenIsPlainText()
    ensures Lowered(Stripped(GOLDEN_SELECT)) == GOLDEN_SELECT
  {
    assert forall i :: 0 <= i < |GOLDEN_SELECT| ==> Lower(GOLDEN_SELECT[i]) == GOLDEN_SELECT[i];
  }

  lemma {:induction false} GoldenMentionsHourly()
    ensures Contains(GOLDEN_SELECT, "market_hourly_odds")
  {
    assert OccursAt(GOLDEN_SELECT, "market_hourly_odds", 19);
  }

  lemma {:induction false} GoldenIsNotSoccer()
    ensures GOLDEN_SELECT != CORE_SELECT && GOLDEN_SELECT != SOCCER_SELECT
  {
    assert GOLDEN_SELECT[12] == 'w' && SOCCER[11] == 's';
    assert CORE_SELECT[12] == 's' && SOCCER_SELECT[12] == 's';
  }

  /** The shipped selection of the hourly mart protects the hourly table. */
  lemma {:induction false} GoldenSelectionProtectsHourly()
    ensures Scope(OddsfoxDbt, Request(false, GOLDEN_SELECT, None)) == [HOURLY_MODEL]
  {
    GoldenIsPlainText();
    GoldenMentionsHourly();
    HourlyMentionsExactly(GOLDEN_SELECT);
    GoldenIsNotSoccer();
    ScopeOfWholeRun(Request(false, GOLDEN_SELECT, None));
  }
}

/**
 The acceptance tests of the Polygon settlement release: a dense grid of propositions by minutes, one
 row per cell. The audit scans rows in order, growing a set of grain keys and one set of minutes per
 proposition, and stops at the first bad row; the sanitized export counts each proposition's minutes
 in a query. The results are that acceptance means a bijection between rows and grid cells, and that
 the two axis tests agree.
 */
module SettlementAudit {
  import opened Wrappers
  import opened Counting
  import opened Timescale

  const EXPECTED_MART_ROWS: nat := 39_120
  const EXPECTED_MARKETS: nat := 248
  const EXPECTED_MATCHES: nat := 104
  const GROUP_MATCHES: int := 72
  const GROUP_MINUTES: nat := 150
  const KNOCKOUT_MINUTES: nat := 210

  /** The fields a row repeats from its market. An absent group is the empty string, as it is rendered. */
  datatype Identity = Identity(
    matchId: int, stage: string, group: string, home: string, away: string, kind: string,
    yesRepresents: string, noRepresents: string, kickoff: int, windowStart: int, windowEnd: int)

  datatype Market = Market(proposition: string, identity: Identity, yesToken: string, noToken: string, manifest: string)

  datatype AuditSide = AuditSide(
    observed: bool, normalized: int, derived: int, share: real, collateral: real,
    open: Option<real>, high: Option<real>, low: Option<real>, close: Option<real>, vwap: Option<real>,
    first: Option<int>, last: Option<int>)

  datatype Row = Row(
    proposition: string, identity: Identity, minute: int, settlement: int,
    status: string, complete: bool, yes: AuditSide, no: AuditSide)

  datatype Quality = Quality(ready: bool, scanId: string, scanStatus: string, errors: int, blocking: string)

  datatype Failure =
    | MarketCount | MatchIds | DuplicateProposition | TokenCount | ManifestHash | PropositionInventory
    | MartRowCount | UnknownProposition | IdentityDiffers | DuplicateGrain | InvalidStatus | InvalidValues
    | InvalidMinuteState | InvalidTimestamp | InvalidAxis
    | QualityCount | QualityNotReady | QualityScanId | QualityStatus | QualityBlocked

  // ---- one row ----

  predicate Probability(p: real) {
    0.0 <= p <= 1.0
  }

  predicate SideIsValid(s: AuditSide, minuteAt: int) {
    if !s.observed then
      && s.normalized == 0 && s.derived == 0 && s.share == 0.0 && s.collateral == 0.0
      && s.open.None? && s.high.None? && s.low.None? && s.close.None? && s.vwap.None?
      && s.first.None? && s.last.None?
    else
      && 0 < s.normalized && 0 <= s.derived <= s.normalized
      && 0.0 < s.share && 0.0 < s.collateral <= s.share
      && s.open.Some? && s.high.Some? && s.low.Some? && s.close.Some? && s.vwap.Some?
      && s.first.Some? && s.last.Some?
      && Probability(s.open.value) && Probability(s.high.value) && Probability(s.low.value)
      && Probability(s.close.value) && Probability(s.vwap.value)
      && s.low.value <= s.open.value <= s.high.value
      && s.low.value <= s.close.value <= s.high.value
      && s.low.value <= s.vwap.value <= s.high.value
      && minuteAt <= s.first.value <= s.last.value < minuteAt + MINUTE
  }

  function ExpectedStatus(row: Row): string {
    if row.yes.observed && row.no.observed then "both_observed"
    else if row.yes.observed then "yes_only"
    else if row.no.observed then "no_only"
    else "no_fills"
  }

  /** Everything a row is asked to be, apart from being new. */
  predicate RowMatches(row: Row, market: Market) {
    && row.identity == market.identity
    && SideIsValid(row.yes, row.settlement) && SideIsValid(row.no, row.settlement)
    && row.status == ExpectedStatus(row)
    && row.complete == (row.yes.observed && row.no.observed)
    && row.settlement == market.identity.windowStart + row.minute * MINUTE
  }

  function GrainKey(row: Row): (string, int) {
    (row.proposition, row.settlement)
  }

  // ---- markets ----

  function Minutes(market: Market): nat {
    if market.identity.matchId <= GROUP_MATCHES then GROUP_MINUTES else KNOCKOUT_MINUTES
  }

  /** A dictionary of markets by proposition keeps the last one of each. */
  function MarketOf(markets: seq<Market>, proposition: string): (r: Option<Market>)
    ensures r.Some? ==> r.value in markets && r.value.proposition == proposition
  {
    if markets == [] then None
    else if markets[|markets| - 1].proposition == proposition then Some(markets[|markets| - 1])
    else MarketOf(markets[..|markets| - 1], proposition)
  }

  predicate Known(markets: seq<Market>, proposition: string) {
    MarketOf(markets, proposition).Some?
  }

  function MinutesOf(markets: seq<Market>, proposition: string): nat {
    match MarketOf(markets, proposition)
    case None => 0
    case Some(market) => Minutes(market)
  }

  /** The state the audit's row scan grows in place. */
  class MartScan {
    var failures: seq<Failure>
    var grain: set<(string, int)>
    var axes: map<string, set<int>>

    constructor (axes: map<string, set<int>>, failures: seq<Failure>)
      ensures this.axes == axes && this.failures == failures && grain == {}
    {
      this.axes := axes;
      this.failures := failures;
      grain := {};
    }

    /** One row's contract. The scan goes on exactly when the row is good and new. */
    method ValidateRow(row: Row, market: Market) returns (goOn: bool)
      modifies this
      ensures goOn <==> row.proposition in old(axes) && RowMatches(row, market) && GrainKey(row) !in old(grain)
      ensures goOn ==> failures == old(failures) && grain == old(grain) + {GrainKey(row)}
                       && axes == old(axes)[row.proposition := old(axes)[row.proposition] + {row.minute}]
      ensures !goOn ==> |failures| == |old(failures)| + 1 && failures[..|old(failures)|] == old(failures)
      ensures axes.Keys == old(axes).Keys
    {
      if row.proposition !in axes {
        failures := failures + [UnknownProposition];
        return false;
      }
      if row.identity != market.identity {
        failures := failures + [IdentityDiffers];
        return false;
      }
      axes := axes[row.proposition := axes[row.proposition] + {row.minute}];
      if GrainKey(row) in grain {
        failures := failures + [DuplicateGrain];
        return false;
      }
      grain := grain + {GrainKey(row)};
      if row.status !in {"both_observed", "yes_only", "no_only", "no_fills"} {
        failures := failures + [InvalidStatus];
        return false;
      }
      if !SideIsValid(row.yes, row.settlement) || !SideIsValid(row.no, row.settlement) {
        failures := failures + [InvalidValues];
        return false;
      }
      if row.status != ExpectedStatus(row) || row.complete != (row.yes.observed && row.no.observed) {
        failures := failures + [InvalidMinuteState];
        return false;
      }
      if row.settlement != market.identity.windowStart + row.minute * MINUTE {
        failures := failures + [InvalidTimestamp];
        return false;
      }
      goOn := true;
    }
  }

  // ---- what a scan finds ----

  ghost predicate RowGood(markets: seq<Market>, row: Row) {
    Known(markets, row.proposition) && RowMatches(row, MarketOf(markets, row.proposition).value)
  }

  ghost predicate RowsGood(markets: seq<Market>, rows: seq<Row>) {
    forall i :: 0 <= i < |rows| ==> RowGood(markets, rows[i])
  }

  ghost predicate GrainIsUnique(rows: seq<Row>) {
    forall i, j :: 0 <= i < j < |rows| ==> GrainKey(rows[i]) != GrainKey(rows[j])
  }

  /** The minutes the rows show for one proposition. */
  ghost function Axis(rows: seq<Row>, proposition: string): set<int> {
    set i | 0 <= i < |rows| && rows[i].proposition == proposition :: rows[i].minute
  }

  ghost predicate AxesAreFull(markets: seq<Market>, rows: seq<Row>) {
    forall k :: 0 <= k < |markets| ==>
      Axis(rows, markets[k].proposition) == Range(MinutesOf(markets, markets[k].proposition))
  }

  /** What the row scan and the axis test accept. */
  ghost predicate GridAccepted(markets: seq<Market>, rows: seq<Row>) {
    RowsGood(markets, rows) && GrainIsUnique(rows) && AxesAreFull(markets, rows)
  }

  lemma {:induction false} MarketsAreKnown(markets: seq<Market>, proposition: string)
    ensures Known(markets, proposition) <==> exists k :: 0 <= k < |markets| && markets[k].proposition == proposition
  {
    if markets != [] {
      var last := |markets| - 1;
      MarketsAreKnown(markets[..last], proposition);
      assert markets == markets[..last] + [markets[last]];
    }
  }

  /** The scan's sets hold exactly the keys and minutes of the rows seen so far. */
  ghost predicate Tracks(axes: map<string, set<int>>, grain: set<(string, int)>, markets: seq<Market>, seen: seq<Row>) {
    && (forall p :: p in axes <==> Known(markets, p))
    && (forall p :: p in axes ==> axes[p] == Axis(seen, p))
    && (forall key :: key in grain <==> exists i :: 0 <= i < |seen| && GrainKey(seen[i]) == key)
  }

  lemma {:induction false} AxisGrows(seen: seq<Row>, row: Row, p: string)
    ensures Axis(seen + [row], p) == Axis(seen, p) + if row.proposition == p then {row.minute} else {}
  {
    var more := seen + [row];
    forall m ensures m in Axis(more, p) <==> m in Axis(seen, p) || (row.proposition == p && m == row.minute) {
      if m in Axis(seen, p) {
        var i :| 0 <= i < |seen| && seen[i].proposition == p && seen[i].minute == m;
        assert more[i] == seen[i];
      }
      if row.proposition == p && m == row.minute { assert more[|seen|] == row; }
      if m in Axis(more, p) {
        var i :| 0 <= i < |more| && more[i].proposition == p && more[i].minute == m;
        assert i < |seen| ==> more[i] == seen[i];
      }
    }
  }

  lemma {:induction false} TracksOneMore(axes: map<string, set<int>>, grain: set<(string, int)>, markets: seq<Market>,
                                         seen: seq<Row>, row: Row)
    requires Tracks(axes, grain, markets, seen) && row.proposition in axes
    ensures Tracks(axes[row.proposition := axes[row.proposition] + {row.minute}], grain + {GrainKey(row)}, markets,
        seen + [row])
  {
    forall p | p in axes
      ensures Axis(seen + [row], p) == Axis(seen, p) + if row.proposition == p then {row.minute} else {}
    {
      AxisGrows(seen, row, p);
    }
    var more := seen + [row];
    forall key ensures key in grain + {GrainKey(row)} <==> exists i :: 0 <= i < |more| && GrainKey(more[i]) == key {
      if key in grain {
        var i :| 0 <= i < |seen| && GrainKey(seen[i]) == key;
        assert more[i] == seen[i];
      }
      if key == GrainKey(row) { assert more[|seen|] == row; }
      if i :| 0 <= i < |more| && GrainKey(more[i]) == key {
        assert i < |seen| ==> more[i] == seen[i];
      }
    }
  }

  /** A bad or repeated row anywhere spoils the whole scan. */
  lemma {:induction false} BadRowSpoils(markets: seq<Market>, rows: seq<Row>, n: nat, grain: set<(string, int)>,
                                        axes: map<string, set<int>>)
    requires n < |rows| && Tracks(axes, grain, markets, rows[..n])
    requires !(RowGood(markets, rows[n]) && GrainKey(rows[n]) !in grain)
    ensures !(RowsGood(markets, rows) && GrainIsUnique(rows))
  {
    if GrainKey(rows[n]) in grain {
      var i :| 0 <= i < |rows[..n]| && GrainKey(rows[..n][i]) == GrainKey(rows[n]);
      assert rows[..n][i] == rows[i];
    }
  }

  /** The state of a scan that has seen the first n rows and found nothing wrong. */
  ghost predicate CleanSoFar(scan: MartScan, markets: seq<Market>, rows: seq<Row>, n: nat)
    requires n <= |rows|
    reads scan
  {
    Tracks(scan.axes, scan.grain, markets, rows[..n]) && RowsGood(markets, rows[..n]) && GrainIsUnique(rows[..n])
  }

  /** After a good new row the scan is still clean. */
  lemma {:induction false} CleanStep(markets: seq<Market>, rows: seq<Row>, i: nat, axes: map<string, set<int>>,
                                     grain: set<(string, int)>)
    requires i < |rows| && Tracks(axes, grain, markets, rows[..i]) && RowsGood(markets, rows[..i])
        && GrainIsUnique(rows[..i])
    requires RowGood(markets, rows[i]) && GrainKey(rows[i]) !in grain && rows[i].proposition in axes
    ensures Tracks(axes[rows[i].proposition := axes[rows[i].proposition] + {rows[i].minute}],
        grain + {GrainKey(rows[i])},
                   markets, rows[..i + 1])
    ensures RowsGood(markets, rows[..i + 1]) && GrainIsUnique(rows[..i + 1])
  {
    assert rows[..i + 1] == rows[..i] + [rows[i]];
    TracksOneMore(axes, grain, markets, rows[..i], rows[i]);
    GoodOneMore(markets, rows, i);
  }

  lemma {:induction false} GoodOneMore(markets: seq<Market>, rows: seq<Row>, i: nat)
    requires i < |rows| && RowsGood(markets, rows[..i]) && RowGood(markets, rows[i])
    ensures RowsGood(markets, rows[..i + 1])
  {
    var more := rows[..i + 1];
    forall k | 0 <= k < |more| ensures RowGood(markets, more[k]) {
      if k < i { assert more[k] == rows[..i][k]; }
    }
  }

  /** One step of the scan: look the market up, then check the row against it. */
  method ScanRow(scan: MartScan, markets: seq<Market>, rows: seq<Row>, i: nat) returns (goOn: bool)
    requires i < |rows| && CleanSoFar(scan, markets, rows, i)
    modifies scan
    ensures scan.axes.Keys == old(scan.axes).Keys
    ensures goOn ==> CleanSoFar(scan, markets, rows, i + 1) && scan.failures == old(scan.failures)
    ensures !goOn ==> scan.failures != [] && !(RowsGood(markets, rows) && GrainIsUnique(rows))
  {
    var market := MarketOf(markets, rows[i].proposition);
    if market.None? {
      scan.failures := scan.failures + [UnknownProposition];
      return false;
    }
    goOn := scan.ValidateRow(rows[i], market.value);
    if goOn {
      CleanStep(markets, rows, i, old(scan.axes), old(scan.grain));
    } else {
      BadRowSpoils(markets, rows, i, old(scan.grain), old(scan.axes));
    }
  }

  /** The scan stops at the first bad row. */
  method ScanRows(scan: MartScan, markets: seq<Market>, rows: seq<Row>) returns (clean: bool)
    requires CleanSoFar(scan, markets, rows, 0)
    modifies scan
    ensures scan.axes.Keys == old(scan.axes).Keys
    ensures clean ==> CleanSoFar(scan, markets, rows, |rows|) && scan.failures == old(scan.failures)
    ensures !clean ==> scan.failures != []
    ensures clean <==> RowsGood(markets, rows) && GrainIsUnique(rows)
  {
    var i := 0;
    clean := true;
    while i < |rows|
      invariant 0 <= i <= |rows|
      invariant scan.axes.Keys == old(scan.axes).Keys
      invariant CleanSoFar(scan, markets, rows, i) && scan.failures == old(scan.failures)
    {
      clean := ScanRow(scan, markets, rows, i);
      if !clean {
        return;
      }
      i := i + 1;
    }
    assert rows[..|rows|] == rows;
    clean := true;
  }

  /** The axis test stops at the first proposition whose minutes are not the whole range. */
  method CheckAxes(axes: map<string, set<int>>, markets: seq<Market>) returns (full: bool)
    ensures full <==> forall k :: 0 <= k < |markets| ==>
                        markets[k].proposition in axes
                        && axes[markets[k].proposition] == Range(MinutesOf(markets, markets[k].proposition))
  {
    var k := 0;
    while k < |markets|
      invariant 0 <= k <= |markets|
      invariant forall j :: 0 <= j < k ==> HasFullAxis(axes, markets, markets[j].proposition)
    {
      if !HasFullAxis(axes, markets, markets[k].proposition) {
        return false;
      }
      k := k + 1;
    }
    full := true;
  }

  predicate HasFullAxis(axes: map<string, set<int>>, markets: seq<Market>, proposition: string) {
    proposition in axes && axes[proposition] == Range(MinutesOf(markets, proposition))
  }

  /** The audit's global row check: count the rows, scan them, then compare every axis. */
  method ValidateMart(markets: seq<Market>, rows: seq<Row>) returns (failures: seq<Failure>)
    ensures failures == [] <==> |rows| == EXPECTED_MART_ROWS && GridAccepted(markets, rows)
  {
    var empty: map<string, set<int>> := map p | p in Propositions(markets) :: {};
    PropositionsAreKnown(markets);
    var scan := new MartScan(empty, if |rows| != EXPECTED_MART_ROWS then [MartRowCount] else []);
    var clean := ScanRows(scan, markets, rows);
    var full := CheckAxes(scan.axes, markets);
    if !full {
      scan.failures := scan.failures + [InvalidAxis];
    }
    failures := scan.failures;
    assert rows[..|rows|] == rows;
    if clean {
      forall k | 0 <= k < |markets| ensures markets[k].proposition in scan.axes {
        MarketsAreKnown(markets, markets[k].proposition);
      }
    }
  }

  function Propositions(markets: seq<Market>): set<string> {
    if markets == [] then {} else Propositions(markets[..|markets| - 1]) + {markets[|markets| - 1].proposition}
  }

  lemma {:induction false} PropositionsAreKnown(markets: seq<Market>)
    ensures forall p :: p in Propositions(markets) <==> Known(markets, p)
  {
    if markets != [] { PropositionsAreKnown(markets[..|markets| - 1]); }
  }

  // ---- the rest of the release ----

  function Kinds(markets: seq<Market>): seq<string> {
    seq(|markets|, k requires 0 <= k < |markets| => markets[k].identity.kind)
  }

  const INVENTORY: multiset<string> :=
    multiset{}["home_win" := 72]["draw" := 72]["away_win" := 72]["home_advances" := 30]
      ["home_win_third_place" := 1]["home_wins_final" := 1]

  function MatchIds(markets: seq<Market>): set<int> {
    set m | m in markets :: m.identity.matchId
  }

  predicate IsMatchId(k: int) {
    1 <= k <= EXPECTED_MATCHES
  }

  function ExpectedMatchIds(): set<int> {
    set k: int | 1 <= k <= EXPECTED_MATCHES && IsMatchId(k)
  }

  function Tokens(markets: seq<Market>): set<string> {
    (set m | m in markets :: m.yesToken) + (set m | m in markets :: m.noToken)
  }

  /** The sidecar's inventory: 248 distinct propositions over the matches 1..104, of the expected types. */
  predicate InventoryAccepted(markets: seq<Market>, seed: string) {
    && |markets| == EXPECTED_MARKETS
    && MatchIds(markets) == ExpectedMatchIds()
    && |Propositions(markets)| == EXPECTED_MARKETS
    && |Tokens(markets)| == 2 * EXPECTED_MARKETS
    && (set m | m in markets :: m.manifest) == {seed}
    && multiset(Kinds(markets)) == INVENTORY
  }

  method ValidateInventory(markets: seq<Market>, seed: string) returns (failures: seq<Failure>)
    ensures failures == [] <==> InventoryAccepted(markets, seed)
  {
    failures := [];
    if |markets| != EXPECTED_MARKETS { failures := failures + [MarketCount]; }
    if MatchIds(markets) != ExpectedMatchIds() { failures := failures + [Failure.MatchIds]; }
    if |Propositions(markets)| != EXPECTED_MARKETS { failures := failures + [DuplicateProposition]; }
    if |Tokens(markets)| != 2 * EXPECTED_MARKETS { failures := failures + [TokenCount]; }
    if (set m | m in markets :: m.manifest) != {seed} { failures := failures + [ManifestHash]; }
    if multiset(Kinds(markets)) != INVENTORY { failures := failures + [PropositionInventory]; }
  }

  function QualityFailure(quality: seq<Quality>, scanId: string): Option<Failure> {
    if |quality| != 1 then Some(QualityCount)
    else if !quality[0].ready then Some(QualityNotReady)
    else if quality[0].scanId != scanId then Some(QualityScanId)
    else if quality[0].scanStatus != "published" then Some(QualityStatus)
    else if quality[0].errors != 0 || quality[0].blocking != "" then Some(QualityBlocked)
    else None
  }

  ghost predicate ReleaseAccepted(markets: seq<Market>, rows: seq<Row>, quality: seq<Quality>, seed: string,
                                  scanId: string)
  {
    && InventoryAccepted(markets, seed)
    && |rows| == EXPECTED_MART_ROWS && GridAccepted(markets, rows)
    && QualityFailure(quality, scanId).None?
  }

  /** The whole audit: every part adds its failures, and a release is published only without any. */
  method ValidateRows(markets: seq<Market>, rows: seq<Row>, quality: seq<Quality>, seed: string, scanId: string)
    returns (failures: seq<Failure>)
    ensures failures == [] <==> ReleaseAccepted(markets, rows, quality, seed, scanId)
  {
    failures := ValidateInventory(markets, seed);
    var mart := ValidateMart(markets, rows);
    failures := failures + mart;
    match QualityFailure(quality, scanId)
    case Some(f) => failures := failures + [f];
    case None =>
  }

  // ---- rows and grid cells correspond one to one ----

  function CellOf(row: Row): (string, int) {
    (row.proposition, row.minute)
  }

  /** The grid: every known proposition at every minute of its window. */
  ghost predicate InGrid(markets: seq<Market>, cell: (string, int)) {
    Known(markets, cell.0) && 0 <= cell.1 < MinutesOf(markets, cell.0)
  }

  ghost function RowCells(rows: seq<Row>): seq<(string, int)> {
    seq(|rows|, i requires 0 <= i < |rows| => CellOf(rows[i]))
  }

  /** Each row fills a grid cell, each cell is filled, and none is filled twice. */
  ghost predicate FillsGridOnce(markets: seq<Market>, rows: seq<Row>) {
    CoversGrid(markets, rows) && NoRepeats(RowCells(rows))
  }

  /** Good rows of one proposition share a grain key exactly when they share a minute. */
  lemma {:induction false} KeysFollowCells(markets: seq<Market>, a: Row, b: Row)
    requires RowGood(markets, a) && RowGood(markets, b)
    ensures GrainKey(a) == GrainKey(b) <==> CellOf(a) == CellOf(b)
  {
  }

  lemma {:induction false} UniqueKeysExactly(markets: seq<Market>, rows: seq<Row>)
    requires RowsGood(markets, rows)
    ensures GrainIsUnique(rows) <==> NoRepeats(RowCells(rows))
  {
    var cells := RowCells(rows);
    forall i, j | 0 <= i < j < |rows| ensures GrainKey(rows[i]) == GrainKey(rows[j]) <==> cells[i] == cells[j] {
      KeysFollowCells(markets, rows[i], rows[j]);
    }
    if NoRepeats(cells) {
      forall i, j | 0 <= i < j < |rows| ensures GrainKey(rows[i]) != GrainKey(rows[j]) {
        assert cells[i] != cells[j];
      }
    }
  }

  lemma {:induction false} AxisHoldsCells(rows: seq<Row>, p: string, m: int)
    ensures m in Axis(rows, p) <==> (p, m) in RowCells(rows)
  {
    var cells := RowCells(rows);
    if m in Axis(rows, p) {
      var i :| 0 <= i < |rows| && rows[i].proposition == p && rows[i].minute == m;
      assert cells[i] == (p, m);
    }
    if (p, m) in cells {
      var i :| 0 <= i < |cells| && cells[i] == (p, m);
    }
  }

  ghost predicate CoversGrid(markets: seq<Market>, rows: seq<Row>) {
    && (forall i :: 0 <= i < |rows| ==> InGrid(markets, RowCells(rows)[i]))
    && (forall cell :: InGrid(markets, cell) ==> cell in RowCells(rows))
  }

  lemma {:induction false} FullAxesCoverGrid(markets: seq<Market>, rows: seq<Row>)
    requires RowsGood(markets, rows) && AxesAreFull(markets, rows)
    ensures CoversGrid(markets, rows)
  {
    var cells := RowCells(rows);
    forall i | 0 <= i < |rows| ensures InGrid(markets, cells[i]) {
      assert RowGood(markets, rows[i]);
      FullAxisOfProposition(markets, rows, rows[i].proposition);
      RangeMembers(MinutesOf(markets, rows[i].proposition));
      assert rows[i].minute in Axis(rows, rows[i].proposition);
    }
    forall cell: (string, int) ensures InGrid(markets, cell) ==> cell in cells {
      if InGrid(markets, cell) {
        FullAxisOfProposition(markets, rows, cell.0);
        AxisHoldsCells(rows, cell.0, cell.1);
        RangeMembers(MinutesOf(markets, cell.0));
      }
    }
  }

  lemma {:induction false} CoveredAxisIsFull(markets: seq<Market>, rows: seq<Row>, p: string)
    requires CoversGrid(markets, rows) && Known(markets, p)
    ensures Axis(rows, p) == Range(MinutesOf(markets, p))
  {
    RangeMembers(MinutesOf(markets, p));
    forall m ensures m in Axis(rows, p) <==> m in Range(MinutesOf(markets, p)) {
      AxisHoldsCells(rows, p, m);
      assert InGrid(markets, (p, m)) <==> m in Range(MinutesOf(markets, p));
      if (p, m) in RowCells(rows) {
        var i :| 0 <= i < |rows| && RowCells(rows)[i] == (p, m);
      }
    }
  }

  lemma {:induction false} FullAxesExactly(markets: seq<Market>, rows: seq<Row>)
    requires RowsGood(markets, rows)
    ensures AxesAreFull(markets, rows) <==> CoversGrid(markets, rows)
  {
    if AxesAreFull(markets, rows) { FullAxesCoverGrid(markets, rows); }
    if CoversGrid(markets, rows) {
      forall k | 0 <= k < |markets|
        ensures Axis(rows, markets[k].proposition) == Range(MinutesOf(markets, markets[k].proposition))
      {
        MarketsAreKnown(markets, markets[k].proposition);
        CoveredAxisIsFull(markets, rows, markets[k].proposition);
      }
    }
  }

  lemma {:induction false} FullAxisOfProposition(markets: seq<Market>, rows: seq<Row>, p: string)
    requires AxesAreFull(markets, rows) && Known(markets, p)
    ensures Axis(rows, p) == Range(MinutesOf(markets, p))
  {
    MarketsAreKnown(markets, p);
    var k :| 0 <= k < |markets| && markets[k].proposition == p;
  }

  /** The scan and the axis test together accept exactly the good rows that fill every grid cell once. */
  lemma {:induction false} GridAcceptedExactly(markets: seq<Market>, rows: seq<Row>)
    ensures GridAccepted(markets, rows) <==> RowsGood(markets, rows) && FillsGridOnce(markets, rows)
  {
    if RowsGood(markets, rows) {
      UniqueKeysExactly(markets, rows);
      FullAxesExactly(markets, rows);
    }
  }

  // ---- the split the row count forces ----

  ghost function Column(p: string, n: nat): set<(string, int)> {
    if n == 0 then {} else Column(p, n - 1) + {(p, n - 1)}
  }

  ghost function Cells(market: Market): set<(string, int)> {
    Column(market.proposition, Minutes(market))
  }

  lemma {:induction false} ColumnMembers(p: string, n: nat)
    ensures forall cell :: cell in Column(p, n) <==> cell.0 == p && 0 <= cell.1 < n
    ensures |Column(p, n)| == n
  {
    if n > 0 { ColumnMembers(p, n - 1); }
  }

  ghost function GridOf(markets: seq<Market>): set<(string, int)> {
    if markets == [] then {} else GridOf(markets[..|markets| - 1]) + Cells(markets[|markets| - 1])
  }

  function TotalMinutes(markets: seq<Market>): nat {
    if markets == [] then 0 else TotalMinutes(markets[..|markets| - 1]) + Minutes(markets[|markets| - 1])
  }

  function GroupMarkets(markets: seq<Market>): nat {
    if markets == [] then 0
    else GroupMarkets(markets[..|markets| - 1])
         + if markets[|markets| - 1].identity.matchId <= GROUP_MATCHES then 1 else 0
  }

  ghost predicate DistinctPropositions(markets: seq<Market>) {
    forall i, j :: 0 <= i < j < |markets| ==> markets[i].proposition != markets[j].proposition
  }

  lemma {:induction false} TotalIsTheSplit(markets: seq<Market>)
    ensures GroupMarkets(markets) <= |markets|
    ensures TotalMinutes(markets)
         == GROUP_MINUTES * GroupMarkets(markets) + KNOCKOUT_MINUTES * (|markets| - GroupMarkets(markets))
  {
    if markets != [] { TotalIsTheSplit(markets[..|markets| - 1]); }
  }

  lemma {:induction false} GridSize(markets: seq<Market>)
    requires DistinctPropositions(markets)
    ensures |GridOf(markets)| == TotalMinutes(markets)
    ensures forall cell :: cell in GridOf(markets) ==>
        exists k :: 0 <= k < |markets| && markets[k].proposition == cell.0
  {
    if markets != [] {
      var last := |markets| - 1;
      GridSize(markets[..last]);
      ColumnMembers(markets[last].proposition, Minutes(markets[last]));
      DisjointUnionSize(GridOf(markets[..last]), Cells(markets[last]));
      forall cell | cell in GridOf(markets) ensures exists k :: 0 <= k < |markets| && markets[k].proposition == cell.0 {
        if cell in GridOf(markets[..last]) {
          var k :| 0 <= k < |markets[..last]| && markets[..last][k].proposition == cell.0;
          assert markets[k].proposition == cell.0;
        } else {
          assert markets[last].proposition == cell.0;
        }
      }
    }
  }

  lemma {:induction false} GridMembers(markets: seq<Market>, cell: (string, int))
    requires DistinctPropositions(markets)
    ensures cell in GridOf(markets) <==> InGrid(markets, cell)
  {
    if markets != [] {
      var last := |markets| - 1;
      GridMembers(markets[..last], cell);
      ColumnMembers(markets[last].proposition, Minutes(markets[last]));
      MarketsAreKnown(markets[..last], cell.0);
      if markets[last].proposition == cell.0 {
        assert !Known(markets[..last], cell.0);
      }
    }
  }

  lemma {:induction false} NewPropositionKeepsDistinct(markets: seq<Market>, market: Market)
    requires DistinctPropositions(markets) && market.proposition !in Propositions(markets)
    ensures DistinctPropositions(markets + [market])
  {
    PropositionsAreKnown(markets);
    MarketsAreKnown(markets, market.proposition);
  }

  lemma {:induction false} DistinctFromCount(markets: seq<Market>)
    ensures |Propositions(markets)| <= |markets|
    ensures |Propositions(markets)| == |markets| ==> DistinctPropositions(markets)
  {
    if markets != [] {
      var last := |markets| - 1;
      DistinctFromCount(markets[..last]);
      if |Propositions(markets)| == |markets| {
        NewPropositionKeepsDistinct(markets[..last], markets[last]);
        assert markets == markets[..last] + [markets[last]];
      }
    }
  }

  /** Rows that fill the grid once are as many as its cells. */
  lemma {:induction false} RowsCountCells(markets: seq<Market>, rows: seq<Row>)
    requires DistinctPropositions(markets) && FillsGridOnce(markets, rows)
    ensures |rows| == TotalMinutes(markets)
  {
    var cells := RowCells(rows);
    GridSize(markets);
    DistinctCount(cells);
    forall cell ensures cell in Elements(cells) <==> cell in GridOf(markets) {
      GridMembers(markets, cell);
      if cell in cells {
        var i :| 0 <= i < |cells| && cells[i] == cell;
      }
    }
    assert Elements(cells) == GridOf(markets);
  }

  /**
   An accepted release fills every cell of the grid exactly once, with 216 group and 32 knockout
   markets. No check states that split: the number of rows forces it.
   */
  lemma {:induction false} AcceptedReleaseIsTheGrid(markets: seq<Market>, rows: seq<Row>, quality: seq<Quality>,
                                                    seed: string, scanId: string)
    requires ReleaseAccepted(markets, rows, quality, seed, scanId)
    ensures FillsGridOnce(markets, rows)
    ensures GroupMarkets(markets) == 216 && |markets| - GroupMarkets(markets) == 32
  {
    AcceptedGridIsSplit(markets, rows);
  }

  lemma {:induction false} AcceptedGridIsSplit(markets: seq<Market>, rows: seq<Row>)
    requires |markets| == |Propositions(markets)| == EXPECTED_MARKETS
    requires |rows| == EXPECTED_MART_ROWS && GridAccepted(markets, rows)
    ensures FillsGridOnce(markets, rows)
    ensures GroupMarkets(markets) == 216 && |markets| - GroupMarkets(markets) == 32
  {
    GridAcceptedExactly(markets, rows);
    DistinctFromCount(markets);
    RowsCountCells(markets, rows);
    TotalIsTheSplit(markets);
  }

  // ---- two axis tests ----

  /** The export's query: row count, distinct count, least and greatest minute of one proposition. */
  ghost predicate CountedAxis(minutes: seq<int>, n: nat) {
    && |minutes| == n
    && |Elements(minutes)| == n
    && 0 in minutes && (forall m :: m in minutes ==> 0 <= m)
    && n - 1 in minutes && (forall m :: m in minutes ==> m <= n - 1)
  }

  /** The audit's form: no minute repeats and together they are the whole range. */
  ghost predicate ScannedAxis(minutes: seq<int>, n: nat) {
    NoRepeats(minutes) && Elements(minutes) == Range(n)
  }

  /** The two tests accept the same minutes, for every window length. */
  lemma {:induction false} AxisTestsAgree(minutes: seq<int>, n: nat)
    requires n > 0
    ensures CountedAxis(minutes, n) <==> ScannedAxis(minutes, n)
  {
    DistinctCount(minutes);
    RangeMembers(n);
    if CountedAxis(minutes, n) {
      forall m | m in minutes ensures m in Range(n) { assert 0 <= m <= n - 1; }
      assert Elements(minutes) <= Range(n);
      FullSubset(Elements(minutes), Range(n));
    }
    if ScannedAxis(minutes, n) {
      assert 0 in Elements(minutes) && n - 1 in Elements(minutes);
      forall m | m in minutes ensures 0 <= m <= n - 1 {
        assert m in Elements(minutes);
      }
    }
  }

  function MinutesShown(rows: seq<Row>, p: string): seq<int> {
    if rows == [] then []
    else MinutesShown(rows[..|rows| - 1], p)
         + if rows[|rows| - 1].proposition == p then [rows[|rows| - 1].minute] else []
  }

  lemma {:induction false} ShownMinutes(rows: seq<Row>, p: string)
    ensures forall m :: m in MinutesShown(rows, p) <==> (p, m) in RowCells(rows)
    ensures NoRepeats(RowCells(rows)) ==> NoRepeats(MinutesShown(rows, p))
  {
    if rows != [] {
      var last := |rows| - 1;
      var cells, before := RowCells(rows), RowCells(rows[..last]);
      ShownMinutes(rows[..last], p);
      assert cells == before + [CellOf(rows[last])];
      if NoRepeats(cells) {
        assert NoRepeats(before) by {
          forall i, j | 0 <= i < j < |before| ensures before[i] != before[j] { assert cells[i] != cells[j]; }
        }
        assert CellOf(rows[last]) !in before by {
          forall i | 0 <= i < |before| ensures before[i] != CellOf(rows[last]) { assert cells[i] != cells[last]; }
        }
      }
    }
  }

  lemma {:induction false} ShownMinutesAreAxis(rows: seq<Row>, p: string)
    ensures Elements(MinutesShown(rows, p)) == Axis(rows, p)
  {
    ShownMinutes(rows, p);
    forall m ensures m in Elements(MinutesShown(rows, p)) <==> m in Axis(rows, p) {
      AxisHoldsCells(rows, p, m);
    }
  }

  lemma {:induction false} AcceptedCellsAreDistinct(markets: seq<Market>, rows: seq<Row>)
    requires GridAccepted(markets, rows)
    ensures NoRepeats(RowCells(rows))
  {
    UniqueKeysExactly(markets, rows);
  }

  /** Whatever the audit accepts, the export's counting query accepts for every proposition. */
  lemma {:induction false} ExportAcceptsAuditedAxes(markets: seq<Market>, rows: seq<Row>, p: string)
    requires GridAccepted(markets, rows) && Known(markets, p)
    ensures CountedAxis(MinutesShown(rows, p), MinutesOf(markets, p))
  {
    AcceptedCellsAreDistinct(markets, rows);
    ShownMinutes(rows, p);
    ShownMinutesAreAxis(rows, p);
    FullAxisOfProposition(markets, rows, p);
    AxisTestsAgree(MinutesShown(rows, p), MinutesOf(markets, p));
  }

  // ---- what the row tests mean ----

  /** Each status says which sides were observed. */
  lemma {:induction false} StatusExactly(row: Row)
    ensures ExpectedStatus(row) == "both_observed" <==> row.yes.observed && row.no.observed
    ensures ExpectedStatus(row) == "yes_only" <==> row.yes.observed && !row.no.observed
    ensures ExpectedStatus(row) == "no_only" <==> !row.yes.observed && row.no.observed
    ensures ExpectedStatus(row) == "no_fills" <==> !row.yes.observed && !row.no.observed
  {
    assert "both_observed"[0] == 'b' && "yes_only"[0] == 'y' && "no_only"[3] == 'o' && "no_fills"[3] == 'f';
  }

  /** The prices of a side. */
  function Prices(s: AuditSide): seq<Option<real>> {
    [s.open, s.high, s.low, s.close, s.vwap]
  }

  /** Every price lies between two bounds exactly if each of the five does. */
  lemma {:induction false} FivePrices(s: AuditSide)
    ensures None !in Prices(s) <==> s.open.Some? && s.high.Some? && s.low.Some? && s.close.Some? && s.vwap.Some?
    ensures s.low.Some? && s.high.Some? ==>
      ((forall p :: p in Prices(s) ==> s.low.value <= p.GetOr(0.0) <= s.high.value) <==>
         forall k :: 0 <= k < 5 ==> s.low.value <= Prices(s)[k].GetOr(0.0) <= s.high.value)
    ensures Prices(s)[0] == s.open && Prices(s)[1] == s.high && Prices(s)[2] == s.low
    ensures Prices(s)[3] == s.close && Prices(s)[4] == s.vwap
  {
    var prices := Prices(s);
    assert prices[0] in prices && prices[1] in prices && prices[2] in prices && prices[3] in prices
        && prices[4] in prices;
  }

  /**
   An observed side has fills and volumes of its own minute, collateral within the shares, and five prices
   between its low and its high, which are probabilities; any other side has nothing at all.
   */
  lemma {:induction false} SideValidExactly(s: AuditSide, minuteAt: int)
    ensures s.observed ==>
      (SideIsValid(s, minuteAt) <==>
         && 1 <= s.normalized && 0 <= s.derived <= s.normalized
         && 0.0 < s.collateral <= s.share
         && None !in Prices(s) && 0.0 <= s.low.value && s.high.value <= 1.0
         && (forall p :: p in Prices(s) ==> s.low.value <= p.GetOr(0.0) <= s.high.value)
         && s.first.Some? && s.last.Some?
         && 0 <= s.first.value - minuteAt <= s.last.value - minuteAt < 60_000_000)
    ensures !s.observed ==>
      (SideIsValid(s, minuteAt) <==>
         s == AuditSide(false, 0, 0, 0.0, 0.0, None, None, None, None, None, None, None))
  {
    FivePrices(s);
  }

  /** A row of a market carries the market's identity, and the instant of its minute after the window's start. */
  lemma {:induction false} RowMatchesExactly(row: Row, market: Market)
    ensures RowMatches(row, market) <==>
      && row.identity == market.identity && row.settlement - market.identity.windowStart == 60_000_000 * row.minute
      && SideIsValid(row.yes, row.settlement) && SideIsValid(row.no, row.settlement)
      && row.status == ExpectedStatus(row) && (row.complete <==> row.status == "both_observed")
  {
    StatusExactly(row);
  }

  lemma {:induction false} MatchIdsExactly(k: int)
    ensures k in ExpectedMatchIds() <==> 1 <= k <= 104
  {
  }

  ghost function Names(markets: seq<Market>): seq<string> {
    seq(|markets|, k requires 0 <= k < |markets| => markets[k].proposition)
  }

  ghost function AllTokens(markets: seq<Market>): seq<string> {
    seq(|markets|, k requires 0 <= k < |markets| => markets[k].yesToken)
    + seq(|markets|, k requires 0 <= k < |markets| => markets[k].noToken)
  }

  lemma {:induction false} PropositionsAreDistinctExactly(markets: seq<Market>)
    ensures |Propositions(markets)| == |markets| <==> NoRepeats(Names(markets))
  {
    forall p ensures p in Propositions(markets) <==> p in Elements(Names(markets)) {
      PropositionsAreKnown(markets);
      MarketsAreKnown(markets, p);
      if Known(markets, p) {
        var k :| 0 <= k < |markets| && markets[k].proposition == p;
        assert Names(markets)[k] == p;
      }
    }
    assert Propositions(markets) == Elements(Names(markets));
    DistinctCount(Names(markets));
  }

  lemma {:induction false} TokensAreDistinctExactly(markets: seq<Market>)
    ensures |Tokens(markets)| == 2 * |markets| <==> NoRepeats(AllTokens(markets))
  {
    var all, n := AllTokens(markets), |markets|;
    forall t ensures t in Tokens(markets) <==> t in Elements(all) {
      if t in Tokens(markets) {
        var m :| m in markets && (m.yesToken == t || m.noToken == t);
        var k :| 0 <= k < n && markets[k] == m;
        assert all[k] == m.yesToken && all[n + k] == m.noToken;
      }
      if t in all {
        var k :| 0 <= k < |all| && all[k] == t;
        assert markets[k % n] in markets;
      }
    }
    assert Tokens(markets) == Elements(all);
    DistinctCount(all);
  }

  /** How many markets of each kind there are. */
  predicate HasKinds(kinds: multiset<string>) {
    kinds["home_win"] == kinds["draw"] == kinds["away_win"] == 72
    && kinds["home_advances"] == 30 && kinds["home_win_third_place"] == kinds["home_wins_final"] == 1
  }

  lemma {:induction false} SixKindsAreAll(kinds: multiset<string>)
    requires |kinds| == 248
    ensures kinds == INVENTORY <==> HasKinds(kinds)
  {
    KindsDiffer();
    if HasKinds(kinds) {
      assert INVENTORY <= kinds;
      assert kinds == INVENTORY + (kinds - INVENTORY);
    }
  }

  /**
   The sidecar must hold 248 markets of matches 1 to 104, named and tokenized apart, of one seed and of
   these kinds.
   */
  lemma {:induction false} InventoryExactly(markets: seq<Market>, seed: string)
    ensures InventoryAccepted(markets, seed) <==>
      && |markets| == 248
      && (forall k :: 1 <= k <= 104 <==> k in MatchIds(markets))
      && NoRepeats(Names(markets)) && NoRepeats(AllTokens(markets))
      && (forall m :: m in markets ==> m.manifest == seed)
      && HasKinds(multiset(Kinds(markets)))
  {
    PropositionsAreDistinctExactly(markets);
    TokensAreDistinctExactly(markets);
    MatchIdsAreExactly(markets);
    OneSeedExactly(markets, seed);
    if |markets| == 248 { SixKindsAreAll(multiset(Kinds(markets))); }
  }

  lemma {:induction false} MatchIdsAreExactly(markets: seq<Market>)
    ensures MatchIds(markets) == ExpectedMatchIds() <==> forall k :: 1 <= k <= 104 <==> k in MatchIds(markets)
  {
    forall k ensures k in ExpectedMatchIds() <==> 1 <= k <= 104 {
      MatchIdsExactly(k);
    }
    if forall k :: 1 <= k <= 104 <==> k in MatchIds(markets) {
      forall k ensures k in MatchIds(markets) <==> k in ExpectedMatchIds() {
      }
    }
  }

  lemma {:induction false} OneSeedExactly(markets: seq<Market>, seed: string)
    ensures markets != [] ==>
      ((set m | m in markets :: m.manifest) == {seed} <==> forall m :: m in markets ==> m.manifest == seed)
  {
    var manifests := set m | m in markets :: m.manifest;
    if markets != [] {
      assert markets[0] in markets && markets[0].manifest in manifests;
      if manifests == {seed} {
        forall m | m in markets ensures m.manifest == seed {
          assert m.manifest in manifests;
        }
      }
    }
  }

  lemma {:induction false} KindsDiffer()
    ensures NoRepeats(["home_win", "draw", "away_win", "home_advances", "home_win_third_place", "home_wins_final"])
  {
    assert "home_win"[5] == 'w' && "home_advances"[5] == 'a' && "home_win_third_place"[8] == '_'
        && "home_wins_final"[8] == 's';
    assert "draw"[0] == 'd' && "away_win"[0] == 'a';
  }

  /** The quality summary is acceptable exactly if there is one, published by the scan, ready and without errors. */
  lemma {:induction false} QualityExactly(quality: seq<Quality>, scanId: string)
    ensures QualityFailure(quality, scanId).None? <==> quality == [Quality(true, scanId, "published", 0, "")]
  {
  }
}

/**
 Reference bundles: the validation a bundle must pass, and the transactional load that replaces the active
 reference tables and appends to a ledger. Loads may be refused, fail at any statement, be replayed or
 repeated in any order. The results are that the active tables are always those of the newest ledger
 entry, that entries never change, that only a first complete load changes anything, and that with a
 collision-free hash a replayed bundle has the recorded tables.
 */
module ReferenceLedger {
  import opened Wrappers
  import opened Counting
  import opened Functions

  const CONTRACT_VERSION := "oddsfox.reference.v1"
  const SCHEMA_VERSION := "1.0.0"
  const MANIFEST := "manifest.json"
  const CHECKSUMS := "checksums.sha256"

  type Blob = string
  type Files = map<string, Blob>
  type Row = map<string, string>

  datatype Table = Table(columns: seq<string>, fingerprint: string, rows: seq<Row>)

  datatype Entry = Entry(
    table: string, path: string, sha: string, rowCount: int, fingerprint: string, primaryKey: seq<string>)

  /** `headerIsValid` stands for the revision, image digest, creation time and source fields. */
  datatype Manifest = Manifest(
    contract: string, schema: string, headerIsValid: bool, bundleId: string, status: string, tables: seq<Entry>)

  /** The hash and the parsers, and what the consumer requires: primary keys, and schemas if given. */
  datatype Reader = Reader(
    hash: Blob -> string, parse: Blob -> Option<Manifest>, lines: Blob -> seq<Option<(string, string)>>,
    parquet: Blob -> Option<Table>, required: map<string, seq<string>>, schemas: Option<map<string, string>>)

  // ---- shapes ----

  predicate IsLower(c: char) { 'a' <= c <= 'z' }

  predicate IsDigit(c: char) { '0' <= c <= '9' }

  predicate IsAlphanumeric(c: char) { IsLower(c) || 'A' <= c <= 'Z' || IsDigit(c) }

  predicate IsDigest(s: string) {
    |s| == 64 && forall i :: 0 <= i < |s| ==> IsDigit(s[i]) || 'a' <= s[i] <= 'f'
  }

  predicate IsSafeTable(s: string) {
    |s| > 0 && IsLower(s[0]) && forall i :: 0 <= i < |s| ==> IsLower(s[i]) || IsDigit(s[i]) || s[i] == '_'
  }

  predicate IsSafeId(s: string) {
    0 < |s| <= 128 && IsAlphanumeric(s[0])
    && forall i :: 0 <= i < |s| ==> IsAlphanumeric(s[i]) || s[i] in ".-_"
  }

  // ---- validation ----

  function PayloadName(table: string): string {
    table + ".parquet"
  }

  predicate EntryIsValid(r: Reader, files: Files, e: Entry) {
    && IsSafeTable(e.table)
    && e.path == PayloadName(e.table) && e.path in files
    && IsDigest(e.sha) && r.hash(files[e.path]) == e.sha
    && r.parquet(files[e.path]).Some?
    && (var table := r.parquet(files[e.path]).value;
        && |table.rows| == e.rowCount && table.fingerprint == e.fingerprint
        && e.primaryKey != [] && (forall i :: 0 <= i < |e.primaryKey| ==> e.primaryKey[i] in table.columns)
        && e.table in r.required && r.required[e.table] == e.primaryKey
        && (r.schemas.Some? ==> e.table in r.schemas.value && r.schemas.value[e.table] == table.fingerprint))
  }

  function TableNames(tables: seq<Entry>): set<string> {
    set e | e in tables :: e.table
  }

  function PayloadNames(tables: seq<Entry>): set<string> {
    set e | e in tables :: PayloadName(e.table)
  }

  ghost predicate TablesAreDistinct(tables: seq<Entry>) {
    forall i, j :: 0 <= i < j < |tables| ==> tables[i].table != tables[j].table
  }

  ghost predicate TablesAreValid(r: Reader, files: Files, tables: seq<Entry>) {
    TablesAreDistinct(tables) && forall i :: 0 <= i < |tables| ==> EntryIsValid(r, files, tables[i])
  }

  function LineNames(lines: seq<Option<(string, string)>>): set<string> {
    set line | line in lines && line.Some? :: line.value.1
  }

  ghost predicate LinesAreDistinct(lines: seq<Option<(string, string)>>) {
    forall i, j :: 0 <= i < j < |lines| && lines[i].Some? && lines[j].Some? ==> lines[i].value.1 != lines[j].value.1
  }

  ghost predicate LinesAreWellFormed(lines: seq<Option<(string, string)>>) {
    LinesAreDistinct(lines) && forall i :: 0 <= i < |lines| ==> lines[i].Some? && IsDigest(lines[i].value.0)
  }

  ghost predicate ChecksumsMatch(r: Reader, files: Files, lines: seq<Option<(string, string)>>, expected: set<string>) {
    && LinesAreWellFormed(lines) && LineNames(lines) == expected
    && forall i :: 0 <= i < |lines| ==> LineMatches(r, files, lines[i])
  }

  predicate LineMatches(r: Reader, files: Files, line: Option<(string, string)>) {
    line.Some? && line.value.1 in files && r.hash(files[line.value.1]) == line.value.0
  }

  predicate HeaderIsValid(m: Manifest, name: string) {
    && m.contract == CONTRACT_VERSION && m.schema == SCHEMA_VERSION && m.headerIsValid
    && IsSafeId(m.bundleId) && m.bundleId == name && m.status == "complete"
  }

  predicate IsComplete(r: Reader, files: Files) {
    MANIFEST in files && CHECKSUMS in files && r.parse(files[MANIFEST]).Some?
  }

  /** What validation accepts, stated without its order of checks. */
  ghost predicate Accepted(r: Reader, name: string, files: Files) {
    IsComplete(r, files)
    && var m := r.parse(files[MANIFEST]).value;
       && HeaderIsValid(m, name)
       && |m.tables| == |r.required| && TablesAreValid(r, files, m.tables)
       && (r.schemas.Some? ==> r.schemas.value.Keys == r.required.Keys)
       && ChecksumsMatch(r, files, r.lines(files[CHECKSUMS]), {MANIFEST} + PayloadNames(m.tables))
  }

  /** As many distinct known tables as are required are all of them, so the later inventory test never fails. */
  lemma {:induction false} InventoryIsComplete(r: Reader, files: Files, tables: seq<Entry>)
    requires TablesAreValid(r, files, tables) && |tables| == |r.required|
    ensures TableNames(tables) == r.required.Keys
  {
    var names := seq(|tables|, i requires 0 <= i < |tables| => tables[i].table);
    forall i | 0 <= i < |names| ensures names[i] in r.required { assert EntryIsValid(r, files, tables[i]); }
    forall x ensures x in Elements(names) <==> x in TableNames(tables) {
      if x in names {
        var i :| 0 <= i < |names| && names[i] == x;
        assert tables[i] in tables;
      }
      if x in TableNames(tables) {
        var e :| e in tables && e.table == x;
        var i :| 0 <= i < |tables| && tables[i] == e;
        assert names[i] == x;
      }
    }
    assert NoRepeats(names);
    DistinctCount(names);
    assert Elements(names) == TableNames(tables);
    assert |r.required.Keys| == |r.required|;
    FullSubset(TableNames(tables), r.required.Keys);
  }

  lemma {:induction false} SeenMeansRepeated(tables: seq<Entry>, i: nat)
    requires i < |tables| && tables[i].table in TableNames(tables[..i])
    ensures !TablesAreDistinct(tables)
  {
    var e :| e in tables[..i] && e.table == tables[i].table;
    var k :| 0 <= k < i && tables[..i][k] == e;
    assert tables[k].table == tables[i].table;
  }

  lemma {:induction false} ValidOneMore(r: Reader, files: Files, tables: seq<Entry>, i: nat)
    requires i < |tables| && TablesAreValid(r, files, tables[..i])
    requires tables[i].table !in TableNames(tables[..i]) && EntryIsValid(r, files, tables[i])
    ensures TablesAreValid(r, files, tables[..i + 1])
    ensures TableNames(tables[..i + 1]) == TableNames(tables[..i]) + {tables[i].table}
    ensures PayloadNames(tables[..i + 1]) == PayloadNames(tables[..i]) + {PayloadName(tables[i].table)}
  {
    var before, after := tables[..i], tables[..i + 1];
    assert after == before + [tables[i]];
    forall k | 0 <= k < i ensures after[k].table != tables[i].table {
      assert before[k] in before;
    }
  }

  /** The loop over table entries, growing the names seen and the files expected. */
  method ValidateTables(r: Reader, files: Files, tables: seq<Entry>)
    returns (ok: bool, seen: set<string>, expected: set<string>)
    ensures ok <==> TablesAreValid(r, files, tables)
    ensures ok ==> seen == TableNames(tables) && expected == {MANIFEST} + PayloadNames(tables)
  {
    seen, expected := {}, {MANIFEST};
    var i := 0;
    while i < |tables|
      invariant 0 <= i <= |tables|
      invariant TablesAreValid(r, files, tables[..i])
      invariant seen == TableNames(tables[..i]) && expected == {MANIFEST} + PayloadNames(tables[..i])
    {
      if tables[i].table in seen {
        SeenMeansRepeated(tables, i);
        return false, seen, expected;
      }
      if !EntryIsValid(r, files, tables[i]) {
        return false, seen, expected;
      }
      ValidOneMore(r, files, tables, i);
      seen, expected := seen + {tables[i].table}, expected + {PayloadName(tables[i].table)};
      i := i + 1;
    }
    assert tables[..i] == tables;
    ok := true;
  }

  /** The loop over checksum lines, growing a dictionary, and the comparison of every file with it. */
  method ValidateChecksums(r: Reader, files: Files, lines: seq<Option<(string, string)>>, expected: set<string>)
    returns (ok: bool)
    ensures ok <==> ChecksumsMatch(r, files, lines, expected)
  {
    var names: set<string> := {};
    var i := 0;
    while i < |lines|
      invariant 0 <= i <= |lines|
      invariant LinesAreWellFormed(lines[..i]) && names == LineNames(lines[..i])
    {
      if lines[i].None? || !IsDigest(lines[i].value.0) {
        return false;
      }
      if lines[i].value.1 in names {
        var other :| other in lines[..i] && other.Some? && other.value.1 == lines[i].value.1;
        var k :| 0 <= k < i && lines[..i][k] == other;
        assert lines[k].value.1 == lines[i].value.1;
        return false;
      }
      assert lines[..i + 1] == lines[..i] + [lines[i]];
      names := names + {lines[i].value.1};
      i := i + 1;
    }
    assert lines[..i] == lines;
    ok := names == expected && forall k :: 0 <= k < |lines| ==> LineMatches(r, files, lines[k]);
  }

  method ValidateReferenceBundle(r: Reader, name: string, files: Files) returns (m: Option<Manifest>)
    ensures m.Some? <==> Accepted(r, name, files)
    ensures m.Some? ==> m == r.parse(files[MANIFEST])
  {
    if !IsComplete(r, files) {
      return None;
    }
    var manifest := r.parse(files[MANIFEST]).value;
    if !HeaderIsValid(manifest, name) || |manifest.tables| != |r.required| {
      return None;
    }
    var tablesOk, seen, expected := ValidateTables(r, files, manifest.tables);
    if !tablesOk {
      return None;
    }
    InventoryIsComplete(r, files, manifest.tables);
    if seen != r.required.Keys || (r.schemas.Some? && seen != r.schemas.value.Keys) {
      return None;
    }
    var checksumsOk := ValidateChecksums(r, files, r.lines(files[CHECKSUMS]), expected);
    if !checksumsOk {
      return None;
    }
    m := Some(manifest);
  }

  // ---- loading ----

  datatype Record = Record(bundleId: string, sha: string)

  /** What is committed: the ledger, oldest entry first, and the active tables if there are any. */
  datatype Store = Store(ledger: seq<Record>, active: Option<map<string, Table>>)

  datatype Outcome = Loaded | Replayed | Refused | Changed | Aborted

  /** A load of a directory. The statement numbered `cut` fails, if the transaction gets that far. */
  datatype Request = Request(name: string, files: Files, cut: nat)

  function Lookup(ledger: seq<Record>, id: string): (found: Option<Record>)
    ensures found.Some? ==> found.value in ledger && found.value.bundleId == id
    ensures found.None? ==> forall i :: 0 <= i < |ledger| ==> ledger[i].bundleId != id
  {
    if ledger == [] then None
    else if ledger[0].bundleId == id then Some(ledger[0])
    else Lookup(ledger[1..], id)
  }

  function KeyOf(row: Row, key: seq<string>): seq<Option<string>> {
    seq(|key|, i requires 0 <= i < |key| => if key[i] in row then Some(row[key[i]]) else None)
  }

  predicate KeyIsUnique(table: Table, key: seq<string>) {
    forall i, j :: 0 <= i < j < |table.rows| ==> KeyOf(table.rows[i], key) != KeyOf(table.rows[j], key)
  }

  function TableOf(r: Reader, files: Files, e: Entry): Table {
    if e.path in files && r.parquet(files[e.path]).Some? then r.parquet(files[e.path]).value else Table([], "", [])
  }

  function Tables(r: Reader, files: Files, entries: seq<Entry>): map<string, Table> {
    if entries == [] then map[]
    else
      var e := entries[|entries| - 1];
      Tables(r, files, entries[..|entries| - 1])[e.table := TableOf(r, files, e)]
  }

  ghost predicate KeysAreUnique(r: Reader, files: Files, entries: seq<Entry>) {
    forall i :: 0 <= i < |entries| ==> KeyIsUnique(TableOf(r, files, entries[i]), entries[i].primaryKey)
  }

  /** Drop, create, two statements per table, insert, commit. */
  function Statements(m: Manifest): nat {
    2 * |m.tables| + 4
  }

  function ManifestOf(r: Reader, files: Files): Manifest
    requires IsComplete(r, files)
  {
    r.parse(files[MANIFEST]).value
  }

  function RecordOf(r: Reader, files: Files): Record
    requires IsComplete(r, files)
  {
    Record(ManifestOf(r, files).bundleId, r.hash(files[MANIFEST]))
  }

  ghost function Load(r: Reader, s: Store, q: Request): (Store, Outcome) {
    if !Accepted(r, q.name, q.files) then (s, Refused)
    else
      var m, record := ManifestOf(r, q.files), RecordOf(r, q.files);
      match Lookup(s.ledger, m.bundleId)
      case Some(prior) => (s, if prior.sha != record.sha then Changed else Replayed)
      case None =>
        if q.cut < Statements(m) || !KeysAreUnique(r, q.files, m.tables) then (s, Aborted)
        else (Store(s.ledger + [record], Some(Tables(r, q.files, m.tables))), Loaded)
  }

  /** A warehouse with its committed state and the one an open transaction sees. */
  class Warehouse {
    var ledger: seq<Record>
    var active: Option<map<string, Table>>
    var pendingLedger: seq<Record>
    var pending: Option<map<string, Table>>

    function Contents(): Store
      reads this
    {
      Store(ledger, active)
    }

    constructor ()
      ensures Contents() == Store([], None)
    {
      ledger, active := [], None;
      pendingLedger, pending := [], None;
    }

    /** The statements of the transaction; a failing one, or a repeated key, rolls everything back. */
    method Replace(r: Reader, q: Request, m: Manifest, record: Record) returns (done: bool)
      modifies this
      ensures done <==> q.cut >= Statements(m) && KeysAreUnique(r, q.files, m.tables)
      ensures Contents()
          == if done then Store(old(ledger) + [record], Some(Tables(r, q.files, m.tables))) else old(Contents())
    {
      done := false;
      pendingLedger, pending := ledger, active;
      if q.cut == 0 { return; }
      pending := None;
      if q.cut == 1 { return; }
      var tables: map<string, Table> := map[];
      pending := Some(tables);
      var i := 0;
      while i < |m.tables|
        invariant 0 <= i <= |m.tables| && q.cut >= 2 + 2 * i
        invariant tables == Tables(r, q.files, m.tables[..i]) && pending == Some(tables)
        invariant KeysAreUnique(r, q.files, m.tables[..i])
        invariant Contents() == old(Contents()) && pendingLedger == old(ledger)
      {
        var e := m.tables[i];
        if q.cut == 2 + 2 * i { return; }
        tables := tables[e.table := TableOf(r, q.files, e)];
        pending := Some(tables);
        if q.cut == 3 + 2 * i || !KeyIsUnique(tables[e.table], e.primaryKey) { return; }
        assert m.tables[..i + 1] == m.tables[..i] + [e];
        i := i + 1;
      }
      assert m.tables[..i] == m.tables;
      if q.cut == 2 + 2 * i { return; }
      pendingLedger := pendingLedger + [record];
      if q.cut == 3 + 2 * i { return; }
      ledger, active := pendingLedger, pending;
      done := true;
    }

    method LoadReferenceBundle(r: Reader, q: Request) returns (outcome: Outcome)
      modifies this
      ensures (Contents(), outcome) == Load(r, old(Contents()), q)
    {
      var manifest := ValidateReferenceBundle(r, q.name, q.files);
      if manifest.None? {
        return Refused;
      }
      var m, record := manifest.value, RecordOf(r, q.files);
      var prior := Lookup(ledger, m.bundleId);
      if prior.Some? {
        return if prior.value.sha != record.sha then Changed else Replayed;
      }
      var done := Replace(r, q, m, record);
      outcome := if done then Loaded else Aborted;
    }
  }

  // ---- runs ----

  ghost function After(r: Reader, requests: seq<Request>, n: nat): Store
    requires n <= |requests|
  {
    if n == 0 then Store([], None) else Load(r, After(r, requests, n - 1), requests[n - 1]).0
  }

  ghost function OutcomeOf(r: Reader, requests: seq<Request>, n: nat): Outcome
    requires n < |requests|
  {
    Load(r, After(r, requests, n), requests[n]).1
  }

  /** The last of the first n requests that loaded. */
  ghost function LastLoaded(r: Reader, requests: seq<Request>, n: nat): (k: Option<nat>)
    requires n <= |requests|
    ensures k.Some? ==> k.value < n && OutcomeOf(r, requests, k.value) == Loaded
  {
    if n == 0 then None
    else if OutcomeOf(r, requests, n - 1) == Loaded then Some(n - 1)
    else LastLoaded(r, requests, n - 1)
  }

  /** The store shows the bundle of the given request: its record is newest, its tables active. */
  ghost predicate Shows(r: Reader, s: Store, q: Option<Request>) {
    match q
    case None => s == Store([], None)
    case Some(q) =>
      IsComplete(r, q.files) && s.ledger != [] && s.ledger[|s.ledger| - 1] == RecordOf(r, q.files)
      && s.active == Some(Tables(r, q.files, ManifestOf(r, q.files).tables))
  }

  lemma {:induction false} LoadShows(r: Reader, s: Store, q: Request)
    requires Load(r, s, q).1 == Loaded
    ensures Shows(r, Load(r, s, q).0, Some(q))
  {
  }

  ghost function NewestRequest(r: Reader, requests: seq<Request>, n: nat): Option<Request>
    requires n <= |requests|
  {
    match LastLoaded(r, requests, n)
    case None => None
    case Some(k) => Some(requests[k])
  }

  lemma {:induction false} LoadKeepsStore(r: Reader, s: Store, q: Request)
    requires Load(r, s, q).1 != Loaded
    ensures Load(r, s, q).0 == s
  {
  }

  /**
   Over every sequence of loads, refusals, failures and replays, the store shows the last request that
   loaded: active tables and newest entry agree.
   */
  lemma {:induction false} ActiveIsNewest(r: Reader, requests: seq<Request>, n: nat)
    requires n <= |requests|
    ensures Shows(r, After(r, requests, n), NewestRequest(r, requests, n))
  {
    if n > 0 {
      ActiveIsNewest(r, requests, n - 1);
      var s, q := After(r, requests, n - 1), requests[n - 1];
      if Load(r, s, q).1 == Loaded {
        LoadShows(r, s, q);
      } else {
        LoadKeepsStore(r, s, q);
      }
    }
  }

  /** Entries are only ever appended, and only by a request that loads. */
  lemma {:induction false} EntriesNeverChange(r: Reader, requests: seq<Request>, n: nat, m: nat)
    requires n <= m <= |requests|
    ensures After(r, requests, n).ledger <= After(r, requests, m).ledger
    decreases m
  {
    if n < m {
      EntriesNeverChange(r, requests, n, m - 1);
    }
  }

  ghost predicate IdsAreDistinct(ledger: seq<Record>) {
    forall i, j :: 0 <= i < j < |ledger| ==> ledger[i].bundleId != ledger[j].bundleId
  }

  lemma {:induction false} LedgerIdsAreDistinct(r: Reader, requests: seq<Request>, n: nat)
    requires n <= |requests|
    ensures IdsAreDistinct(After(r, requests, n).ledger)
  {
    if n > 0 {
      LedgerIdsAreDistinct(r, requests, n - 1);
    }
  }

  lemma {:induction false} LookupFinds(ledger: seq<Record>, record: Record)
    requires IdsAreDistinct(ledger) && record in ledger
    ensures Lookup(ledger, record.bundleId) == Some(record)
  {
    if ledger[0] != record {
      assert ledger == [ledger[0]] + ledger[1..];
      var i :| 0 <= i < |ledger| && ledger[i] == record;
      LookupFinds(ledger[1..], record);
    }
  }

  /** A failed load, for whatever reason, and a replay, however old, change no table and no entry. */
  lemma {:induction false} OnlyFirstLoadsChange(r: Reader, requests: seq<Request>, n: nat)
    requires n < |requests|
    ensures OutcomeOf(r, requests, n) != Loaded <==> After(r, requests, n + 1) == After(r, requests, n)
  {
    if OutcomeOf(r, requests, n) == Loaded {
      assert |After(r, requests, n + 1).ledger| == |After(r, requests, n).ledger| + 1;
    }
  }

  /** A bundle that has loaded once is a replay at every later request, wherever its manifest comes from. */
  lemma {:induction false} LoadedOnceReplaysForever(r: Reader, requests: seq<Request>, k: nat, n: nat)
    requires k < n < |requests| && OutcomeOf(r, requests, k) == Loaded
    requires Accepted(r, requests[n].name, requests[n].files) && IsComplete(r, requests[k].files)
    requires RecordOf(r, requests[n].files) == RecordOf(r, requests[k].files)
    ensures OutcomeOf(r, requests, n) == Replayed
  {
    var record, ledger := RecordOf(r, requests[k].files), After(r, requests, k + 1).ledger;
    assert ledger[|ledger| - 1] == record;
    EntriesNeverChange(r, requests, k + 1, n);
    assert After(r, requests, n).ledger[|ledger| - 1] == record;
    LedgerIdsAreDistinct(r, requests, n);
    LookupFinds(After(r, requests, n).ledger, record);
  }

  /** Each entry was written by a request that loaded. */
  lemma {:induction false} EntryHasALoad(r: Reader, requests: seq<Request>, n: nat, record: Record) returns (k: nat)
    requires n <= |requests| && record in After(r, requests, n).ledger
    ensures k < n && OutcomeOf(r, requests, k) == Loaded
    ensures IsComplete(r, requests[k].files) && RecordOf(r, requests[k].files) == record
  {
    if record in After(r, requests, n - 1).ledger {
      k := EntryHasALoad(r, requests, n - 1, record);
    } else {
      k := n - 1;
    }
  }

  // ---- the hash pins the tables ----

  /** Accepted bundles with the same manifest have the same payloads, table by table. */
  lemma {:induction false} ManifestPinsTables(r: Reader, files: Files, files': Files, entries: seq<Entry>)
    requires IsInjective(r.hash)
    requires forall i :: 0 <= i < |entries| ==>
        EntryIsValid(r, files, entries[i]) && EntryIsValid(r, files', entries[i])
    ensures Tables(r, files, entries) == Tables(r, files', entries)
  {
    if entries != [] {
      var last := entries[|entries| - 1];
      assert EntryIsValid(r, files, last) && EntryIsValid(r, files', last);
      assert files[last.path] == files'[last.path];
      ManifestPinsTables(r, files, files', entries[..|entries| - 1]);
    }
  }

  /** Accepted directories with the same record hold the same tables. */
  lemma {:induction false} RecordPinsTables(r: Reader, name: string, files: Files, name': string, files': Files)
    requires IsInjective(r.hash)
    requires Accepted(r, name, files) && Accepted(r, name', files') && RecordOf(r, files) == RecordOf(r, files')
    ensures Tables(r, files, ManifestOf(r, files).tables) == Tables(r, files', ManifestOf(r, files').tables)
  {
    assert files[MANIFEST] == files'[MANIFEST];
    ManifestPinsTables(r, files, files', ManifestOf(r, files).tables);
  }

  /**
   A replay is of a bundle loaded before, with exactly the tables loaded then, even where files other
   than the manifest were replaced in between.
   */
  lemma {:induction false} ReplayedTablesAreRecorded(r: Reader, requests: seq<Request>, n: nat) returns (k: nat)
    requires IsInjective(r.hash) && n < |requests| && OutcomeOf(r, requests, n) == Replayed
    ensures k < n && OutcomeOf(r, requests, k) == Loaded
    ensures IsComplete(r, requests[n].files) && IsComplete(r, requests[k].files)
    ensures RecordOf(r, requests[k].files) == RecordOf(r, requests[n].files)
    ensures Tables(r, requests[n].files, ManifestOf(r, requests[n].files).tables)
         == Tables(r, requests[k].files, ManifestOf(r, requests[k].files).tables)
  {
    var id := ManifestOf(r, requests[n].files).bundleId;
    var prior := Lookup(After(r, requests, n).ledger, id).value;
    k := EntryHasALoad(r, requests, n, prior);
    RecordPinsTables(r, requests[n].name, requests[n].files, requests[k].name, requests[k].files);
  }

  ghost predicate IsActive(r: Reader, s: Store, files: Files)
    requires IsComplete(r, files)
  {
    s.active == Some(Tables(r, files, ManifestOf(r, files).tables))
  }

  lemma {:induction false} SuccessMeansAccepted(r: Reader, s: Store, q: Request)
    requires Load(r, s, q).1 in {Loaded, Replayed}
    ensures Accepted(r, q.name, q.files) && Load(r, s, q).0.ledger != []
  {
  }

  lemma {:induction false} ShownRecordIsActive(r: Reader, s: Store, q: Request, newest: Request)
    requires IsInjective(r.hash) && Accepted(r, q.name, q.files)
    requires Accepted(r, newest.name, newest.files) && Shows(r, s, Some(newest))
    ensures s.ledger[|s.ledger| - 1] == RecordOf(r, q.files) ==> IsActive(r, s, q.files)
  {
    if s.ledger[|s.ledger| - 1] == RecordOf(r, q.files) {
      RecordPinsTables(r, q.name, q.files, newest.name, newest.files);
    }
  }

  lemma {:induction false} NewestIsAccepted(r: Reader, requests: seq<Request>, n: nat)
    requires n <= |requests| && NewestRequest(r, requests, n).Some?
    ensures var q := NewestRequest(r, requests, n).value; Accepted(r, q.name, q.files)
  {
    var k := LastLoaded(r, requests, n).value;
    SuccessMeansAccepted(r, After(r, requests, k), requests[k]);
  }

  /** After a load that reports success, the given bundle's tables are active if its entry is the newest. */
  lemma {:induction false} SuccessActivatesNewest(r: Reader, requests: seq<Request>, n: nat)
    requires IsInjective(r.hash) && n < |requests|
    requires OutcomeOf(r, requests, n) in {Loaded, Replayed}
    ensures IsComplete(r, requests[n].files)
    ensures var s := After(r, requests, n + 1);
      s.ledger != []
          && (s.ledger[|s.ledger| - 1] == RecordOf(r, requests[n].files) ==> IsActive(r, s, requests[n].files))
  {
    var before, q := After(r, requests, n), requests[n];
    SuccessMeansAccepted(r, before, q);
    ActiveIsNewest(r, requests, n + 1);
    NewestIsAccepted(r, requests, n + 1);
    ShownRecordIsActive(r, Load(r, before, q).0, q, NewestRequest(r, requests, n + 1).value);
  }

  lemma {:induction false} TablesByName(r: Reader, files: Files, entries: seq<Entry>, i: nat)
    requires TablesAreDistinct(entries) && i < |entries|
    ensures entries[i].table in Tables(r, files, entries)
    ensures Tables(r, files, entries)[entries[i].table] == TableOf(r, files, entries[i])
  {
    if i < |entries| - 1 { TablesByName(r, files, entries[..|entries| - 1], i); }
  }

  lemma {:induction false} TablesKeys(r: Reader, files: Files, entries: seq<Entry>)
    ensures Tables(r, files, entries).Keys == TableNames(entries)
  {
    if entries != [] {
      var last := |entries| - 1;
      TablesKeys(r, files, entries[..last]);
      assert entries == entries[..last] + [entries[last]];
    }
  }

  lemma {:induction false} LoadedIsComplete(r: Reader, files: Files, name: string)
    requires IsComplete(r, files)
    requires var entries := ManifestOf(r, files).tables;
      TablesAreValid(r, files, entries) && |entries| == |r.required| && KeysAreUnique(r, files, entries)
    ensures var tables := Tables(r, files, ManifestOf(r, files).tables);
      tables.Keys == r.required.Keys && (name in r.required ==> KeyIsUnique(tables[name], r.required[name]))
  {
    var entries := ManifestOf(r, files).tables;
    InventoryIsComplete(r, files, entries);
    TablesKeys(r, files, entries);
    if name in r.required {
      var e :| e in entries && e.table == name;
      var i :| 0 <= i < |entries| && entries[i] == e;
      TablesByName(r, files, entries, i);
      assert EntryIsValid(r, files, entries[i]);
    }
  }

  /** Whatever is active is complete: every required table, each with its required key unique. */
  lemma {:induction false} ActiveIsComplete(r: Reader, requests: seq<Request>, n: nat, name: string)
    requires n <= |requests| && After(r, requests, n).active.Some?
    ensures After(r, requests, n).active.value.Keys == r.required.Keys
    ensures name in r.required ==> KeyIsUnique(After(r, requests, n).active.value[name], r.required[name])
  {
    ActiveIsNewest(r, requests, n);
    var k := LastLoaded(r, requests, n).value;
    LoadedIsComplete(r, requests[k].files, name);
  }

  // ---- older bundles ----

  /** After a load that reports success its record is newest exactly when it was new or already newest. */
  lemma {:induction false} NewestAfterSuccessExactly(r: Reader, s: Store, q: Request)
    requires IdsAreDistinct(s.ledger) && Load(r, s, q).1 in {Loaded, Replayed}
    ensures IsComplete(r, q.files) && Load(r, s, q).0.ledger != []
    ensures var after, record := Load(r, s, q).0, RecordOf(r, q.files);
      (after.ledger[|after.ledger| - 1] == record) <==> (record !in s.ledger || s.ledger[|s.ledger| - 1] == record)
  {
    SuccessMeansAccepted(r, s, q);
    var record := RecordOf(r, q.files);
    if record in s.ledger { LookupFinds(s.ledger, record); }
    if Load(r, s, q).1 == Replayed {
      var prior := Lookup(s.ledger, record.bundleId).value;
      assert prior == record;
    }
  }

  /** A first load of an acceptable bundle that is not interrupted. */
  ghost predicate Loadable(r: Reader, q: Request) {
    && Accepted(r, q.name, q.files)
    && q.cut >= Statements(ManifestOf(r, q.files))
    && KeysAreUnique(r, q.files, ManifestOf(r, q.files).tables)
  }

  /**
   For any two loadable bundles with different identifiers and different tables: load the first, load the
   second, replay the first. The replay reports success and leaves the second one active.
   */
  lemma {:induction false} OlderReplayStaysInactive(r: Reader, a: Request, b: Request)
    requires Loadable(r, a) && Loadable(r, b)
    requires ManifestOf(r, a.files).bundleId != ManifestOf(r, b.files).bundleId
    requires Tables(r, a.files, ManifestOf(r, a.files).tables) != Tables(r, b.files, ManifestOf(r, b.files).tables)
    ensures OutcomeOf(r, [a, b, a], 0) == Loaded && OutcomeOf(r, [a, b, a], 1) == Loaded
        && OutcomeOf(r, [a, b, a], 2) == Replayed
    ensures !IsActive(r, After(r, [a, b, a], 3), a.files) && IsActive(r, After(r, [a, b, a], 3), b.files)
  {
    var run := [a, b, a];
    var recordA, recordB := RecordOf(r, a.files), RecordOf(r, b.files);
    assert After(r, run, 1).ledger == [recordA];
    assert After(r, run, 2).ledger == [recordA, recordB];
    assert Lookup(After(r, run, 2).ledger, recordA.bundleId) == Some(recordA);
  }

  // ---- such a run exists ----

  function Digest(c: char): string {
    seq(64, i => c)
  }

  /** Three payloads and two manifests get digests; nothing else hashes to one, and nothing collides. */
  function SmallHash(b: Blob): string {
    if b == "m" then Digest('0')
    else if b == "mm" then Digest('1')
    else if b == "p" then Digest('2')
    else if b == "pp" then Digest('3')
    else "?" + b
  }

  const TABLE := "results"

  function SmallManifest(id: string, sha: string, rows: int): Manifest {
    Manifest(CONTRACT_VERSION, SCHEMA_VERSION, true, id, "complete",
             [Entry(TABLE, PayloadName(TABLE), sha, rows, "columns", ["match_id"])])
  }

  function SmallLines(manifest: string, payload: string): seq<Option<(string, string)>> {
    [Some((manifest, MANIFEST)), Some((payload, PayloadName(TABLE)))]
  }

  /** A consumer that requires one table. */
  function SmallReader(): Reader {
    Reader(
      SmallHash,
      (b: Blob) =>
        if b == "m" then Some(SmallManifest("first", Digest('2'), 0))
        else if b == "mm" then Some(SmallManifest("second", Digest('3'), 1))
        else None,
      (b: Blob) =>
        if b == "c" then SmallLines(Digest('0'), Digest('2')) else SmallLines(Digest('1'), Digest('3')),
      (b: Blob) =>
        if b == "p" then Some(Table(["match_id"], "columns", []))
        else if b == "pp" then Some(Table(["match_id"], "columns", [map["match_id" := "1"]]))
        else None,
      map[TABLE := ["match_id"]], None)
  }

  function SmallRequest(first: bool): Request {
    if first then
      Request("first", map[MANIFEST := "m", CHECKSUMS := "c", PayloadName(TABLE) := "p"], 6)
    else
      Request("second", map[MANIFEST := "mm", CHECKSUMS := "cc", PayloadName(TABLE) := "pp"], 6)
  }

  lemma {:induction false} SmallHashIsInjective()
    ensures IsInjective(SmallHash)
  {
    forall a, b | SmallHash(a) == SmallHash(b) ensures a == b {
      assert SmallHash(a)[0] == SmallHash(b)[0];
      assert Digest('0')[0] == '0' && Digest('1')[0] == '1' && Digest('2')[0] == '2' && Digest('3')[0] == '3';
      if SmallHash(a)[0] == '?' {
        assert SmallHash(a) == "?" + a && SmallHash(b) == "?" + b;
        assert ("?" + a)[1..] == a && ("?" + b)[1..] == b;
      }
    }
  }

  lemma {:induction false} SmallNamesDiffer()
    ensures MANIFEST != CHECKSUMS && PayloadName(TABLE) != MANIFEST && PayloadName(TABLE) != CHECKSUMS
  {
    assert PayloadName(TABLE)[0] == 'r' && MANIFEST[0] == 'm' && CHECKSUMS[0] == 'c';
  }

  lemma {:induction false} TableNameIsSafe()
    ensures IsSafeTable(TABLE)
  {
  }

  lemma {:induction false} SmallTableIsValid(r: Reader, files: Files, id: string, sha: char, table: Table)
    requires '0' <= sha <= '9' && PayloadName(TABLE) in files
    requires r.hash(files[PayloadName(TABLE)]) == Digest(sha) && r.parquet(files[PayloadName(TABLE)]) == Some(table)
    requires table.columns == ["match_id"] && table.fingerprint == "columns"
    requires r.required == map[TABLE := ["match_id"]] && r.schemas.None?
    ensures TablesAreValid(r, files, SmallManifest(id, Digest(sha), |table.rows|).tables)
  {
    TableNameIsSafe();
    assert table.columns[0] == "match_id";
  }

  lemma {:induction false} SmallTablesAreValid(first: bool)
    ensures var q, r := SmallRequest(first), SmallReader();
      IsComplete(r, q.files) && TablesAreValid(r, q.files, ManifestOf(r, q.files).tables)
  {
    SmallNamesDiffer();
    var q, r := SmallRequest(first), SmallReader();
    var payload := q.files[PayloadName(TABLE)];
    SmallTableIsValid(r, q.files, q.name, if first then '2' else '3', r.parquet(payload).value);
  }

  lemma {:induction false} SmallLineNames(manifest: string, payload: string)
    ensures LineNames(SmallLines(manifest, payload)) == {MANIFEST, PayloadName(TABLE)}
  {
    var lines := SmallLines(manifest, payload);
    assert lines[0] in lines && lines[1] in lines;
  }

  lemma {:induction false} SmallLinesMatch(r: Reader, files: Files, manifest: char, payload: char)
    requires '0' <= manifest <= '9' && '0' <= payload <= '9'
    requires MANIFEST in files && r.hash(files[MANIFEST]) == Digest(manifest)
    requires PayloadName(TABLE) in files && r.hash(files[PayloadName(TABLE)]) == Digest(payload)
    ensures ChecksumsMatch(r, files, SmallLines(Digest(manifest), Digest(payload)), {MANIFEST, PayloadName(TABLE)})
  {
    SmallNamesDiffer();
    SmallLineNames(Digest(manifest), Digest(payload));
  }

  lemma {:induction false} SmallChecksumsMatch(first: bool)
    ensures var q, r := SmallRequest(first), SmallReader();
      CHECKSUMS in q.files
      && ChecksumsMatch(r, q.files, r.lines(q.files[CHECKSUMS]), {MANIFEST, PayloadName(TABLE)})
  {
    SmallNamesDiffer();
    SmallLinesMatch(SmallReader(), SmallRequest(first).files, if first then '0' else '1', if first then '2' else '3');
  }

  lemma {:induction false} SmallHeaderIsValid(id: string, sha: string, rows: int)
    requires IsSafeId(id)
    ensures HeaderIsValid(SmallManifest(id, sha, rows), id)
    ensures {MANIFEST} + PayloadNames(SmallManifest(id, sha, rows).tables) == {MANIFEST, PayloadName(TABLE)}
  {
    var tables := SmallManifest(id, sha, rows).tables;
    assert tables[0] in tables;
    assert PayloadNames(tables) == {PayloadName(TABLE)};
  }

  lemma {:induction false} SmallManifests(first: bool)
    ensures var q, r := SmallRequest(first), SmallReader();
      IsComplete(r, q.files) && q.cut == Statements(ManifestOf(r, q.files))
          && |ManifestOf(r, q.files).tables| == |r.required|
      && HeaderIsValid(ManifestOf(r, q.files), q.name)
      && {MANIFEST} + PayloadNames(ManifestOf(r, q.files).tables) == {MANIFEST, PayloadName(TABLE)}
      && KeysAreUnique(r, q.files, ManifestOf(r, q.files).tables)
  {
    SmallNamesDiffer();
    SmallHeaderIsValid("first", Digest('2'), 0);
    SmallHeaderIsValid("second", Digest('3'), 1);
  }

  lemma {:induction false} SmallBundlesAreLoadable(first: bool)
    ensures Loadable(SmallReader(), SmallRequest(first))
  {
    SmallManifests(first);
    SmallTablesAreValid(first);
    SmallChecksumsMatch(first);
  }

  /** The run exists: under a collision-free hash a replay reports success and its bundle is not the active one. */
  lemma {:induction false} ReplayMayStayInactive()
    ensures IsInjective(SmallReader().hash)
    ensures var r, a, b := SmallReader(), SmallRequest(true), SmallRequest(false);
      OutcomeOf(r, [a, b, a], 2) == Replayed && IsComplete(r, a.files) && !IsActive(r, After(r, [a, b, a], 3), a.files)
  {
    var r, a, b := SmallReader(), SmallRequest(true), SmallRequest(false);
    SmallHashIsInjective();
    SmallBundlesAreLoadable(true);
    SmallBundlesAreLoadable(false);
    TablesByName(r, a.files, ManifestOf(r, a.files).tables, 0);
    TablesByName(r, b.files, ManifestOf(r, b.files).tables, 0);
    OlderReplayStaysInactive(r, a, b);
  }

  // ---- what the tests of a bundle mean ----

  /** Two rows have one key exactly if they agree on every column of it, a missing value agreeing with a missing one. */
  lemma {:induction false} KeysAgreeExactly(a: Row, b: Row, key: seq<string>)
    ensures KeyOf(a, key) == KeyOf(b, key) <==>
            forall k :: 0 <= k < |key| ==>
              (key[k] in a <==> key[k] in b) && (key[k] in a ==> a[key[k]] == b[key[k]])
  {
    if KeyOf(a, key) == KeyOf(b, key) {
      forall k | 0 <= k < |key|
        ensures (key[k] in a <==> key[k] in b) && (key[k] in a ==> a[key[k]] == b[key[k]])
      {
        assert KeyOf(a, key)[k] == KeyOf(b, key)[k];
      }
    }
  }

  /** Rows that differ in some column of a key, however long, never conflict; a key conflicts only with itself. */
  lemma {:induction false} TablesWithKeysExactly(table: Table, key: seq<string>)
    ensures KeyIsUnique(table, key) <==>
            forall i, j :: 0 <= i < |table.rows| && 0 <= j < |table.rows| && i != j ==>
              KeyOf(table.rows[i], key) != KeyOf(table.rows[j], key)
  {
  }

  /** Identifiers and table names are spelt in ASCII letters and digits and a few signs, by character code. */
  lemma {:induction false} CharactersExactly(c: char)
    ensures IsAlphanumeric(c) <==> 48 <= c as int <= 57 || 65 <= c as int <= 90 || 97 <= c as int <= 122
    ensures IsLower(c) <==> 97 <= c as int <= 122
    ensures IsDigit(c) <==> 48 <= c as int <= 57
    ensures c in ".-_" <==> c as int in {45, 46, 95}
  {
  }

  /** A digest is 64 digits of base 16, in lower case. */
  lemma {:induction false} DigestsExactly(s: string)
    ensures IsDigest(s) <==> |s| == 64 && forall i :: 0 <= i < |s| ==> s[i] in "0123456789abcdef"
  {
    forall c: char ensures c in "0123456789abcdef" <==> IsDigit(c) || 'a' <= c <= 'f' {
    }
  }

  /** A safe identifier starts with a letter or digit and has at most 128 characters. */
  lemma {:induction false} SafeIdsExactly(s: string)
    ensures IsSafeId(s) <==>
            s != "" && |s| < 129 && s[0] !in ".-_"
            && forall i :: 0 <= i < |s| ==> IsAlphanumeric(s[i]) || s[i] == '.' || s[i] == '-' || s[i] == '_'
  {
  }

  /** A safe table name starts with a small letter. */
  lemma {:induction false} SafeTablesExactly(s: string)
    ensures IsSafeTable(s) <==>
            s != "" && s[0] != '_' && !IsDigit(s[0])
            && forall i :: 0 <= i < |s| ==> IsLower(s[i]) || IsDigit(s[i]) || s[i] == '_'
  {
  }

  lemma {:induction false} ColumnsExactly(columns: seq<string>, key: seq<string>)
    ensures (forall i :: 0 <= i < |key| ==> key[i] in columns)
        <==> (forall column :: column in key ==> column in columns)
  {
    if forall i :: 0 <= i < |key| ==> key[i] in columns {
      forall column | column in key ensures column in columns {
        var i :| 0 <= i < |key| && key[i] == column;
      }
    }
  }

  /**
   An entry is valid exactly if its payload is there under its name, hashes and parses to what the entry
   says, and is expected.
   */
  lemma {:induction false} EntryValidExactly(r: Reader, files: Files, e: Entry)
    ensures EntryIsValid(r, files, e) <==>
      && IsSafeTable(e.table) && e.path == e.table + ".parquet" && e.path in files
      && IsDigest(e.sha) && e.sha == r.hash(files[e.path]) && r.parquet(files[e.path]) != None
      && (var table := TableOf(r, files, e);
          && e.rowCount == |table.rows| && e.fingerprint == table.fingerprint
          && (forall column :: column in e.primaryKey ==> column in table.columns)
          && e.primaryKey != [] && e.table in r.required.Keys && e.primaryKey == r.required[e.table]
          && (r.schemas == None || (e.table in r.schemas.value && table.fingerprint == r.schemas.value[e.table])))
  {
    ColumnsExactly(TableOf(r, files, e).columns, e.primaryKey);
  }

  lemma {:induction false} HeaderValidExactly(m: Manifest, name: string)
    ensures HeaderIsValid(m, name) <==>
            m == Manifest("oddsfox.reference.v1", "1.0.0", true, name, "complete", m.tables) && IsSafeId(name)
  {
  }

  /**
   A checksum file matches exactly if it names each expected file once, with the digest of what is there,
   and nothing else.
   */
  lemma {:induction false} ChecksumsMatchExactly(r: Reader, files: Files, lines: seq<Option<(string, string)>>,
                                                 expected: set<string>)
    ensures ChecksumsMatch(r, files, lines, expected) <==>
      && None !in lines
      && (forall i, j :: 0 <= i < j < |lines| && None !in lines ==> lines[i].value.1 != lines[j].value.1)
      && (forall name :: name in expected <==> exists line :: line in lines && line.Some? && line.value.1 == name)
      && (forall line :: line in lines && line.Some? ==>
            IsDigest(line.value.0) && line.value.1 in files && line.value.0 == r.hash(files[line.value.1]))
  {
    NoneIsMissing(lines);
    forall name
      ensures name in LineNames(lines) <==> exists line :: line in lines && line.Some? && line.value.1 == name
    {
    }
    if ChecksumsMatch(r, files, lines, expected) {
      forall line | line in lines && line.Some?
        ensures IsDigest(line.value.0) && line.value.1 in files && line.value.0 == r.hash(files[line.value.1])
      {
        var i :| 0 <= i < |lines| && lines[i] == line;
        assert LineMatches(r, files, lines[i]);
      }
    }
  }

  lemma {:induction false} NoneIsMissing<T>(s: seq<Option<T>>)
    ensures None !in s <==> forall i :: 0 <= i < |s| ==> s[i].Some?
  {
    if forall i :: 0 <= i < |s| ==> s[i].Some? {
      forall x | x in s ensures x.Some? {
        var i :| 0 <= i < |s| && s[i] == x;
      }
    }
    if None !in s {
      forall i | 0 <= i < |s| ensures s[i].Some? {
        assert s[i] in s;
      }
    }
  }

  /** Everything that acceptance asks of a bundle. */
  lemma {:induction false} AcceptedExactly(r: Reader, name: string, files: Files)
    ensures Accepted(r, name, files) <==>
      && "manifest.json" in files && "checksums.sha256" in files && r.parse(files["manifest.json"]).Some?
      && (var m := r.parse(files["manifest.json"]).value;
          && HeaderIsValid(m, name)
          && |m.tables| == |r.required|
          && (forall i, j :: 0 <= i < |m.tables| && 0 <= j < |m.tables| && i != j ==>
              m.tables[i].table != m.tables[j].table)
          && (forall e :: e in m.tables ==> EntryIsValid(r, files, e))
          && (r.schemas.Some? ==> forall t :: t in r.schemas.value <==> t in r.required)
          && ChecksumsMatch(r, files, r.lines(files["checksums.sha256"]),
                            {"manifest.json"} + set e | e in m.tables :: e.table + ".parquet"))
  {
    if IsComplete(r, files) {
      var m := ManifestOf(r, files);
      assert PayloadNames(m.tables) == set e | e in m.tables :: e.table + ".parquet";
      if forall i :: 0 <= i < |m.tables| ==> EntryIsValid(r, files, m.tables[i]) {
        forall e | e in m.tables ensures EntryIsValid(r, files, e) {
          var i :| 0 <= i < |m.tables| && m.tables[i] == e;
        }
      }
      if r.schemas.Some? {
        assert (forall t :: t in r.schemas.value <==> t in r.required) <==> r.schemas.value.Keys == r.required.Keys;
      }
    }
  }
}

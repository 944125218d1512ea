/**
 Publication of portrait bundles under content-addressed paths. A builder checks the path, writes four
 files into a directory of its own and renames that directory into place; it may raise or die between any
 two steps, and any number of builders interleave. With collision-free hashes a path is either absent or
 holds exactly the four files its identifier determines, for ever.
 */
module PortraitPublication {
  import opened Functions

  type Blob = string
  type Files = map<string, Blob>

  /** What goes into a bundle; `facts` stands for every manifest field but the file hashes. */
  datatype Input = Input(matchId: int, facts: Blob, book: Blob, trades: Blob, story: Blob)

  datatype Base = Base(matchId: int, facts: Blob, bookHash: string, tradesHash: string, storyHash: string)

  datatype Path = Path(matchId: int, bundleId: string)

  /** The file hash, the canonical form of a manifest without and with its identifier, the short hash. */
  datatype Codec = Codec(
    hash: Blob -> string, canonical: Base -> Blob, render: (Base, string) -> Blob, short: Blob -> string)

  datatype Error = DifferentBytes | RenameRefused | Interrupted

  /** Where a builder stands: writing its own directory, or finished one way or another. */
  datatype Builder = Writing(input: Input, written: nat) | Published(noop: bool) | Raised(error: Error)

  /** Published directories, and the private directories and standing of all builders so far. */
  datatype State = State(published: map<Path, Files>, temps: map<nat, Files>, builders: map<nat, Builder>)

  datatype Step =
    | Start(builder: nat, input: Input)
    | Write(builder: nat) | Rename(builder: nat) | Raise(builder: nat) | Crash(builder: nat)

  const NAMES: seq<string> := ["manifest.json", "book_states.ndjson.gz", "trades.ndjson.gz", "story.json"]

  function BaseOf(c: Codec, i: Input): Base {
    Base(i.matchId, i.facts, c.hash(i.book), c.hash(i.trades), c.hash(i.story))
  }

  function PathOf(c: Codec, i: Input): Path {
    Path(i.matchId, c.short(c.canonical(BaseOf(c, i))))
  }

  function Content(c: Codec, i: Input, k: nat): Blob
    requires k < |NAMES|
  {
    if k == 0 then c.render(BaseOf(c, i), PathOf(c, i).bundleId)
    else if k == 1 then i.book
    else if k == 2 then i.trades
    else i.story
  }

  /** The first n files, in the order in which they are written. */
  function Expected(c: Codec, i: Input, n: nat): Files
    requires n <= |NAMES|
  {
    if n == 0 then map[] else Expected(c, i, n - 1)[NAMES[n - 1] := Content(c, i, n - 1)]
  }

  /** Every expected file is there with its bytes. */
  predicate Matches(files: Files, expected: Files) {
    forall name :: name in expected ==> name in files && files[name] == expected[name]
  }

  function Next(c: Codec, s: State, step: Step): State {
    match step
    case Start(b, input) =>
      if b in s.builders then s
      else if PathOf(c, input) !in s.published then
        s.(temps := s.temps[b := map[]], builders := s.builders[b := Writing(input, 0)])
      else if Matches(s.published[PathOf(c, input)], Expected(c, input, |NAMES|)) then
        s.(builders := s.builders[b := Published(true)])
      else s.(builders := s.builders[b := Raised(DifferentBytes)])
    case Write(b) =>
      if b in s.builders && s.builders[b].Writing? && s.builders[b].written < |NAMES| && b in s.temps then
        var w := s.builders[b];
        s.(temps := s.temps[b := s.temps[b][NAMES[w.written] := Content(c, w.input, w.written)]],
           builders := s.builders[b := Writing(w.input, w.written + 1)])
      else s
    case Rename(b) =>
      if b in s.builders && s.builders[b].Writing? && s.builders[b].written == |NAMES| && b in s.temps then
        var path := PathOf(c, s.builders[b].input);
        if path in s.published && s.published[path] != map[] then
          s.(temps := s.temps - {b}, builders := s.builders[b := Raised(RenameRefused)])
        else
          State(s.published[path := s.temps[b]], s.temps - {b}, s.builders[b := Published(false)])
      else s
    case Raise(b) =>
      if b in s.builders && s.builders[b].Writing? then
        s.(temps := s.temps - {b}, builders := s.builders[b := Raised(Interrupted)])
      else s
    case Crash(b) =>
      if b in s.builders && s.builders[b].Writing? then s.(builders := s.builders[b := Raised(Interrupted)]) else s
  }

  function After(c: Codec, s: State, steps: seq<Step>, n: nat): State
    requires n <= |steps|
  {
    if n == 0 then s else Next(c, After(c, s, steps, n - 1), steps[n - 1])
  }

  const EMPTY := State(map[], map[], map[])

  /** One builder's steps, in order. */
  function Program(b: nat, input: Input): seq<Step> {
    [Start(b, input), Write(b), Write(b), Write(b), Write(b), Rename(b)]
  }

  class Store {
    var published: map<Path, Files>
    var temps: map<nat, Files>
    var builders: map<nat, Builder>

    function Contents(): State
      reads this
    {
      State(published, temps, builders)
    }

    constructor ()
      ensures Contents() == EMPTY
    {
      published, temps, builders := map[], map[], map[];
    }

    /** Check the path; if it is free, make a private directory. */
    method Begin(c: Codec, b: nat, input: Input)
      requires b !in builders
      modifies this
      ensures Contents() == Next(c, old(Contents()), Start(b, input))
      ensures b in builders && (builders[b].Writing? ==> builders[b] == Writing(input, 0) && b in temps)
    {
      var path := PathOf(c, input);
      if path in published {
        if Matches(published[path], Expected(c, input, |NAMES|)) {
          builders := builders[b := Published(true)];
        } else {
          builders := builders[b := Raised(DifferentBytes)];
        }
        return;
      }
      temps, builders := temps[b := map[]], builders[b := Writing(input, 0)];
    }

    method WriteFile(c: Codec, b: nat, input: Input, i: nat)
      requires i < |NAMES| && b in builders && builders[b] == Writing(input, i) && b in temps
      modifies this
      ensures Contents() == Next(c, old(Contents()), Write(b))
      ensures b in builders && builders[b] == Writing(input, i + 1) && b in temps
    {
      temps := temps[b := temps[b][NAMES[i] := Content(c, input, i)]];
      builders := builders[b := Writing(input, i + 1)];
    }

    /** A rename onto a directory that is not empty is refused, and the private directory removed. */
    method MoveIntoPlace(c: Codec, b: nat, input: Input)
      requires b in builders && builders[b] == Writing(input, |NAMES|) && b in temps
      modifies this
      ensures Contents() == Next(c, old(Contents()), Rename(b))
    {
      var path := PathOf(c, input);
      if path in published && published[path] != map[] {
        temps, builders := temps - {b}, builders[b := Raised(RenameRefused)];
        return;
      }
      published, temps := published[path := temps[b]], temps - {b};
      builders := builders[b := Published(false)];
    }

    /** A build that nobody else interleaves with and that dies after `cut` steps, if it gets that far. */
    method Publish(c: Codec, b: nat, input: Input, cut: nat)
      requires b !in builders && cut <= 6
      modifies this
      ensures Contents() == After(c, old(Contents()), Program(b, input), cut)
    {
      ghost var before, program := Contents(), Program(b, input);
      if cut == 0 { return; }
      Begin(c, b, input);
      assert Contents() == After(c, before, program, 1);
      if !builders[b].Writing? {
        FinishedStays(c, before, program, b, 1, cut);
        return;
      }
      var i := 0;
      while i < |NAMES|
        invariant 0 <= i <= |NAMES| && cut >= i + 1
        invariant b in builders && builders[b] == Writing(input, i) && b in temps
        invariant Contents() == After(c, before, program, i + 1)
      {
        if cut == i + 1 { return; }
        WriteFile(c, b, input, i);
        assert program[i + 1] == Write(b);
        i := i + 1;
      }
      if cut == 5 { return; }
      MoveIntoPlace(c, b, input);
    }
  }

  /** A finished builder's later steps do nothing. */
  lemma {:induction false} FinishedStays(c: Codec, s: State, steps: seq<Step>, b: nat, n: nat, m: nat)
    requires n <= m <= |steps|
    requires var t := After(c, s, steps, n); b in t.builders && !t.builders[b].Writing?
    requires forall i :: n <= i < m ==> steps[i].builder == b
    ensures After(c, s, steps, m) == After(c, s, steps, n)
    decreases m
  {
    if n < m {
      FinishedStays(c, s, steps, b, n, m - 1);
      FinishedStep(c, After(c, s, steps, m - 1), steps[m - 1]);
    }
  }

  lemma {:induction false} FinishedStep(c: Codec, s: State, step: Step)
    requires step.builder in s.builders && !s.builders[step.builder].Writing?
    ensures Next(c, s, step) == s
  {
  }

  // ---- identifiers determine contents ----

  ghost predicate CollisionFree(c: Codec) {
    IsInjective(c.hash) && IsInjective(c.canonical) && IsInjective(c.short)
  }

  /** Equal paths come from equal inputs. */
  lemma {:induction false} PathDeterminesInput(c: Codec, a: Input, b: Input)
    requires CollisionFree(c) && PathOf(c, a) == PathOf(c, b)
    ensures a == b
  {
    var x, y := BaseOf(c, a), BaseOf(c, b);
    assert c.canonical(x) == c.canonical(y);
    assert c.hash(a.book) == c.hash(b.book) && c.hash(a.trades) == c.hash(b.trades)
        && c.hash(a.story) == c.hash(b.story);
  }

  ghost predicate BuiltFrom(c: Codec, path: Path, files: Files, input: Input) {
    path == PathOf(c, input) && files == Expected(c, input, |NAMES|)
  }

  ghost predicate IsBundle(c: Codec, path: Path, files: Files) {
    exists input :: BuiltFrom(c, path, files, input)
  }

  ghost predicate OwnDirectory(c: Codec, s: State, b: nat)
    requires b in s.builders
  {
    s.builders[b].Writing? ==>
      s.builders[b].written <= |NAMES| && b in s.temps
      && s.temps[b] == Expected(c, s.builders[b].input, s.builders[b].written)
  }

  /** Every published directory is a whole bundle; every builder's own directory holds what it has written. */
  ghost predicate Sound(c: Codec, s: State) {
    && (forall path :: path in s.published ==> IsBundle(c, path, s.published[path]))
    && (forall b :: b in s.builders ==> OwnDirectory(c, s, b))
    && (forall b :: b in s.builders ==> s.builders[b] != Raised(DifferentBytes))
  }

  ghost predicate KeepsPublished(s: State, t: State) {
    forall path :: path in s.published ==> path in t.published && t.published[path] == s.published[path]
  }

  lemma {:induction false} ExpectedNames(c: Codec, input: Input, n: nat)
    requires n <= |NAMES|
    ensures forall k :: 0 <= k < n ==>
        NAMES[k] in Expected(c, input, n) && Expected(c, input, n)[NAMES[k]] == Content(c, input, k)
    ensures forall name :: name in Expected(c, input, n) ==> name in NAMES[..n]
  {
    if n > 0 { ExpectedNames(c, input, n - 1); }
  }

  lemma {:induction false} StartIsSound(c: Codec, s: State, b: nat, input: Input)
    requires CollisionFree(c) && Sound(c, s)
    ensures Sound(c, Next(c, s, Start(b, input)))
    ensures b !in s.builders && PathOf(c, input) in s.published ==>
      Next(c, s, Start(b, input)) == s.(builders := s.builders[b := Published(true)])
  {
    var t := Next(c, s, Start(b, input));
    if b !in s.builders {
      var path := PathOf(c, input);
      if path in s.published {
        assert IsBundle(c, path, s.published[path]);
        var other :| BuiltFrom(c, path, s.published[path], other);
        PathDeterminesInput(c, input, other);
      }
      forall k | k in t.builders ensures OwnDirectory(c, t, k) {
        if k != b { assert OwnDirectory(c, s, k); }
      }
    }
  }

  lemma {:induction false} RenameIsSound(c: Codec, s: State, b: nat)
    requires Sound(c, s)
    ensures Sound(c, Next(c, s, Rename(b)))
    ensures KeepsPublished(s, Next(c, s, Rename(b)))
  {
    var t := Next(c, s, Rename(b));
    if b in s.builders && s.builders[b].Writing? && s.builders[b].written == |NAMES| {
      var input := s.builders[b].input;
      var path := PathOf(c, input);
      assert OwnDirectory(c, s, b);
      assert BuiltFrom(c, path, s.temps[b], input);
      if path in s.published {
        assert IsBundle(c, path, s.published[path]);
        var other :| BuiltFrom(c, path, s.published[path], other);
        ExpectedNames(c, other, |NAMES|);
        assert NAMES[0] in s.published[path];
      }
      forall k | k in t.builders ensures OwnDirectory(c, t, k) {
        if k != b { assert OwnDirectory(c, s, k); }
      }
    }
  }

  lemma {:induction false} NextIsSound(c: Codec, s: State, step: Step)
    requires CollisionFree(c) && Sound(c, s)
    ensures Sound(c, Next(c, s, step))
    ensures KeepsPublished(s, Next(c, s, step))
  {
    match step
    case Start(b, input) => StartIsSound(c, s, b, input);
    case Rename(b) => RenameIsSound(c, s, b);
    case _ =>
  }

  // ---- runs ----

  /**
   Over every interleaving of builders, each raising or dying anywhere, published directories are whole
   bundles and no builder ever finds different bytes at its path.
   */
  lemma {:induction false} PublicationIsSound(c: Codec, steps: seq<Step>, n: nat)
    requires CollisionFree(c) && n <= |steps|
    ensures Sound(c, After(c, EMPTY, steps, n))
  {
    if n > 0 {
      PublicationIsSound(c, steps, n - 1);
      NextIsSound(c, After(c, EMPTY, steps, n - 1), steps[n - 1]);
    }
  }

  /** A path is absent or holds exactly the four files of the only input that has this path. */
  lemma {:induction false} AbsentOrComplete(c: Codec, steps: seq<Step>, n: nat, input: Input)
    requires CollisionFree(c) && n <= |steps|
    ensures var published := After(c, EMPTY, steps, n).published;
      PathOf(c, input) in published ==> published[PathOf(c, input)] == Expected(c, input, |NAMES|)
  {
    PublicationIsSound(c, steps, n);
    var published, path := After(c, EMPTY, steps, n).published, PathOf(c, input);
    if path in published {
      assert IsBundle(c, path, published[path]);
      var other :| BuiltFrom(c, path, published[path], other);
      PathDeterminesInput(c, input, other);
    }
  }

  /** What every step keeps, any number of steps keep. */
  lemma {:induction false} KeptThroughout(states: nat -> State, n: nat, m: nat)
    requires n <= m
    requires forall k :: n <= k < m ==> KeepsPublished(states(k), states(k + 1))
    ensures KeepsPublished(states(n), states(m))
    decreases m
  {
    if n < m {
      KeptThroughout(states, n, m - 1);
      assert KeepsPublished(states(m - 1), states(m - 1 + 1));
    }
  }

  /** A published directory is never rewritten or removed. */
  lemma {:induction false} PublishedForever(c: Codec, steps: seq<Step>, n: nat, m: nat)
    requires CollisionFree(c) && n <= m <= |steps|
    ensures KeepsPublished(After(c, EMPTY, steps, n), After(c, EMPTY, steps, m))
  {
    var states := (k: nat) => if k <= |steps| then After(c, EMPTY, steps, k) else EMPTY;
    forall k | n <= k < m ensures KeepsPublished(states(k), states(k + 1)) {
      StepKeepsPublished(c, steps, k);
    }
    KeptThroughout(states, n, m);
  }

  lemma {:induction false} StepKeepsPublished(c: Codec, steps: seq<Step>, n: nat)
    requires CollisionFree(c) && n < |steps|
    ensures KeepsPublished(After(c, EMPTY, steps, n), After(c, EMPTY, steps, n + 1))
  {
    PublicationIsSound(c, steps, n);
    NextIsSound(c, After(c, EMPTY, steps, n), steps[n]);
  }

  /** Once a bundle is published, every later build of equal inputs is a no-op that changes no file. */
  lemma {:induction false} RebuildIsNoop(c: Codec, steps: seq<Step>, n: nat, m: nat, b: nat, input: Input)
    requires CollisionFree(c) && n <= m <= |steps|
    requires PathOf(c, input) in After(c, EMPTY, steps, n).published
    requires b !in After(c, EMPTY, steps, m).builders
    ensures var s := After(c, EMPTY, steps, m);
      After(c, s, Program(b, input), 6) == s.(builders := s.builders[b := Published(true)])
  {
    PublishedForever(c, steps, n, m);
    PublicationIsSound(c, steps, m);
    var s := After(c, EMPTY, steps, m);
    StartIsSound(c, s, b, input);
    assert After(c, s, Program(b, input), 0) == s;
    assert After(c, s, Program(b, input), 1) == Next(c, s, Start(b, input));
    FinishedStays(c, s, Program(b, input), b, 1, 6);
  }

  /** A builder that published under this path itself, not finding it there. */
  ghost predicate PublishesAt(c: Codec, steps: seq<Step>, i: nat, path: Path)
    requires i < |steps|
  {
    path !in After(c, EMPTY, steps, i).published && path in After(c, EMPTY, steps, i + 1).published
  }

  /** Of any builders racing for one path, at most one rename takes effect. */
  lemma {:induction false} OneRenameWins(c: Codec, steps: seq<Step>, i: nat, j: nat, path: Path)
    requires CollisionFree(c) && i < |steps| && j < |steps|
    requires PublishesAt(c, steps, i, path) && PublishesAt(c, steps, j, path)
    ensures i == j
  {
    if i < j { PublishedForever(c, steps, i + 1, j); }
    if j < i { PublishedForever(c, steps, j + 1, i); }
  }

  /** A path appears only by a rename whose builder had written all four files. */
  lemma {:induction false} OnlyRenamePublishes(c: Codec, steps: seq<Step>, i: nat, path: Path)
    requires CollisionFree(c) && i < |steps| && PublishesAt(c, steps, i, path)
    ensures steps[i].Rename?
    ensures var s, b := After(c, EMPTY, steps, i), steps[i].builder;
      b in s.builders && s.builders[b].Writing? && path == PathOf(c, s.builders[b].input)
      && b in s.temps && s.temps[b] == Expected(c, s.builders[b].input, |NAMES|)
  {
    PublicationIsSound(c, steps, i);
    var s, b := After(c, EMPTY, steps, i), steps[i].builder;
    assert b in s.builders ==> OwnDirectory(c, s, b);
  }

  // ---- what a bundle holds ----

  /** A published path, by its name, holds the manifest and the input's own three payloads, each under its name. */
  lemma {:induction false} BundleHoldsItsInput(c: Codec, steps: seq<Step>, n: nat, input: Input)
    requires CollisionFree(c) && n <= |steps| && PathOf(c, input) in After(c, EMPTY, steps, n).published
    ensures var base := Base(input.matchId, input.facts, c.hash(input.book), c.hash(input.trades), c.hash(input.story));
      var id := c.short(c.canonical(base));
      PathOf(c, input) == Path(input.matchId, id)
      && After(c, EMPTY, steps, n).published[PathOf(c, input)]
         == map["manifest.json" := c.render(base, id), "book_states.ndjson.gz" := input.book,
                "trades.ndjson.gz" := input.trades, "story.json" := input.story]
  {
    AbsentOrComplete(c, steps, n, input);
    ExpectedFiles(c, input);
  }

  lemma {:induction false} ExpectedFiles(c: Codec, input: Input)
    ensures Expected(c, input, |NAMES|)
         == map["manifest.json" := c.render(BaseOf(c, input), PathOf(c, input).bundleId),
                "book_states.ndjson.gz" := input.book, "trades.ndjson.gz" := input.trades, "story.json" := input.story]
  {
    assert Expected(c, input, 1) == map["manifest.json" := Content(c, input, 0)];
    assert Expected(c, input, 2) == Expected(c, input, 1)["book_states.ndjson.gz" := input.book];
    assert Expected(c, input, 3) == Expected(c, input, 2)["trades.ndjson.gz" := input.trades];
  }

  // ---- what a finished build reports ----

  /** The i-th step is a builder's first, and finds its path published already. */
  ghost predicate FindsItPublished(c: Codec, steps: seq<Step>, i: nat, b: nat)
    requires i < |steps|
  {
    && steps[i].Start? && steps[i].builder == b && b !in After(c, EMPTY, steps, i).builders
    && PathOf(c, steps[i].input) in After(c, EMPTY, steps, i).published
  }

  ghost predicate FoundItPublished(c: Codec, steps: seq<Step>, n: nat, b: nat)
    requires n <= |steps|
  {
    exists i :: 0 <= i < n && FindsItPublished(c, steps, i, b)
  }

  /** What is known of a builder's report, if it has made one, and whether it found its path published. */
  ghost predicate ReportsRightly(s: State, b: nat, found: bool) {
    if b !in s.builders || s.builders[b].Writing? then !found
    else s.builders[b].Published? ==> (s.builders[b].noop <==> found)
  }

  lemma {:induction false} StepReportsRightly(c: Codec, s: State, step: Step, b: nat, found: bool)
    requires ReportsRightly(s, b, found)
    ensures ReportsRightly(Next(c, s, step), b,
                           found || (step.Start? && step.builder == b && b !in s.builders
                                     && PathOf(c, step.input) in s.published))
  {
  }

  lemma {:induction false} FoundOneMore(c: Codec, steps: seq<Step>, n: nat, b: nat)
    requires n < |steps|
    ensures FoundItPublished(c, steps, n + 1, b)
        <==> FoundItPublished(c, steps, n, b) || FindsItPublished(c, steps, n, b)
  {
  }

  /** A finished build reports a no-op exactly if it found its path published when it started. */
  lemma {:induction false} NoopsExactly(c: Codec, steps: seq<Step>, n: nat, b: nat)
    requires n <= |steps|
    ensures ReportsRightly(After(c, EMPTY, steps, n), b, FoundItPublished(c, steps, n, b))
  {
    if n > 0 {
      NoopsExactly(c, steps, n - 1, b);
      FoundOneMore(c, steps, n - 1, b);
      StepReportsRightly(c, After(c, EMPTY, steps, n - 1), steps[n - 1], b, FoundItPublished(c, steps, n - 1, b));
    }
  }
}

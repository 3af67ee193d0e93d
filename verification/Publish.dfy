/** Turning raw measurement reports into the published file: which cases and which
    figures it may hold, and when two reports may be merged. */
module Publish {
  import opened ByteStrings
  import opened Sequences
  import opened Sorting

  type Id = Bytes
  type Key = string

  /** The implementations a case can compare. */
  datatype Label = BashOs | External | BusyBox

  datatype Value = Text(text: string) | Num(num: real) | Nums(nums: seq<real>) | Count(count: int)

  /** One implementation's result: a JSON object. */
  type Fields = map<Key, Value>

  /** Everything that has to agree before rows may stand in one table. */
  datatype Environment = Environment(binary: Bytes, kernel: Bytes, architecture: Bytes, cpuModel: Bytes,
                                     cpus: seq<nat>, method_: Bytes, versions: map<Bytes, Bytes>)

  datatype RawCase = RawCase(id: Id, loadable: Id, fixture: Bytes, reference: Option<Label>, selfTimed: Option<bool>,
                             passes: Option<int>, validationPasses: Option<int>,
                             fields: Fields, results: map<Label, Fields>)

  datatype Raw = Raw(schema: int, date: Bytes, sourceCommit: Bytes, env: Environment, runs: nat,
                     fixtures: map<Bytes, Bytes>, cases: seq<RawCase>)

  datatype Row = Row(id: Id, loadable: Id, fixture: Bytes, reference: Option<Label>, selfTimed: bool,
                     passes: Option<int>, validationPasses: Option<int>, fields: Fields,
                     date: Bytes, runs: nat, confirmed: bool, results: map<Label, Fields>)

  datatype Published = Published(date: Bytes, sourceCommit: Bytes, env: Environment,
                                 fixtures: map<Bytes, Bytes>, omitted: set<Id>, rows: seq<Row>)

  datatype Args = Args(merge: bool, omit: set<Id>, reason: string)

  datatype Error = Incomplete | OmitWithoutReason | UnknownOmit | DuplicateIds | MissingTiming
                 | NothingToMerge | BinaryDiffers | EnvironmentDiffers | FixtureDiffers

  datatype Outcome<+T> = Ok(value: T) | Err(error: Error)

  // ---- Cleaning a result ------------------------------------------------------------------

  const OK := Text("ok")

  predicate IsOk(result: Fields) {
    "status" in result && result["status"] == OK
  }

  /** 'ms' in k */
  predicate HasMs(k: Key) {
    exists i | 0 <= i < |k| - 1 :: k[i] == 'm' && k[i+1] == 's'
  }

  const TIMINGS: set<Key> := {"median_ms", "min_ms", "max_ms"}

  /** Drops every timing from a result that did not pass validation; None is the KeyError
      of an `ok` result without its three timings. */
  function Clean(result: Fields): Option<Fields> {
    if IsOk(result) then
      (if TIMINGS <= result.Keys then
         Some(map["status" := OK, "median_ms" := result["median_ms"],
                  "min_ms" := result["min_ms"], "max_ms" := result["max_ms"]])
       else None)
    else
      var kept := map k | k in result && !HasMs(k) && k != "data" :: result[k];
      Some(if "status" in kept then kept else kept["status" := Text("error")])
  }

  ghost predicate CleanResult(r: Fields) {
    "status" in r && (IsOk(r) || forall k | k in r :: !HasMs(k))
  }

  lemma HasMsMeans(k: Key)
    ensures HasMs(k) <==> exists a, b :: k == a + "ms" + b
  {
    if HasMs(k) {
      var i :| 0 <= i < |k| - 1 && k[i] == 'm' && k[i+1] == 's';
      assert k == k[..i] + "ms" + k[i+2..];
    }
    forall a, b | k == a + "ms" + b
      ensures HasMs(k)
    {
      assert k[|a|] == 'm' && k[|a|+1] == 's';
    }
  }

  lemma TimingKeys()
    ensures HasMs("median_ms") && HasMs("min_ms") && HasMs("max_ms") && !HasMs("status")
    ensures |{"status", "median_ms", "min_ms", "max_ms", "runs_ms"}| == 5 && "status" != "data"
  {
    assert "median_ms"[7] == 'm' && "median_ms"[8] == 's';
    assert "min_ms"[4] == 'm' && "min_ms"[5] == 's';
    assert "max_ms"[4] == 'm' && "max_ms"[5] == 's';
    assert |"status"| == 6 && |"runs_ms"| == 7 && |"median_ms"| == 9 && |"data"| == 4;
    assert "status"[0] == 's' && "min_ms"[1] == 'i' && "max_ms"[1] == 'a';
  }

  /** An ok result keeps its status and three figures and nothing else; any other keeps every
      field but `data` and those naming a time, and has a status. What is kept is unchanged. */
  ghost predicate Cleaned(result: Fields, c: Fields) {
    && (if IsOk(result) then c.Keys == {"status", "median_ms", "min_ms", "max_ms"}
        else forall k :: k in c <==> k == "status" || (k in result && !HasMs(k) && k != "data"))
    && (forall k | k in c && k in result :: c[k] == result[k])
    && ("status" !in result && "status" in c ==> c["status"] == Text("error"))
  }

  /** Cleaning fails exactly for an ok result without its figures, and never turns a result
      into an ok one or leaves a time in one that is not. */
  lemma CleanIsClean(result: Fields)
    ensures Clean(result).None? <==> IsOk(result) && !({"median_ms", "min_ms", "max_ms"} <= result.Keys)
    ensures Clean(result).Some? ==>
      var c := Clean(result).value;
      Cleaned(result, c) && CleanResult(c) && (IsOk(c) <==> IsOk(result))
  {
    TimingKeys();
  }

  // ---- One case to one row ------------------------------------------------------------------

  ghost predicate Cleanable(results: map<Label, Fields>) {
    forall l | l in results :: Clean(results[l]).Some?
  }

  predicate AllClean(results: map<Label, Fields>)
    ensures AllClean(results) <==> Cleanable(results)
  {
    forall l | l in results.Keys :: Clean(results[l]).Some?
  }

  function CleanAll(results: map<Label, Fields>): map<Label, Fields>
    requires AllClean(results)
  {
    map l | l in results :: Clean(results[l]).value
  }

  predicate BuiltinOk(results: map<Label, Fields>) {
    BashOs in results && IsOk(results[BashOs])
  }

  function RowOf(performance: set<Id>, raw: Raw, c: RawCase): Row
    requires AllClean(c.results)
  {
    Row(c.id, c.loadable, c.fixture, c.reference,
        if c.selfTimed.Some? then c.selfTimed.value else c.reference == Some(BashOs),
        c.passes, c.validationPasses, c.fields, raw.date, raw.runs,
        c.id in performance && BuiltinOk(c.results), CleanAll(c.results))
  }

  /** The row shows this case of this report: what it measured as measured, the report's date
      and number of runs, and every result cleaned. It is confirmed when the builtin's result
      is ok and performance was claimed for the case; a case that does not say so is taken as
      self-timed when the builtin was its own reference. */
  ghost predicate ShowsCase(performance: set<Id>, raw: Raw, c: RawCase, row: Row) {
    && row.id == c.id && row.loadable == c.loadable && row.fixture == c.fixture && row.reference == c.reference
    && row.passes == c.passes && row.validationPasses == c.validationPasses && row.fields == c.fields
    && row.date == raw.date && row.runs == raw.runs
    && (row.confirmed <==> c.id in performance && BashOs in c.results && IsOk(c.results[BashOs]))
    && (row.selfTimed <==> c.selfTimed == Some(true) || (c.selfTimed.None? && c.reference == Some(BashOs)))
    && row.results.Keys == c.results.Keys && forall l | l in c.results :: Cleaned(c.results[l], row.results[l])
  }

  lemma RowShowsCase(performance: set<Id>, raw: Raw, c: RawCase)
    requires AllClean(c.results)
    ensures ShowsCase(performance, raw, c, RowOf(performance, raw, c))
  {
    forall l | l in c.results
      ensures Cleaned(c.results[l], Clean(c.results[l]).value)
    {
      CleanIsClean(c.results[l]);
    }
  }

  // ---- The rows of a report -------------------------------------------------------------------

  function Ids(cases: seq<RawCase>): set<Id> {
    set i | 0 <= i < |cases| :: cases[i].id
  }

  predicate UniqueIds(cases: seq<RawCase>) {
    forall i, j | 0 <= i < j < |cases| :: cases[i].id != cases[j].id
  }

  /** The rows of a report by id, omitted cases left out. */
  function Kept(performance: set<Id>, raw: Raw, omit: set<Id>, n: nat): map<Id, Row>
    requires n <= |raw.cases|
    requires forall i | 0 <= i < n && raw.cases[i].id !in omit :: AllClean(raw.cases[i].results)
  {
    if n == 0 then map[] else
    var c, before := raw.cases[n-1], Kept(performance, raw, omit, n - 1);
    if c.id in omit then before else before[c.id := RowOf(performance, raw, c)]
  }

  predicate KeptClean(raw: Raw, omit: set<Id>) {
    forall i | 0 <= i < |raw.cases| && raw.cases[i].id !in omit :: AllClean(raw.cases[i].results)
  }

  /** A row came from this case of this report. */
  ghost predicate Measured(performance: set<Id>, raw: Raw, row: Row) {
    exists i | 0 <= i < |raw.cases| :: AllClean(raw.cases[i].results) && row == RowOf(performance, raw, raw.cases[i])
  }

  lemma {:induction false} KeptMeasured(performance: set<Id>, raw: Raw, omit: set<Id>, n: nat)
    requires n <= |raw.cases| && KeptClean(raw, omit)
    ensures forall id | id in Kept(performance, raw, omit, n) ::
      && id !in omit && Kept(performance, raw, omit, n)[id].id == id
      && Measured(performance, raw, Kept(performance, raw, omit, n)[id])
  {
    if n > 0 {
      KeptMeasured(performance, raw, omit, n - 1);
      var c := raw.cases[n-1];
      if c.id !in omit {
        assert Measured(performance, raw, RowOf(performance, raw, c));
      }
    }
  }

  /** The rows of an earlier file by id, omitted ones left out. */
  function Carried(rows: seq<Row>, omit: set<Id>): map<Id, Row> {
    if rows == [] then map[] else
    var row, before := rows[|rows|-1], Carried(rows[..|rows|-1], omit);
    if row.id in omit then before else before[row.id := row]
  }

  lemma {:induction false} CarriedFrom(rows: seq<Row>, omit: set<Id>)
    ensures forall id | id in Carried(rows, omit) ::
      id !in omit && Carried(rows, omit)[id].id == id && Carried(rows, omit)[id] in rows
  {
    if rows != [] {
      CarriedFrom(rows[..|rows|-1], omit);
    }
  }

  // ---- The checks, in order ----------------------------------------------------------------------

  predicate SharedFixturesAgree(a: map<Bytes, Bytes>, b: map<Bytes, Bytes>) {
    forall name | name in a.Keys && name in b.Keys :: a[name] == b[name]
  }

  function PreviousIds(previous: Option<Published>): set<Id> {
    match previous
    case None => {}
    case Some(p) => set i | 0 <= i < |p.rows| :: p.rows[i].id
  }

  /** The first check that fails, None when the report may be published. */
  function Refusal(previous: Option<Published>, raw: Raw, args: Args): Option<Error> {
    if raw.schema != 1 || raw.cases == [] then Some(Incomplete)
    else if args.omit != {} && args.reason == "" then Some(OmitWithoutReason)
    else if !(args.omit <= Ids(raw.cases) + (if args.merge then PreviousIds(previous) else {})) then Some(UnknownOmit)
    else if !UniqueIds(raw.cases) then Some(DuplicateIds)
    else if !KeptClean(raw, args.omit) then Some(MissingTiming)
    else if !args.merge then None
    else if previous.None? then Some(NothingToMerge)
    else if previous.value.env.binary != raw.env.binary then Some(BinaryDiffers)
    else if previous.value.env != raw.env then Some(EnvironmentDiffers)
    else if !SharedFixturesAgree(previous.value.fixtures, raw.fixtures) then Some(FixtureDiffers)
    else None
  }

  /** An ok result has its three figures. */
  ghost predicate FiguresPresent(results: map<Label, Fields>) {
    forall l | l in results && IsOk(results[l]) :: {"median_ms", "min_ms", "max_ms"} <= results[l].Keys
  }

  lemma CleanableMeans(results: map<Label, Fields>)
    ensures AllClean(results) <==> FiguresPresent(results)
  {
    forall l | l in results
      ensures Clean(results[l]).Some? <==> (IsOk(results[l]) ==> {"median_ms", "min_ms", "max_ms"} <= results[l].Keys)
    {
      CleanIsClean(results[l]);
    }
  }

  /** A report is published exactly when it is complete, its ids are unique, every omission has
      a reason and names a case there is, every ok result has its figures, and, for a merge,
      there is a file of the same environment and the same shared fixtures. */
  lemma AcceptedWhen(previous: Option<Published>, raw: Raw, args: Args)
    ensures Refusal(previous, raw, args).None? <==>
      && raw.schema == 1 && raw.cases != [] && (args.omit == {} || args.reason != "")
      && (forall id | id in args.omit ::
            || (exists i :: 0 <= i < |raw.cases| && raw.cases[i].id == id)
            || (args.merge && previous.Some?
                && exists i :: 0 <= i < |previous.value.rows| && previous.value.rows[i].id == id))
      && (forall i, j | 0 <= i < j < |raw.cases| :: raw.cases[i].id != raw.cases[j].id)
      && (forall i | 0 <= i < |raw.cases| && raw.cases[i].id !in args.omit :: FiguresPresent(raw.cases[i].results))
      && (args.merge ==>
            && previous.Some? && previous.value.env == raw.env
            && forall f | f in previous.value.fixtures && f in raw.fixtures ::
                 previous.value.fixtures[f] == raw.fixtures[f])
  {
    forall i | 0 <= i < |raw.cases|
      ensures AllClean(raw.cases[i].results) <==> FiguresPresent(raw.cases[i].results)
    {
      CleanableMeans(raw.cases[i].results);
    }
  }

  function Rows(performance: set<Id>, previous: Option<Published>, raw: Raw, args: Args): map<Id, Row>
    requires Refusal(previous, raw, args).None?
  {
    (if args.merge then Carried(previous.value.rows, args.omit) else map[])
    + Kept(performance, raw, args.omit, |raw.cases|)
  }

  // ---- Sorted listings ------------------------------------------------------------------------------

  ghost predicate StrictlySorted(rows: seq<Row>) {
    forall i, j | 0 <= i < j < |rows| :: Less(rows[i].id, rows[j].id)
  }

  /** The rows of the dictionary in order of id, each once. */
  ghost predicate Lists(rows: seq<Row>, m: map<Id, Row>) {
    && StrictlySorted(rows)
    && (forall i | 0 <= i < |rows| :: rows[i].id in m && m[rows[i].id] == rows[i])
    && (forall id | id in m :: exists i | 0 <= i < |rows| :: rows[i].id == id)
  }

  function IdOrder(): (Id, Id) -> bool {
    (a: Id, b: Id) => Leq(a, b)
  }

  lemma IdOrderIsOrder()
    ensures TotalPreorder(IdOrder())
  {
    LeqIsTotalOrder();
  }

  lemma SortedKeysAreStrict(keys: seq<Id>, m: map<Id, Row>)
    requires Enumerates(keys, m)
    ensures var s := Sort(keys, IdOrder());
      (forall k :: k in s <==> k in m) && forall i, j | 0 <= i < j < |s| :: Less(s[i], s[j])
  {
    var s := Sort(keys, IdOrder());
    IdOrderIsOrder();
    SortSorts(keys, IdOrder());
    SortElements(keys, IdOrder());
    SortKeepsDistinct(keys, IdOrder());
    forall i, j | 0 <= i < j < |s|
      ensures Less(s[i], s[j])
    {
      assert IdOrder()(s[i], s[j]);
    }
  }

  /** [m[key] for key in sorted(m)] */
  method List(m: map<Id, Row>) returns (rows: seq<Row>)
    requires forall id | id in m :: m[id].id == id
    ensures Lists(rows, m)
  {
    var keys := Enumerate(m);
    SortedKeysAreStrict(keys, m);
    var s := Sort(keys, IdOrder());
    rows := [];
    var i := 0;
    while i < |s|
      invariant 0 <= i <= |s| && |rows| == i
      invariant forall j | 0 <= j < i :: s[j] in m && rows[j] == m[s[j]]
    {
      assert s[i] in s;
      rows := rows + [m[s[i]]];
      i := i + 1;
    }
    forall id | id in m
      ensures exists j | 0 <= j < |rows| :: rows[j].id == id
    {
      var j :| 0 <= j < |s| && s[j] == id;
      assert rows[j].id == id;
    }
  }

  // ---- Publishing one report ---------------------------------------------------------------------------

  /** The file a report that passes every check is turned into. */
  ghost predicate Publication(performance: set<Id>, previous: Option<Published>, raw: Raw, args: Args, p: Published)
    requires Refusal(previous, raw, args).None?
  {
    && p.env == raw.env && p.date == raw.date && p.omitted == args.omit
    && p.sourceCommit == (if args.merge then previous.value.sourceCommit else raw.sourceCommit)
    && p.fixtures == (if args.merge then previous.value.fixtures + raw.fixtures else raw.fixtures)
    && Lists(p.rows, Rows(performance, previous, raw, args))
  }

  /** The loop over the report's cases. */
  method KeepCases(performance: set<Id>, raw: Raw, omit: set<Id>) returns (kept: Option<map<Id, Row>>)
    ensures kept.Some? <==> KeptClean(raw, omit)
    ensures kept.Some? ==> kept.value == Kept(performance, raw, omit, |raw.cases|)
  {
    var rows: map<Id, Row>, i := map[], 0;
    while i < |raw.cases|
      invariant 0 <= i <= |raw.cases|
      invariant forall k | 0 <= k < i && raw.cases[k].id !in omit :: AllClean(raw.cases[k].results)
      invariant rows == Kept(performance, raw, omit, i)
    {
      var c := raw.cases[i];
      if c.id !in omit {
        if !AllClean(c.results) {
          return None;
        }
        rows := rows[c.id := RowOf(performance, raw, c)];
      }
      i := i + 1;
    }
    kept := Some(rows);
  }

  /** The loop over an earlier file's cases. */
  method CarryRows(rows: seq<Row>, omit: set<Id>) returns (m: map<Id, Row>)
    ensures m == Carried(rows, omit)
  {
    m := map[];
    var i := 0;
    while i < |rows|
      invariant 0 <= i <= |rows| && m == Carried(rows[..i], omit)
    {
      assert rows[..i+1][..i] == rows[..i];
      if rows[i].id !in omit {
        m := m[rows[i].id := rows[i]];
      }
      i := i + 1;
    }
    assert rows[..i] == rows;
  }

  lemma RowsById(performance: set<Id>, previous: Option<Published>, raw: Raw, args: Args)
    requires Refusal(previous, raw, args).None?
    ensures forall id | id in Rows(performance, previous, raw, args) ::
      id !in args.omit && Rows(performance, previous, raw, args)[id].id == id
  {
    KeptMeasured(performance, raw, args.omit, |raw.cases|);
    if args.merge {
      CarriedFrom(previous.value.rows, args.omit);
    }
  }

  lemma {:induction false} KeptHas(performance: set<Id>, raw: Raw, omit: set<Id>, n: nat, i: nat)
    requires i < n <= |raw.cases| && KeptClean(raw, omit) && UniqueIds(raw.cases) && raw.cases[i].id !in omit
    ensures var id, kept := raw.cases[i].id, Kept(performance, raw, omit, n);
      id in kept && kept[id] == RowOf(performance, raw, raw.cases[i])
  {
    if i < n - 1 {
      KeptHas(performance, raw, omit, n - 1, i);
      assert raw.cases[i].id != raw.cases[n-1].id;
    }
  }

  lemma {:induction false} CarriedHas(rows: seq<Row>, omit: set<Id>, i: nat)
    requires i < |rows| && rows[i].id !in omit
    requires forall j | 0 <= j < |rows| && j != i :: rows[j].id != rows[i].id
    ensures rows[i].id in Carried(rows, omit) && Carried(rows, omit)[rows[i].id] == rows[i]
  {
    if i < |rows| - 1 {
      CarriedHas(rows[..|rows|-1], omit, i);
      assert rows[|rows|-1].id != rows[i].id;
    }
  }

  lemma {:induction false} KeptOnly(performance: set<Id>, raw: Raw, omit: set<Id>, n: nat, id: Id)
    requires n <= |raw.cases| && KeptClean(raw, omit) && forall i | 0 <= i < n :: raw.cases[i].id != id
    ensures id !in Kept(performance, raw, omit, n)
  {
    if n > 0 {
      KeptOnly(performance, raw, omit, n - 1, id);
    }
  }

  /** Every case of the report that was not omitted is published, as measured. */
  lemma ReportIsPublished(performance: set<Id>, previous: Option<Published>, raw: Raw, args: Args, i: nat)
    requires Refusal(previous, raw, args).None? && i < |raw.cases| && raw.cases[i].id !in args.omit
    ensures var id, rows := raw.cases[i].id, Rows(performance, previous, raw, args);
      id in rows && ShowsCase(performance, raw, raw.cases[i], rows[id])
  {
    KeptHas(performance, raw, args.omit, |raw.cases|, i);
    RowShowsCase(performance, raw, raw.cases[i]);
  }

  /** A merge keeps every earlier row that was neither omitted nor measured again. */
  lemma MergeKeeps(performance: set<Id>, previous: Option<Published>, raw: Raw, args: Args, i: nat)
    requires Refusal(previous, raw, args).None? && args.merge && StrictlySorted(previous.value.rows)
    requires i < |previous.value.rows|
    requires var id := previous.value.rows[i].id; id !in args.omit && id !in Ids(raw.cases)
    ensures var row, rows := previous.value.rows[i], Rows(performance, previous, raw, args);
      row.id in rows && rows[row.id] == row
  {
    var rows := previous.value.rows;
    LessTrichotomy(rows[i].id, rows[i].id);
    CarriedHas(rows, args.omit, i);
    forall j | 0 <= j < |raw.cases|
      ensures raw.cases[j].id != rows[i].id
    {
      assert raw.cases[j].id in Ids(raw.cases);
    }
    KeptOnly(performance, raw, args.omit, |raw.cases|, rows[i].id);
  }

  /** publish.py's main, from a report and the file to merge onto. */
  method PublishReport(performance: set<Id>, previous: Option<Published>, raw: Raw, args: Args)
    returns (r: Outcome<Published>)
    ensures Refusal(previous, raw, args).Some? ==> r == Err(Refusal(previous, raw, args).value)
    ensures Refusal(previous, raw, args).None? ==> r.Ok? && Publication(performance, previous, raw, args, r.value)
  {
    if raw.schema != 1 || raw.cases == [] {
      return Err(Incomplete);
    }
    if args.omit != {} && args.reason == "" {
      return Err(OmitWithoutReason);
    }
    var known := Ids(raw.cases);
    if args.merge {
      known := known + PreviousIds(previous);
    }
    if !(args.omit <= known) {
      return Err(UnknownOmit);
    }
    if !UniqueIds(raw.cases) {
      return Err(DuplicateIds);
    }
    var kept := KeepCases(performance, raw, args.omit);
    if kept.None? {
      return Err(MissingTiming);
    }
    var rows, fixtures, commit := kept.value, raw.fixtures, raw.sourceCommit;
    if args.merge {
      if previous.None? {
        return Err(NothingToMerge);
      }
      var p := previous.value;
      if p.env.binary != raw.env.binary {
        return Err(BinaryDiffers);
      }
      if p.env != raw.env {
        return Err(EnvironmentDiffers);
      }
      if !SharedFixturesAgree(p.fixtures, raw.fixtures) {
        return Err(FixtureDiffers);
      }
      var merged := CarryRows(p.rows, args.omit);
      rows, fixtures, commit := merged + rows, p.fixtures + raw.fixtures, p.sourceCommit;
    }
    assert rows == Rows(performance, previous, raw, args);
    RowsById(performance, previous, raw, args);
    var listed := List(rows);
    r := Ok(Published(raw.date, commit, raw.env, fixtures, args.omit, listed));
  }

  // ---- Every sequence of publications ----------------------------------------------------------------------

  /** The row was measured in this environment, on the fixture the file records for it. */
  ghost predicate Justified(performance: set<Id>, raw: Raw, p: Published, row: Row) {
    && Measured(performance, raw, row) && raw.env == p.env
    && (row.fixture in raw.fixtures ==>
          row.fixture in p.fixtures && p.fixtures[row.fixture] == raw.fixtures[row.fixture])
  }

  ghost predicate RowSound(performance: set<Id>, history: seq<Raw>, p: Published, row: Row) {
    exists h | 0 <= h < |history| :: Justified(performance, history[h], p, row)
  }

  ghost predicate CleanRow(row: Row) {
    forall l | l in row.results :: CleanResult(row.results[l])
  }

  /** Ids sorted and unique, none that was omitted; every row measured, in the file's own
      environment and on its own fixtures, by one of the reports so far; no timing in a
      result that is not ok. */
  ghost predicate Sound(performance: set<Id>, history: seq<Raw>, p: Published) {
    && StrictlySorted(p.rows) && (forall i | 0 <= i < |p.rows| :: p.rows[i].id !in p.omitted)
    && forall i | 0 <= i < |p.rows| :: RowSound(performance, history, p, p.rows[i]) && CleanRow(p.rows[i])
  }

  lemma MeasuredIsClean(performance: set<Id>, raw: Raw, row: Row)
    requires Measured(performance, raw, row)
    ensures CleanRow(row)
  {
    var i :| 0 <= i < |raw.cases| && AllClean(raw.cases[i].results) && row == RowOf(performance, raw, raw.cases[i]);
    forall l | l in row.results
      ensures CleanResult(row.results[l])
    {
      CleanIsClean(raw.cases[i].results[l]);
    }
  }

  lemma SoundGrows(performance: set<Id>, history: seq<Raw>, raw: Raw, p: Published)
    requires Sound(performance, history, p)
    ensures Sound(performance, history + [raw], p)
  {
    var longer := history + [raw];
    forall i | 0 <= i < |p.rows|
      ensures RowSound(performance, longer, p, p.rows[i])
    {
      var h :| 0 <= h < |history| && Justified(performance, history[h], p, p.rows[i]);
      assert longer[h] == history[h];
    }
  }

  lemma CarriedStaysJustified(performance: set<Id>, h: Raw, previous: Published, raw: Raw, p: Published, row: Row)
    requires Justified(performance, h, previous, row)
    requires previous.env == raw.env == p.env && SharedFixturesAgree(previous.fixtures, raw.fixtures)
    requires p.fixtures == previous.fixtures + raw.fixtures
    ensures Justified(performance, h, p, row)
  {}

  /** Publishing keeps files sound. */
  lemma PublicationIsSound(performance: set<Id>, history: seq<Raw>, previous: Option<Published>, raw: Raw, args: Args,
                           p: Published)
    requires previous.Some? ==> Sound(performance, history, previous.value)
    requires Refusal(previous, raw, args).None? && Publication(performance, previous, raw, args, p)
    ensures Sound(performance, history + [raw], p)
  {
    RowsById(performance, previous, raw, args);
    forall i | 0 <= i < |p.rows|
      ensures RowSound(performance, history + [raw], p, p.rows[i]) && CleanRow(p.rows[i])
    {
      PublishedRowIsSound(performance, history, previous, raw, args, p, p.rows[i]);
    }
  }

  lemma PublishedRowIsSound(performance: set<Id>, history: seq<Raw>, previous: Option<Published>, raw: Raw, args: Args,
                            p: Published, row: Row)
    requires previous.Some? ==> Sound(performance, history, previous.value)
    requires Refusal(previous, raw, args).None? && Publication(performance, previous, raw, args, p)
    requires row.id in Rows(performance, previous, raw, args) && Rows(performance, previous, raw, args)[row.id] == row
    ensures RowSound(performance, history + [raw], p, row) && CleanRow(row)
  {
    RowOrigin(performance, previous, raw, args, row.id);
    if Measured(performance, raw, row) {
      KeptRowIsSound(performance, history, raw, p, row);
    } else {
      CarriedRowIsSound(performance, history, previous.value, raw, p, row);
    }
  }

  /** A published row is one of the report's, or one the merged file already had. */
  lemma RowOrigin(performance: set<Id>, previous: Option<Published>, raw: Raw, args: Args, id: Id)
    requires Refusal(previous, raw, args).None? && id in Rows(performance, previous, raw, args)
    ensures var row := Rows(performance, previous, raw, args)[id];
      Measured(performance, raw, row) || (args.merge && row in previous.value.rows)
  {
    KeptMeasured(performance, raw, args.omit, |raw.cases|);
    if args.merge {
      CarriedFrom(previous.value.rows, args.omit);
    }
  }

  lemma KeptRowIsSound(performance: set<Id>, history: seq<Raw>, raw: Raw, p: Published, row: Row)
    requires Measured(performance, raw, row) && raw.env == p.env
    requires forall f | f in raw.fixtures :: f in p.fixtures && p.fixtures[f] == raw.fixtures[f]
    ensures RowSound(performance, history + [raw], p, row) && CleanRow(row)
  {
    MeasuredIsClean(performance, raw, row);
    assert Justified(performance, (history + [raw])[|history|], p, row);
  }

  lemma CarriedRowIsSound(performance: set<Id>, history: seq<Raw>, previous: Published, raw: Raw, p: Published,
                          row: Row)
    requires Sound(performance, history, previous) && row in previous.rows
    requires previous.env == raw.env == p.env && SharedFixturesAgree(previous.fixtures, raw.fixtures)
    requires p.fixtures == previous.fixtures + raw.fixtures
    ensures RowSound(performance, history + [raw], p, row) && CleanRow(row)
  {
    var i :| 0 <= i < |previous.rows| && previous.rows[i] == row;
    assert RowSound(performance, history, previous, previous.rows[i]);
    var h :| 0 <= h < |history| && Justified(performance, history[h], previous, row);
    CarriedStaysJustified(performance, history[h], previous, raw, p, row);
    assert (history + [raw])[h] == history[h];
  }

  /** One invocation: the report, its options, the file read and the file written. */
  datatype Step = Step(raw: Raw, args: Args, base: string, output: string)

  function Raws(steps: seq<Step>): (r: seq<Raw>)
    ensures |r| == |steps|
  {
    seq(|steps|, i requires 0 <= i < |steps| => steps[i].raw)
  }

  type Files = map<string, Published>

  ghost predicate AllSound(performance: set<Id>, history: seq<Raw>, files: Files) {
    forall f | f in files :: Sound(performance, history, files[f])
  }

  function BaseOf(files: Files, s: Step): Option<Published> {
    if s.base in files then Some(files[s.base]) else None
  }

  /** A refused report changes nothing; any other changes the one file it is written to. */
  ghost predicate Advances(performance: set<Id>, s: Step, before: Files, after: Files) {
    if Refusal(BaseOf(before, s), s.raw, s.args).Some? then after == before
    else
      && s.output in after && after == before[s.output := after[s.output]]
      && Publication(performance, BaseOf(before, s), s.raw, s.args, after[s.output])
  }

  /** The files before the first step, none, and after each step. */
  ghost predicate IsRun(performance: set<Id>, steps: seq<Step>, trace: seq<Files>) {
    && |trace| == |steps| + 1 && trace[0] == map[]
    && forall i | 0 <= i < |steps| :: Advances(performance, steps[i], trace[i], trace[i+1])
  }

  lemma AdvanceIsSound(performance: set<Id>, history: seq<Raw>, s: Step, before: Files, after: Files)
    requires AllSound(performance, history, before) && Advances(performance, s, before, after)
    ensures AllSound(performance, history + [s.raw], after)
  {
    AllSoundGrows(performance, history, s.raw, before);
    if Refusal(BaseOf(before, s), s.raw, s.args).None? {
      PublicationIsSound(performance, history, BaseOf(before, s), s.raw, s.args, after[s.output]);
    }
  }

  /** In every run, every file is sound after every step. */
  lemma {:induction false} RunIsSound(performance: set<Id>, steps: seq<Step>, trace: seq<Files>, i: nat)
    requires IsRun(performance, steps, trace) && i <= |steps|
    ensures AllSound(performance, Raws(steps[..i]), trace[i])
  {
    if i > 0 {
      RunIsSound(performance, steps, trace, i - 1);
      assert Raws(steps[..i]) == Raws(steps[..i-1]) + [steps[i-1].raw];
      AdvanceIsSound(performance, Raws(steps[..i-1]), steps[i-1], trace[i-1], trace[i]);
    }
  }

  /** Any sequence of invocations, starting from no files at all, onto any files. */
  method PublishAll(performance: set<Id>, steps: seq<Step>) returns (files: Files, ghost trace: seq<Files>)
    ensures IsRun(performance, steps, trace) && trace[|steps|] == files
    ensures AllSound(performance, Raws(steps), files)
  {
    files := map[];
    trace := [files];
    var i := 0;
    while i < |steps|
      invariant 0 <= i <= |steps| && IsRun(performance, steps[..i], trace) && trace[i] == files
    {
      var s := steps[i];
      var r := PublishReport(performance, BaseOf(files, s), s.raw, s.args);
      if r.Ok? {
        files := files[s.output := r.value];
      }
      RunSnoc(performance, steps, i, trace, files);
      trace := trace + [files];
      i := i + 1;
    }
    assert steps[..i] == steps;
    RunIsSound(performance, steps, trace, |steps|);
  }

  lemma RunSnoc(performance: set<Id>, steps: seq<Step>, i: nat, trace: seq<Files>, after: Files)
    requires i < |steps| && IsRun(performance, steps[..i], trace)
    requires Advances(performance, steps[i], trace[i], after)
    ensures IsRun(performance, steps[..i+1], trace + [after])
  {
    forall j | 0 <= j < i + 1
      ensures Advances(performance, steps[..i+1][j], (trace + [after])[j], (trace + [after])[j+1])
    {
      if j < i {
        assert Advances(performance, steps[..i][j], trace[j], trace[j+1]);
      }
    }
  }

  lemma AllSoundGrows(performance: set<Id>, history: seq<Raw>, raw: Raw, files: Files)
    requires AllSound(performance, history, files)
    ensures AllSound(performance, history + [raw], files)
  {
    forall f | f in files
      ensures Sound(performance, history + [raw], files[f])
    {
      SoundGrows(performance, history, raw, files[f]);
    }
  }
}

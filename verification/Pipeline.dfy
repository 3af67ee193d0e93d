/** From measurement to publication: what the catalog asserts about published results
    follows from how they were measured. */
module Pipeline {
  import opened ByteStrings
  import opened Publish
  import opened Statistics
  import opened Validate

  predicate IsNum(r: Fields, k: Key) {
    k in r && r[k].Num?
  }

  /** The catalog's assertion on one published result. */
  predicate CatalogAccepts(r: Fields) {
    if IsOk(r) then
      && IsNum(r, "min_ms") && IsNum(r, "median_ms") && IsNum(r, "max_ms")
      && 0.0 < r["min_ms"].num <= r["median_ms"].num <= r["max_ms"].num
    else "median_ms" !in r
  }

  /** A cleaned ok result satisfies the catalog exactly when its fastest run does not round
      to zero; order of minimum, median and maximum never fails. */
  lemma TimingsAccepted(t: seq<real>)
    requires t != []
    ensures Clean(Timings(t)).Some?
    ensures CatalogAccepts(Clean(Timings(t)).value) <==> Round3(Min(t)) > 0.0
  {
    TimingsFields(t);
    MedianBetween(t);
    CleanedFields(Timings(t));
  }

  lemma CleanedFields(r: Fields)
    requires IsOk(r) && TIMINGS <= r.Keys
    ensures Clean(r).Some? && IsOk(Clean(r).value)
    ensures forall k | k in TIMINGS :: k in Clean(r).value && Clean(r).value[k] == r[k]
  {
    TimingKeys();
  }

  /** A cleaned result that is not ok satisfies the catalog: it has no timing at all. */
  lemma FailureAccepted(r: Fields)
    requires !IsOk(r)
    ensures Clean(r).Some? && CatalogAccepts(Clean(r).value)
  {
    CleanIsClean(r);
    TimingKeys();
  }

  ghost predicate TimesVisible(p: Plan) {
    forall r: nat, l: Label | r < p.runs && p.timed(r, l).Ran? :: Round3(p.timed(r, l).ms) > 0.0
  }

  lemma {:induction false} TimesPositive(p: Plan, l: Label, n: nat)
    requires TimesVisible(p) && n <= p.runs
    ensures forall i | 0 <= i < |Times(p.timed, l, n)| :: Round3(Times(p.timed, l, n)[i]) > 0.0
  {
    if n > 0 {
      TimesPositive(p, l, n - 1);
    }
  }

  /** Past calibration every row a case ends with, once cleaned, meets all of the catalog's
      assertions, provided no timing rounds to zero. */
  lemma MeasuredRowAccepted(p: Plan, norm: Normal, row: CaseRow, l: Label)
    requires WellFormed(p) && CaseOutcome(p, norm, row) && row.passes.Some? && TimesVisible(p)
    ensures row.passes.value > 0 && row.validationPasses.Some? && row.validationPasses.value >= 3
    ensures l in row.results && Clean(row.results[l]).Some? && CatalogAccepts(Clean(row.results[l]).value)
  {
    assert l in LABELS;
    if IsOk(row.results[l]) {
      var t := Times(p.timed, l, p.runs);
      assert Concluded(p, l, row.results[l]);
      TimesPositive(p, l, p.runs);
      TimingsAccepted(t);
    } else {
      FailureAccepted(row.results[l]);
    }
  }

  // ---- Reports and the launches behind them ---------------------------------------------------

  /** The launches of one case, the normalizer it declares, and the row it ended with. */
  datatype CaseRun = CaseRun(plan: Plan, norm: Normal, row: CaseRow)

  /** The case of the report is what these launches came to. */
  ghost predicate Recorded(c: RawCase, r: CaseRun) {
    && WellFormed(r.plan) && CaseOutcome(r.plan, r.norm, r.row)
    && c.results == r.row.results && c.passes == r.row.passes && c.validationPasses == r.row.validationPasses
  }

  /** A report the harness wrote, one case after the other. */
  ghost predicate Harness(raw: Raw, runs: seq<CaseRun>) {
    && |runs| == |raw.cases|
    && forall i | 0 <= i < |runs| :: Recorded(raw.cases[i], runs[i]) && runs[i].plan.runs == raw.runs
  }

  /** In these launches, and under this normalizer, the implementation's first output and
      whole batch matched the output of the implementation chosen as reference, and all of its
      timed runs succeeded. */
  ghost predicate Validated(r: CaseRun, l: Label) {
    && WellFormed(r.plan) && r.row.passes.Some? && r.plan.probe.Ran?
    && exists reference :: Chosen(r.plan, reference) && Proven(r.plan, r.norm, reference, r.row.passes.value, l)
  }

  /** The figures, and nothing else, are those of the implementation's own timed launches. */
  ghost predicate FiguresOf(r: CaseRun, l: Label, result: Fields) {
    var t := Times(r.plan.timed, l, r.plan.runs);
    && |t| == r.plan.runs > 0
    && (forall k | 0 <= k < r.plan.runs :: r.plan.timed(k, l).Ran? && t[k] == r.plan.timed(k, l).ms)
    && result.Keys == {"status", "median_ms", "min_ms", "max_ms"} && IsOk(result)
    && result["median_ms"] == Num(Round3(Median(t)))
    && result["min_ms"] == Num(Round3(Min(t))) && result["max_ms"] == Num(Round3(Max(t)))
  }

  lemma OkWasValidated(c: RawCase, r: CaseRun, l: Label)
    requires Recorded(c, r) && l in c.results && IsOk(c.results[l]) && Clean(c.results[l]).Some?
    ensures Validated(r, l) && FiguresOf(r, l, Clean(c.results[l]).value)
  {
    var reference := OkHasReference(r.plan, r.norm, r.row, l);
    OkFigures(r.plan, r.norm, r.row, l);
    CleanIsClean(c.results[l]);
  }

  /** The row is that of a case of this report, in whose launches the implementation was
      validated, and shows the figures of those launches. */
  ghost predicate BackedBy(performance: set<Id>, raw: Raw, runs: seq<CaseRun>, row: Row, l: Label) {
    l in row.results && |runs| == |raw.cases| && exists j | 0 <= j < |runs| ::
      && ShowsCase(performance, raw, raw.cases[j], row)
      && Validated(runs[j], l) && FiguresOf(runs[j], l, row.results[l])
  }

  lemma MeasuredTimingBacked(performance: set<Id>, raw: Raw, runs: seq<CaseRun>, row: Row, l: Label, k: Key)
    requires Harness(raw, runs) && Measured(performance, raw, row)
    requires l in row.results && k in row.results[l] && HasMs(k)
    ensures BackedBy(performance, raw, runs, row, l)
  {
    var j :| 0 <= j < |raw.cases| && AllClean(raw.cases[j].results) && row == RowOf(performance, raw, raw.cases[j]);
    CaseTimingBacked(performance, raw, runs, j, l, k);
  }

  lemma CaseTimingBacked(performance: set<Id>, raw: Raw, runs: seq<CaseRun>, j: nat, l: Label, k: Key)
    requires Harness(raw, runs) && j < |raw.cases| && AllClean(raw.cases[j].results)
    requires var row := RowOf(performance, raw, raw.cases[j]);
      l in row.results && k in row.results[l] && HasMs(k)
    ensures BackedBy(performance, raw, runs, RowOf(performance, raw, raw.cases[j]), l)
  {
    CleanIsClean(raw.cases[j].results[l]);
    OkWasValidated(raw.cases[j], runs[j], l);
    RowShowsCase(performance, raw, raw.cases[j]);
  }

  /** The reports of a run of publications, each with the launches behind it. */
  ghost predicate HarnessRun(performance: set<Id>, steps: seq<Step>, runs: seq<seq<CaseRun>>, trace: seq<Files>) {
    && IsRun(performance, steps, trace) && |runs| == |steps|
    && forall h | 0 <= h < |steps| :: Harness(steps[h].raw, runs[h])
  }

  /** Which step's report a published row comes from. */
  lemma RowStep(performance: set<Id>, steps: seq<Step>, trace: seq<Files>, i: nat, f: string, row: Row)
    returns (h: nat)
    requires IsRun(performance, steps, trace) && i <= |steps| && f in trace[i] && row in trace[i][f].rows
    ensures h < i && Justified(performance, steps[h].raw, trace[i][f], row)
  {
    RunIsSound(performance, steps, trace, i);
    var history := Raws(steps[..i]);
    assert Sound(performance, history, trace[i][f]);
    assert RowSound(performance, history, trace[i][f], row);
    h :| 0 <= h < |history| && Justified(performance, history[h], trace[i][f], row);
    assert history[h] == steps[h].raw;
  }

  /** In every run of publications of harness reports, after every step and in every file:
      a result with any timing key is backed by a report of the file's own environment, in
      whose launches that implementation was validated. */
  lemma NoTimingWithoutValidation(performance: set<Id>, steps: seq<Step>, runs: seq<seq<CaseRun>>, trace: seq<Files>,
                                  i: nat, f: string, row: Row, l: Label, k: Key) returns (h: nat)
    requires HarnessRun(performance, steps, runs, trace) && i <= |steps|
    requires f in trace[i] && row in trace[i][f].rows && l in row.results && k in row.results[l] && HasMs(k)
    ensures h < i && steps[h].raw.env == trace[i][f].env
    ensures BackedBy(performance, steps[h].raw, runs[h], row, l)
  {
    h := RowStep(performance, steps, trace, i, f, row);
    MeasuredTimingBacked(performance, steps[h].raw, runs[h], row, l, k);
  }

  // ---- The catalog's loop over a file ----------------------------------------------------------

  predicate CatalogAcceptsRow(catalog: set<Id>, fixtures: map<Bytes, Bytes>, row: Row) {
    && row.loadable in catalog && row.fixture in fixtures
    && row.passes.Some? && row.passes.value > 0
    && row.validationPasses.Some? && row.validationPasses.value >= 3
    && forall l | l in row.results.Keys :: CatalogAccepts(row.results[l])
  }

  /** Every assertion of the loop holds for every case of the file. */
  predicate CatalogAcceptsFile(catalog: set<Id>, p: Published) {
    && (forall i, j | 0 <= i < j < |p.rows| :: p.rows[i].id != p.rows[j].id)
    && forall i | 0 <= i < |p.rows| :: CatalogAcceptsRow(catalog, p.fixtures, p.rows[i])
  }

  /** No timing of the row was rounded to zero. */
  predicate NoZeroTiming(row: Row) {
    forall l | l in row.results.Keys && IsNum(row.results[l], "min_ms") :: row.results[l]["min_ms"].num > 0.0
  }

  /** What a row can still fail on: a catalog without its builtin, a file without its
      fixture, a case that ended before its passes were calibrated, a timing of zero. */
  predicate Presentable(catalog: set<Id>, fixtures: map<Bytes, Bytes>, row: Row) {
    row.loadable in catalog && row.fixture in fixtures && row.passes.Some? && NoZeroTiming(row)
  }

  lemma OkResultAccepted(result: Fields, t: seq<real>)
    requires t != [] && Clean(Timings(t)) == Some(result)
    ensures IsOk(result) && IsNum(result, "min_ms")
    ensures CatalogAccepts(result) <==> result["min_ms"].num > 0.0
  {
    TimingsFields(t);
    CleanedFields(Timings(t));
    TimingsAccepted(t);
  }

  lemma RowResultAccepted(performance: set<Id>, raw: Raw, c: RawCase, r: CaseRun, l: Label)
    requires Recorded(c, r) && AllClean(c.results) && l in c.results
    ensures var result := RowOf(performance, raw, c).results[l];
      CatalogAccepts(result) <==> (IsNum(result, "min_ms") ==> result["min_ms"].num > 0.0)
  {
    var result := Clean(c.results[l]).value;
    if IsOk(c.results[l]) {
      OkWasTimed(r.plan, r.norm, r.row, l);
      OkResultAccepted(result, Times(r.plan.timed, l, r.plan.runs));
    } else {
      FailureAccepted(c.results[l]);
      CleanIsClean(c.results[l]);
      TimingKeys();
      assert "min_ms" !in result;
    }
  }

  lemma RecordedRowAccepted(catalog: set<Id>, fixtures: map<Bytes, Bytes>, performance: set<Id>, raw: Raw,
                            c: RawCase, r: CaseRun)
    requires Recorded(c, r) && AllClean(c.results)
    ensures var row := RowOf(performance, raw, c);
      CatalogAcceptsRow(catalog, fixtures, row) <==> Presentable(catalog, fixtures, row)
  {
    var row := RowOf(performance, raw, c);
    forall l | l in row.results
      ensures var result := row.results[l];
        CatalogAccepts(result) <==> (IsNum(result, "min_ms") ==> result["min_ms"].num > 0.0)
    {
      RowResultAccepted(performance, raw, c, r, l);
    }
    if row.passes.Some? {
      assert r.row.passes.Some?;
      assert r.row.reference.Some? && r.plan.probe.Ran?;
    }
  }

  /** Whatever harness reports were published, and however often they were merged, the
      catalog's loop accepts a file exactly when every row is presentable. */
  lemma FileAccepted(catalog: set<Id>, performance: set<Id>, steps: seq<Step>, runs: seq<seq<CaseRun>>,
                     trace: seq<Files>, i: nat, f: string)
    requires HarnessRun(performance, steps, runs, trace) && i <= |steps| && f in trace[i]
    ensures var p := trace[i][f];
      CatalogAcceptsFile(catalog, p)
      <==> forall n | 0 <= n < |p.rows| :: Presentable(catalog, p.fixtures, p.rows[n])
  {
    var p := trace[i][f];
    RunIsSound(performance, steps, trace, i);
    UniqueRows(p.rows);
    forall n | 0 <= n < |p.rows|
      ensures CatalogAcceptsRow(catalog, p.fixtures, p.rows[n]) <==> Presentable(catalog, p.fixtures, p.rows[n])
    {
      var h := RowStep(performance, steps, trace, i, f, p.rows[n]);
      var raw := steps[h].raw;
      var j :| 0 <= j < |raw.cases| && AllClean(raw.cases[j].results)
        && p.rows[n] == RowOf(performance, raw, raw.cases[j]);
      RecordedRowAccepted(catalog, p.fixtures, performance, raw, raw.cases[j], runs[h][j]);
    }
  }

  lemma UniqueRows(rows: seq<Row>)
    requires StrictlySorted(rows)
    ensures forall i, j | 0 <= i < j < |rows| :: rows[i].id != rows[j].id
  {
    forall i, j | 0 <= i < j < |rows|
      ensures rows[i].id != rows[j].id
    {
      LessTrichotomy(rows[i].id, rows[j].id);
    }
  }

  /** A row has its passes exactly when its case got past calibration. */
  lemma PassesAreCalibrated(c: RawCase, r: CaseRun)
    requires Recorded(c, r)
    ensures c.passes.Some? <==> r.plan.probe.Ran? && exists reference :: Chosen(r.plan, reference)
  {
    assert forall reference :: Chosen(r.plan, reference) ==> r.row.reference == Some(reference);
    assert r.row.reference.Some? ==> Chosen(r.plan, r.row.reference.value);
  }

  // ---- A file the catalog refuses --------------------------------------------------------------

  /** A self-referenced case whose launches all ran but for the calibration probe. */
  function ProbeTimedOut(): Plan {
    Plan(true, [BashOs], 1, false, 0, 3, false, _ => Ran(1.0, [], ""), Timeout,
         _ => Ran(1.0, [], ""), _ => [], (_, _) => Ran(1.0, [], ""), _ => "", _ => "")
  }

  function ProbeTimedOutRow(): CaseRow {
    var absent := Verdict("not-applicable");
    CaseRow(Some(BashOs), None, None, map[BashOs := Failure(Timeout), External := absent, BusyBox := absent], [])
  }

  lemma ProbeTimedOutOutcome(norm: Normal)
    ensures WellFormed(ProbeTimedOut()) && CaseOutcome(ProbeTimedOut(), norm, ProbeTimedOutRow())
  {
    var p, row := ProbeTimedOut(), ProbeTimedOutRow();
    assert |"ok"| == 2 && |"timeout"| == 7 && |"not-applicable"| == 14;
    assert FirstMatches(p, norm, [], BashOs);
  }

  function UncalibratedCase(id: Id): RawCase {
    RawCase(id, id, [], Some(BashOs), Some(true), None, None, map[], ProbeTimedOutRow().results)
  }

  function UncalibratedReport(env: Environment, id: Id): Raw {
    Raw(1, [], [], env, 1, map[[] := []], [UncalibratedCase(id)])
  }

  lemma UncalibratedIsPublishable(env: Environment, id: Id)
    ensures AllClean(UncalibratedCase(id).results)
    ensures Refusal(None, UncalibratedReport(env, id), Args(false, {}, "")).None?
  {
    var results := UncalibratedCase(id).results;
    forall l | l in results
      ensures Clean(results[l]).Some?
    {
      ProbeTimedOutOutcome(_ => []);
      FailureAccepted(results[l]);
    }
  }

  lemma OneRow(performance: set<Id>, raw: Raw, args: Args)
    requires |raw.cases| == 1 && args.omit == {} && !args.merge && Refusal(None, raw, args).None?
    ensures AllClean(raw.cases[0].results)
    ensures Lists([RowOf(performance, raw, raw.cases[0])], Rows(performance, None, raw, args))
  {
    var c := raw.cases[0];
    var row := RowOf(performance, raw, c);
    assert Kept(performance, raw, {}, 0) == map[];
    assert Rows(performance, None, raw, args) == map[c.id := row];
    assert [row][0].id == c.id;
  }

  lemma OneStep(performance: set<Id>, raw: Raw, args: Args, f: string, file: Published)
    requires Refusal(None, raw, args).None? && Publication(performance, None, raw, args, file)
    ensures IsRun(performance, [Step(raw, args, f, f)], [map[], map[f := file]])
  {
    var before: Files := map[];
    assert Advances(performance, Step(raw, args, f, f), before, before[f := file]);
  }

  function UncalibratedRuns(norm: Normal): seq<CaseRun> {
    [CaseRun(ProbeTimedOut(), norm, ProbeTimedOutRow())]
  }

  lemma UncalibratedHarness(env: Environment, id: Id, norm: Normal)
    ensures Harness(UncalibratedReport(env, id), UncalibratedRuns(norm))
  {
    ProbeTimedOutOutcome(norm);
  }

  /** One report with one case whose probe timed out, published: every check of the publisher
      passes, and the catalog's loop fails on the file. */
  lemma UncalibratedIsRefused(catalog: set<Id>, performance: set<Id>, env: Environment, id: Id, norm: Normal, f: string)
    returns (steps: seq<Step>, runs: seq<seq<CaseRun>>, trace: seq<Files>)
    ensures HarnessRun(performance, steps, runs, trace) && |steps| == 1
    ensures f in trace[1] && |trace[1][f].rows| == 1 && !CatalogAcceptsFile(catalog, trace[1][f])
  {
    var raw, args := UncalibratedReport(env, id), Args(false, {}, "");
    UncalibratedIsPublishable(env, id);
    var row := RowOf(performance, raw, raw.cases[0]);
    var file := Published([], [], env, raw.fixtures, {}, [row]);
    OneRow(performance, raw, args);
    steps, trace := [Step(raw, args, f, f)], [map[], map[f := file]];
    OneStep(performance, raw, args, f, file);
    runs := [UncalibratedRuns(norm)];
    UncalibratedHarness(env, id, norm);
    assert !CatalogAcceptsRow(catalog, file.fixtures, file.rows[0]);
  }
}

/** The measurement of one case: which implementations are validated, which are timed,
    and the verdict each one ends with. */
module Validate {
  import opened ByteStrings
  import opened Sequences
  import opened Publish
  import opened Rotation
  import opened Statistics

  /** What one launch returned: wall time, captured output and error output, or a failure. */
  datatype Launch = Ran(ms: real, data: Bytes, err: string) | Timeout | Failed(code: int, stderr: string)

  const LABELS: set<Label> := {BashOs, External, BusyBox}

  /** How a case was set up, and every launch it can make: the first pass, the probe, the
      full batch (with the output file it left), and each timed round; and the digest and
      the encoding its mismatches are reported with. */
  datatype Plan = Plan(self: bool, launched: seq<Label>, runs: nat, quick: bool, fixedPasses: nat, maxPasses: nat,
                       hasOutput: bool, initial: Label -> Launch, probe: Launch,
                       batch: Label -> Launch, left: Label -> Bytes, timed: (nat, Label) -> Launch,
                       digest: Bytes -> string, encode: Bytes -> string)

  /** The builtin is always launched; the others when the host has them and the case is
      not self-referenced. */
  ghost predicate WellFormed(p: Plan) {
    && p.runs >= 1 && Distinct(p.launched) && BashOs in p.launched
    && (forall l | l in p.launched :: l in LABELS)
    && (p.self ==> p.launched == [BashOs])
    && (p.probe.Ran? ==> p.probe.ms > 0.0)
  }

  type Normal = Bytes -> seq<Bytes>

  // ---- Verdicts as results ------------------------------------------------------------------

  /** A launch without its data and time. */
  function Failure(l: Launch): Fields {
    match l
    case Ran(_, _, err) => map["stderr" := Text(err)]["status" := OK]
    case Timeout => map["status" := Text("timeout")]
    case Failed(code, err) => map["status" := Text("error"), "returncode" := Count(code), "stderr" := Text(err)]
  }

  function Verdict(status: string): Fields {
    map["status" := Text(status)]
  }

  /** data[:180], encoded */
  function SampleOf(p: Plan, data: Bytes): Value {
    Text(p.encode(if |data| <= 180 then data else data[..180]))
  }

  function OutputMismatch(p: Plan, expected: Bytes, actual: Bytes): Fields {
    map["expected_sha256" := Text(p.digest(expected)), "actual_sha256" := Text(p.digest(actual)),
        "expected_sample_b64" := SampleOf(p, expected), "actual_sample_b64" := SampleOf(p, actual)]
      ["status" := Text("output-mismatch")]
  }

  function BatchMismatch(p: Plan, batch: Launch, wanted: Bytes, actual: Bytes): Fields {
    var err := match batch
      case Ran(_, _, err) => err
      case Timeout => ""
      case Failed(_, err) => err;
    map["stderr" := Text(err), "expected_bytes" := Count(|wanted|), "actual_bytes" := Count(|actual|),
        "expected_sha256" := Text(p.digest(wanted)), "actual_sha256" := Text(p.digest(actual))]
      ["status" := Text("batch-mismatch")]
  }

  function Timings(values: seq<real>): Fields
    requires values != []
  {
    map["status" := OK, "median_ms" := Num(Round3(Median(values))), "min_ms" := Num(Round3(Min(values))),
        "max_ms" := Num(Round3(Max(values))), "runs_ms" := Nums(RoundAll(values))]
  }

  lemma TimingsFields(t: seq<real>)
    requires t != []
    ensures var r := Timings(t);
      && r.Keys == {"status", "median_ms", "min_ms", "max_ms", "runs_ms"} && IsOk(r)
      && r["median_ms"] == Num(Round3(Median(t))) && r["min_ms"] == Num(Round3(Min(t)))
      && r["max_ms"] == Num(Round3(Max(t))) && r["runs_ms"] == Nums(RoundAll(t))
  {
    TimingKeys();
  }

  /** The row of one case. `passes` is unset when the case ended before its batches. */
  datatype CaseRow = CaseRow(reference: Option<Label>, passes: Option<nat>, validationPasses: Option<nat>,
                             results: map<Label, Fields>, attempts: seq<Label>)

  // ---- What validation means ------------------------------------------------------------------

  function Reference(p: Plan): Option<Label>
  {
    if p.self then (if p.initial(BashOs).Ran? then Some(BashOs) else None)
    else if External in p.launched && p.initial(External).Ran? then Some(External)
    else if BusyBox in p.launched && p.initial(BusyBox).Ran? then Some(BusyBox)
    else None
  }

  predicate FirstMatches(p: Plan, norm: Normal, expected: Bytes, l: Label)
  {
    p.initial(l).Ran? && norm(p.initial(l).data) == norm(expected)
  }

  function Actual(p: Plan, l: Label): Bytes
  {
    if p.hasOutput then p.left(l) else if p.batch(l).Ran? then p.batch(l).data else []
  }

  function Wanted(p: Plan, expected: Bytes, validation: nat): Bytes {
    if p.hasOutput then expected else Repeat(expected, validation)
  }

  predicate BatchMatches(p: Plan, norm: Normal, expected: Bytes, validation: nat, l: Label)
  {
    p.batch(l).Ran? && norm(Actual(p, l)) == norm(Wanted(p, expected, validation))
  }

  function Sample(l: Launch): seq<real> {
    if l.Ran? then [l.ms] else []
  }

  /** Times of the successful launches of a label in the first n rounds. */
  function Times(timed: (nat, Label) -> Launch, l: Label, n: nat): (t: seq<real>)
    ensures |t| <= n
  {
    if n == 0 then [] else Times(timed, l, n - 1) + Sample(timed(n - 1, l))
  }

  ghost predicate AllRan(timed: (nat, Label) -> Launch, l: Label, n: nat) {
    forall r | 0 <= r < n :: timed(r, l).Ran?
  }

  lemma {:induction false} TimesCount(timed: (nat, Label) -> Launch, l: Label, n: nat)
    ensures |Times(timed, l, n)| == n <==> AllRan(timed, l, n)
  {
    if n > 0 {
      TimesCount(timed, l, n - 1);
    }
  }

  /** Its first output and its whole batch matched the reference, and every timed run
      succeeded. */
  ghost predicate Earned(p: Plan, norm: Normal, expected: Bytes, validation: nat, l: Label)
    requires WellFormed(p) && l in p.launched
  {
    FirstMatches(p, norm, expected, l) && BatchMatches(p, norm, expected, validation, l) && AllRan(p.timed, l, p.runs)
  }

  // ---- Passes ---------------------------------------------------------------------------------

  function Ceil(x: real): int {
    -((-x).Floor)
  }

  /** Invocations per batch: one when quick, a fixed number, or calibrated from the probe. */
  function Passes(p: Plan): nat
    requires p.probe.Ran? && p.probe.ms > 0.0
  {
    if p.quick then 1
    else if p.fixedPasses > 0 then p.fixedPasses
    else
      var c := Ceil(75.0 / (p.probe.ms / 5.0));
      var m := if p.maxPasses < c then p.maxPasses else c;
      if m < 3 then 3 else m
  }

  /** What n invocations take at a rate of `each` ms. */
  function BatchTime(n: int, each: real): real {
    n as real * each
  }

  lemma Reaches(n: int, total: real, each: real)
    requires each > 0.0
    ensures BatchTime(n, each) >= total <==> n as real >= total / each
  {
    var x, quotient := n as real, total / each;
    assert quotient * each == total;
    assert (x - quotient) * each == x * each - total;
    assert x >= quotient ==> (x - quotient) * each >= 0.0;
    assert x < quotient ==> (quotient - x) * each > 0.0;
  }

  /** A calibrated batch is the least number of invocations that takes 75 ms at the probe's
      rate, cut off at the case's limit, and never fewer than three. */
  lemma PassesFill75Ms(p: Plan)
    requires p.probe.Ran? && p.probe.ms > 0.0
    ensures p.quick ==> Passes(p) == 1
    ensures !p.quick && p.fixedPasses > 0 ==> Passes(p) == p.fixedPasses
    ensures !p.quick && p.fixedPasses == 0 ==>
      var n, each := Passes(p), p.probe.ms / 5.0;
      && n >= 3 && (n > 3 ==> n <= p.maxPasses)
      && (n < p.maxPasses ==> BatchTime(n, each) >= 75.0)
      && (n > 3 ==> BatchTime(n - 1, each) < 75.0)
  {
    if !p.quick && p.fixedPasses == 0 {
      var n, each := Passes(p), p.probe.ms / 5.0;
      CeilingAtWork(75.0 / each, p.maxPasses, n);
      Reaches(n, 75.0, each);
      Reaches(n - 1, 75.0, each);
    }
  }

  lemma CeilingAtWork(x: real, cap: nat, n: int)
    requires var m := if cap < Ceil(x) then cap else Ceil(x);
      n == if m < 3 then 3 else m
    ensures n >= 3 && (n > 3 ==> n <= cap && (n - 1) as real < x) && (n < cap ==> n as real >= x)
  {
    var c := Ceil(x);
    assert c as real >= x > (c - 1) as real;
  }

  /** A batch is validated with at least three invocations. */
  function AtLeastThree(passes: nat): nat {
    if passes < 3 then 3 else passes
  }

  // ---- The four loops ----------------------------------------------------------------------------

  ghost predicate NoneOk(results: map<Label, Fields>) {
    forall l | l in results :: !IsOk(results[l])
  }

  /** The verdict on a label without a command. */
  function Absent(p: Plan): Fields {
    Verdict(if p.self then "not-applicable" else "unavailable")
  }

  function Unlaunched(p: Plan): map<Label, Fields> {
    map l | l in LABELS && l !in p.launched :: Absent(p)
  }

  /** The verdict on a label that is not accepted after its first output. */
  function FirstVerdict(p: Plan, expected: Bytes, l: Label): Fields {
    if l !in p.launched then Absent(p)
    else if !p.initial(l).Ran? then Failure(p.initial(l))
    else OutputMismatch(p, expected, p.initial(l).data)
  }

  /** The verdict on a label whose batch does not match. */
  function BatchVerdict(p: Plan, expected: Bytes, validation: nat, l: Label): Fields {
    BatchMismatch(p, p.batch(l), Wanted(p, expected, validation), Actual(p, l))
  }

  /** What the last failed launch among the first n timed ones leaves. */
  function LastFailure(timed: (nat, Label) -> Launch, l: Label, n: nat): Fields {
    if n == 0 then map[]
    else if !timed(n - 1, l).Ran? then Failure(timed(n - 1, l))
    else LastFailure(timed, l, n - 1)
  }

  /** The verdict on a label that has not earned its timings. */
  function FinalVerdict(p: Plan, norm: Normal, expected: Bytes, validation: nat, l: Label): Fields {
    if l !in p.launched || !FirstMatches(p, norm, expected, l) then FirstVerdict(p, expected, l)
    else if !BatchMatches(p, norm, expected, validation, l) then BatchVerdict(p, expected, validation, l)
    else LastFailure(p.timed, l, p.runs)
  }

  /** Of the labels done, those that match are accepted and the others have their verdict,
      as have those absent from the start. */
  ghost predicate JudgedAt(matches: Label -> bool, verdict: Label -> Fields, absent: set<Label>, done: seq<Label>,
                           accepted: seq<Label>, results: map<Label, Fields>, l: Label) {
    && (l in accepted <==> l in done && matches(l))
    && (l in results <==> l in absent || (l in done && !matches(l)))
    && (l in results ==> results[l] == verdict(l) && !IsOk(results[l]))
  }

  ghost predicate Judged(matches: Label -> bool, verdict: Label -> Fields, absent: set<Label>, done: seq<Label>,
                         accepted: seq<Label>, results: map<Label, Fields>) {
    Distinct(accepted) && forall l: Label :: JudgedAt(matches, verdict, absent, done, accepted, results, l)
  }

  lemma JudgeNone(matches: Label -> bool, verdict: Label -> Fields, results: map<Label, Fields>)
    requires forall l: Label | l in results :: results[l] == verdict(l) && !IsOk(results[l])
    ensures Judged(matches, verdict, results.Keys, [], [], results)
  {}

  lemma JudgeAccept(matches: Label -> bool, verdict: Label -> Fields, absent: set<Label>, done: seq<Label>,
                    accepted: seq<Label>, results: map<Label, Fields>, l: Label)
    requires Judged(matches, verdict, absent, done, accepted, results) && l !in done && matches(l)
    ensures Judged(matches, verdict, absent, done + [l], accepted + [l], results)
  {
    assert JudgedAt(matches, verdict, absent, done, accepted, results, l);
    forall x: Label
      ensures JudgedAt(matches, verdict, absent, done + [l], accepted + [l], results, x)
    {
      assert JudgedAt(matches, verdict, absent, done, accepted, results, x);
    }
  }

  lemma JudgeReject(matches: Label -> bool, verdict: Label -> Fields, absent: set<Label>, done: seq<Label>,
                    accepted: seq<Label>, results: map<Label, Fields>, l: Label, v: Fields)
    requires Judged(matches, verdict, absent, done, accepted, results) && !matches(l)
    requires v == verdict(l) && !IsOk(v)
    ensures Judged(matches, verdict, absent, done + [l], accepted, results[l := v])
  {
    var after := results[l := v];
    forall x: Label
      ensures JudgedAt(matches, verdict, absent, done + [l], accepted, after, x)
    {
      assert JudgedAt(matches, verdict, absent, done, accepted, results, x);
    }
  }

  lemma JudgedAll(matches: Label -> bool, verdict: Label -> Fields, absent: set<Label>, done: seq<Label>,
                  accepted: seq<Label>, results: map<Label, Fields>)
    requires Judged(matches, verdict, absent, done, accepted, results)
    ensures NoneOk(results) && forall l: Label | l in results :: results[l] == verdict(l)
    ensures forall l: Label :: l in accepted <==> l in done && matches(l)
    ensures forall l: Label :: l in results <==> l in absent || (l in done && !matches(l))
  {
    forall l: Label
      ensures l in accepted <==> l in done && matches(l)
      ensures l in results <==> l in absent || (l in done && !matches(l))
      ensures l in results ==> results[l] == verdict(l) && !IsOk(results[l])
    {
      assert JudgedAt(matches, verdict, absent, done, accepted, results, l);
    }
  }

  ghost function MatchesFirst(p: Plan, norm: Normal, expected: Bytes): Label -> bool {
    (l: Label) => FirstMatches(p, norm, expected, l)
  }

  ghost function FirstVerdicts(p: Plan, expected: Bytes): Label -> Fields {
    (l: Label) => FirstVerdict(p, expected, l)
  }

  /** One first output: None when it is accepted, its verdict otherwise. */
  method JudgeFirst(p: Plan, norm: Normal, expected: Bytes, l: Label) returns (v: Option<Fields>)
    requires l in p.launched
    ensures v.None? <==> MatchesFirst(p, norm, expected)(l)
    ensures v.Some? ==> v.value == FirstVerdicts(p, expected)(l) && !IsOk(v.value)
  {
    if !p.initial(l).Ran? {
      v := Some(Failure(p.initial(l)));
    } else if norm(p.initial(l).data) != norm(expected) {
      v := Some(OutputMismatch(p, expected, p.initial(l).data));
    } else {
      v := None;
    }
  }

  /** First outputs against the reference. */
  method CheckFirst(p: Plan, norm: Normal, expected: Bytes) returns (accepted: seq<Label>, results: map<Label, Fields>)
    requires WellFormed(p)
    ensures Distinct(accepted) && NoneOk(results)
    ensures forall l :: l in accepted <==> l in p.launched && FirstMatches(p, norm, expected, l)
    ensures results.Keys == LABELS - set l | l in accepted
    ensures forall l | l in results :: results[l] == FirstVerdict(p, expected, l)
  {
    ghost var matches, verdict := MatchesFirst(p, norm, expected), FirstVerdicts(p, expected);
    accepted, results := [], Unlaunched(p);
    ghost var absent := results.Keys;
    JudgeNone(matches, verdict, results);
    var i := 0;
    while i < |p.launched|
      invariant 0 <= i <= |p.launched|
      invariant Judged(matches, verdict, absent, p.launched[..i], accepted, results)
    {
      var l := p.launched[i];
      assert p.launched[..i+1] == p.launched[..i] + [l];
      assert l !in p.launched[..i];
      var v := JudgeFirst(p, norm, expected, l);
      if v.None? {
        JudgeAccept(matches, verdict, absent, p.launched[..i], accepted, results, l);
        accepted := accepted + [l];
      } else {
        JudgeReject(matches, verdict, absent, p.launched[..i], accepted, results, l, v.value);
        results := results[l := v.value];
      }
      i := i + 1;
    }
    assert p.launched[..i] == p.launched;
    JudgedAll(matches, verdict, absent, p.launched, accepted, results);
  }

  ghost function MatchesBatch(p: Plan, norm: Normal, expected: Bytes, validation: nat): Label -> bool {
    (l: Label) => BatchMatches(p, norm, expected, validation, l)
  }

  ghost function BatchVerdicts(p: Plan, expected: Bytes, validation: nat, results: map<Label, Fields>): Label -> Fields
  {
    (l: Label) => if l in results then results[l] else BatchVerdict(p, expected, validation, l)
  }

  /** Full batches against copies of the reference output. */
  method CheckBatches(p: Plan, norm: Normal, expected: Bytes, validation: nat,
                      accepted0: seq<Label>, results0: map<Label, Fields>)
    returns (accepted: seq<Label>, results: map<Label, Fields>)
    requires WellFormed(p) && Distinct(accepted0) && NoneOk(results0)
    requires forall l | l in accepted0 :: l in p.launched && l !in results0
    ensures Distinct(accepted) && NoneOk(results)
    ensures forall l :: l in accepted <==> l in accepted0 && BatchMatches(p, norm, expected, validation, l)
    ensures forall l :: l in results <==> l in results0 || (l in accepted0 && l !in accepted)
    ensures forall l | l in results ::
      results[l] == (if l in results0 then results0[l] else BatchVerdict(p, expected, validation, l))
  {
    ghost var matches := MatchesBatch(p, norm, expected, validation);
    ghost var verdict := BatchVerdicts(p, expected, validation, results0);
    accepted, results := [], results0;
    JudgeNone(matches, verdict, results);
    var i := 0;
    while i < |accepted0|
      invariant 0 <= i <= |accepted0|
      invariant Judged(matches, verdict, results0.Keys, accepted0[..i], accepted, results)
    {
      var l := accepted0[i];
      assert accepted0[..i+1] == accepted0[..i] + [l];
      assert l !in accepted0[..i];
      var actual, wanted := Actual(p, l), Wanted(p, expected, validation);
      if !p.batch(l).Ran? || norm(actual) != norm(wanted) {
        var v := BatchMismatch(p, p.batch(l), wanted, actual);
        JudgeReject(matches, verdict, results0.Keys, accepted0[..i], accepted, results, l, v);
        results := results[l := v];
      } else {
        JudgeAccept(matches, verdict, results0.Keys, accepted0[..i], accepted, results, l);
        accepted := accepted + [l];
      }
      i := i + 1;
    }
    assert accepted0[..i] == accepted0;
    JudgedAll(matches, verdict, results0.Keys, accepted0, accepted, results);
  }

  ghost function RoundFailures(timed: (nat, Label) -> Launch, labels: seq<Label>, round: nat): set<Label> {
    set l | l in labels && !timed(round, l).Ran?
  }

  /** A launch that failed in this round replaces the label's result; others stay. */
  ghost predicate RoundRecorded(timed: (nat, Label) -> Launch, labels: seq<Label>, round: nat,
                                results0: map<Label, Fields>, results: map<Label, Fields>) {
    forall l | l in results ::
      if l in labels && !timed(round, l).Ran? then results[l] == Failure(timed(round, l))
      else l in results0 && results[l] == results0[l]
  }

  ghost function InRound(p: Plan, round: nat): Label -> Launch {
    (l: Label) => p.timed(round, l)
  }

  /** Of the labels done, those that ran have one more sample, the others their failure. */
  ghost predicate RoundDoneAt(launch: Label -> Launch, done: seq<Label>, samples0: map<Label, seq<real>>,
                              results0: map<Label, Fields>, samples: map<Label, seq<real>>,
                              results: map<Label, Fields>, l: Label) {
    && (l in samples <==> l in samples0)
    && (l in samples ==> samples[l] == samples0[l] + (if l in done then Sample(launch(l)) else []))
    && (l in results <==> l in results0 || (l in done && !launch(l).Ran?))
    && (l in results ==>
          results[l] == if l in done && !launch(l).Ran? then Failure(launch(l)) else results0[l])
  }

  ghost predicate RoundDone(launch: Label -> Launch, done: seq<Label>, samples0: map<Label, seq<real>>,
                            results0: map<Label, Fields>, samples: map<Label, seq<real>>, results: map<Label, Fields>) {
    forall l: Label :: RoundDoneAt(launch, done, samples0, results0, samples, results, l)
  }

  lemma RoundRan(launch: Label -> Launch, done: seq<Label>, samples0: map<Label, seq<real>>,
                 results0: map<Label, Fields>, samples: map<Label, seq<real>>, results: map<Label, Fields>, l: Label)
    requires RoundDone(launch, done, samples0, results0, samples, results)
    requires l !in done && launch(l).Ran? && l in samples
    ensures RoundDone(launch, done + [l], samples0, results0, samples[l := samples[l] + [launch(l).ms]], results)
  {
    var after := samples[l := samples[l] + [launch(l).ms]];
    forall x: Label
      ensures RoundDoneAt(launch, done + [l], samples0, results0, after, results, x)
    {
      assert RoundDoneAt(launch, done, samples0, results0, samples, results, x);
    }
  }

  lemma RoundFailed(launch: Label -> Launch, done: seq<Label>, samples0: map<Label, seq<real>>,
                    results0: map<Label, Fields>, samples: map<Label, seq<real>>, results: map<Label, Fields>, l: Label)
    requires RoundDone(launch, done, samples0, results0, samples, results)
    requires l !in done && !launch(l).Ran?
    ensures RoundDone(launch, done + [l], samples0, results0, samples, results[l := Failure(launch(l))])
  {
    var after := results[l := Failure(launch(l))];
    forall x: Label
      ensures RoundDoneAt(launch, done + [l], samples0, results0, samples, after, x)
    {
      assert RoundDoneAt(launch, done, samples0, results0, samples, results, x);
    }
  }

  lemma RoundStarts(launch: Label -> Launch, samples: map<Label, seq<real>>, results: map<Label, Fields>)
    ensures RoundDone(launch, [], samples, results, samples, results)
  {
    forall l: Label
      ensures RoundDoneAt(launch, [], samples, results, samples, results, l)
    {
      assert l in samples ==> samples[l] + [] == samples[l];
    }
  }

  lemma RoundEnds(p: Plan, round: nat, order: seq<Label>, samples0: map<Label, seq<real>>, results0: map<Label, Fields>,
                  samples: map<Label, seq<real>>, results: map<Label, Fields>)
    requires NoneOk(results0) && RoundDone(InRound(p, round), order, samples0, results0, samples, results)
    ensures samples.Keys == samples0.Keys && NoneOk(results)
    ensures forall l | l in samples0 ::
      samples[l] == samples0[l] + (if l in order then Sample(p.timed(round, l)) else [])
    ensures results.Keys == results0.Keys + RoundFailures(p.timed, order, round)
    ensures RoundRecorded(p.timed, order, round, results0, results)
  {
    forall l: Label
      ensures l in samples <==> l in samples0
      ensures l in samples0 ==>
        samples[l] == samples0[l] + (if l in order then Sample(p.timed(round, l)) else [])
      ensures l in results <==> l in results0 || l in RoundFailures(p.timed, order, round)
      ensures l in results ==> !IsOk(results[l])
      ensures l in results ==>
        (if l in order && !p.timed(round, l).Ran? then results[l] == Failure(p.timed(round, l))
         else l in results0 && results[l] == results0[l])
    {
      assert RoundDoneAt(InRound(p, round), order, samples0, results0, samples, results, l);
    }
  }

  /** One timed round: every label of the order launched once. */
  method TimeRound(p: Plan, round: nat, order: seq<Label>, samples0: map<Label, seq<real>>,
                   results0: map<Label, Fields>)
    returns (samples: map<Label, seq<real>>, results: map<Label, Fields>)
    requires WellFormed(p) && round < p.runs && Distinct(order) && NoneOk(results0)
    requires forall l | l in order :: l in p.launched && l in samples0
    ensures samples.Keys == samples0.Keys && NoneOk(results)
    ensures forall l | l in samples0 ::
      samples[l] == samples0[l] + (if l in order then Sample(p.timed(round, l)) else [])
    ensures results.Keys == results0.Keys + RoundFailures(p.timed, order, round)
    ensures RoundRecorded(p.timed, order, round, results0, results)
  {
    ghost var launch := InRound(p, round);
    samples, results := samples0, results0;
    RoundStarts(launch, samples, results);
    var i := 0;
    while i < |order|
      invariant 0 <= i <= |order|
      invariant RoundDone(launch, order[..i], samples0, results0, samples, results)
    {
      var l := order[i];
      assert order[..i+1] == order[..i] + [l];
      assert l !in order[..i];
      assert RoundDoneAt(launch, order[..i], samples0, results0, samples, results, l);
      var timed := p.timed(round, l);
      if timed.Ran? {
        RoundRan(launch, order[..i], samples0, results0, samples, results, l);
        samples := samples[l := samples[l] + [timed.ms]];
      } else {
        RoundFailed(launch, order[..i], samples0, results0, samples, results, l);
        results := results[l := Failure(timed)];
      }
      i := i + 1;
    }
    assert order[..i] == order;
    RoundEnds(p, round, order, samples0, results0, samples, results);
  }

  lemma OrderOfAccepted(accepted: seq<Label>, round: nat)
    requires Distinct(accepted)
    ensures var order := Order(accepted, round);
      && Distinct(order) && (forall l :: l in order <==> l in accepted)
      && forall l :: multiset(order)[l] == (if l in accepted then 1 else 0)
  {
    var order := Order(accepted, round);
    OrderIsPermutation(accepted, round);
    DistinctCounts(accepted);
    CountsDistinct(order);
    forall l
      ensures l in order <==> l in accepted
    {
      assert l in order <==> l in multiset(order);
      assert l in accepted <==> l in multiset(accepted);
    }
  }

  ghost predicate SamplesAt(timed: (nat, Label) -> Launch, accepted: seq<Label>, samples: map<Label, seq<real>>,
                            n: nat) {
    samples.Keys == (set l | l in accepted) && forall l | l in accepted :: samples[l] == Times(timed, l, n)
  }

  ghost function Failing(timed: (nat, Label) -> Launch, accepted: seq<Label>, n: nat): set<Label> {
    set l | l in accepted && !AllRan(timed, l, n)
  }

  ghost predicate AttemptsAt(accepted: seq<Label>, attempts: seq<Label>, n: nat) {
    forall l :: multiset(attempts)[l] == (if l in accepted then n else 0)
  }

  lemma SamplesNext(timed: (nat, Label) -> Launch, accepted: seq<Label>, samples0: map<Label, seq<real>>,
                    samples: map<Label, seq<real>>, n: nat)
    requires SamplesAt(timed, accepted, samples0, n) && samples.Keys == samples0.Keys
    requires forall l | l in accepted :: samples[l] == samples0[l] + Sample(timed(n, l))
    ensures SamplesAt(timed, accepted, samples, n + 1)
  {}

  lemma FailingNext(timed: (nat, Label) -> Launch, accepted: seq<Label>, n: nat)
    ensures Failing(timed, accepted, n + 1)
         == Failing(timed, accepted, n) + RoundFailures(timed, accepted, n)
  {
    forall l | l in accepted
      ensures AllRan(timed, l, n + 1) <==> AllRan(timed, l, n) && timed(n, l).Ran?
    {}
  }

  lemma KeysNext(timed: (nat, Label) -> Launch, accepted: seq<Label>, order: seq<Label>, base: set<Label>,
                 keys0: set<Label>, keys: set<Label>, n: nat)
    requires forall l :: l in order <==> l in accepted
    requires keys0 == base + Failing(timed, accepted, n) && keys == keys0 + RoundFailures(timed, order, n)
    ensures keys == base + Failing(timed, accepted, n + 1)
  {
    FailingNext(timed, accepted, n);
    assert RoundFailures(timed, order, n) == RoundFailures(timed, accepted, n);
  }

  lemma AttemptsNext(accepted: seq<Label>, attempts: seq<Label>, order: seq<Label>, n: nat)
    requires AttemptsAt(accepted, attempts, n)
    requires forall l :: multiset(order)[l] == (if l in accepted then 1 else 0)
    ensures AttemptsAt(accepted, attempts + order, n + 1)
  {
    assert multiset(attempts + order) == multiset(attempts) + multiset(order);
  }

  /** After n rounds an accepted label has its last failure as its result, if any. */
  ghost predicate FailuresAt(timed: (nat, Label) -> Launch, accepted: seq<Label>, base: map<Label, Fields>,
                             results: map<Label, Fields>, n: nat) {
    forall l | l in results ::
      if l in accepted && !AllRan(timed, l, n) then results[l] == LastFailure(timed, l, n)
      else l in base && results[l] == base[l]
  }

  lemma FailuresNext(timed: (nat, Label) -> Launch, accepted: seq<Label>, order: seq<Label>, base: map<Label, Fields>,
                     results0: map<Label, Fields>, results: map<Label, Fields>, n: nat)
    requires FailuresAt(timed, accepted, base, results0, n) && RoundRecorded(timed, order, n, results0, results)
    requires forall l :: l in order <==> l in accepted
    ensures FailuresAt(timed, accepted, base, results, n + 1)
  {
    forall l | l in results
      ensures if l in accepted && !AllRan(timed, l, n + 1) then results[l] == LastFailure(timed, l, n + 1)
              else l in base && results[l] == base[l]
    {
      assert AllRan(timed, l, n + 1) <==> AllRan(timed, l, n) && timed(n, l).Ran?;
    }
  }

  /** Where the timing of a case stands after n rounds. */
  ghost predicate TimedSoFar(p: Plan, accepted: seq<Label>, base: map<Label, Fields>, samples: map<Label, seq<real>>,
                             results: map<Label, Fields>, attempts: seq<Label>, n: nat) {
    && NoneOk(results) && results.Keys == base.Keys + Failing(p.timed, accepted, n)
    && FailuresAt(p.timed, accepted, base, results, n)
    && SamplesAt(p.timed, accepted, samples, n) && AttemptsAt(accepted, attempts, n)
  }

  method NextRound(p: Plan, accepted: seq<Label>, ghost base: map<Label, Fields>, round: nat,
                   samples0: map<Label, seq<real>>, results0: map<Label, Fields>, attempts0: seq<Label>)
    returns (samples: map<Label, seq<real>>, results: map<Label, Fields>, attempts: seq<Label>)
    requires WellFormed(p) && Distinct(accepted) && round < p.runs
    requires forall l | l in accepted :: l in p.launched
    requires TimedSoFar(p, accepted, base, samples0, results0, attempts0, round)
    ensures TimedSoFar(p, accepted, base, samples, results, attempts, round + 1)
  {
    var order := Order(accepted, round);
    OrderOfAccepted(accepted, round);
    samples, results := TimeRound(p, round, order, samples0, results0);
    attempts := attempts0 + order;
    KeysNext(p.timed, accepted, order, base.Keys, results0.Keys, results.Keys, round);
    SamplesNext(p.timed, accepted, samples0, samples, round);
    AttemptsNext(accepted, attempts0, order, round);
    FailuresNext(p.timed, accepted, order, base, results0, results, round);
  }

  lemma TimingStarts(p: Plan, accepted: seq<Label>, samples: map<Label, seq<real>>, results: map<Label, Fields>)
    requires NoneOk(results) && samples == map l | l in accepted :: []
    ensures TimedSoFar(p, accepted, results, samples, results, [], 0)
  {
    assert Failing(p.timed, accepted, 0) == {};
  }

  /** All timed rounds. Every accepted label is launched exactly once in each. */
  method TimeRounds(p: Plan, accepted: seq<Label>, results0: map<Label, Fields>)
    returns (samples: map<Label, seq<real>>, results: map<Label, Fields>, attempts: seq<Label>)
    requires WellFormed(p) && Distinct(accepted) && NoneOk(results0)
    requires forall l | l in accepted :: l in p.launched
    ensures TimedSoFar(p, accepted, results0, samples, results, attempts, p.runs)
  {
    samples, results, attempts := map l | l in accepted :: [], results0, [];
    TimingStarts(p, accepted, samples, results);
    for round := 0 to p.runs
      invariant TimedSoFar(p, accepted, results0, samples, results, attempts, round)
    {
      samples, results, attempts := NextRound(p, accepted, results0, round, samples, results, attempts);
    }
  }

  ghost predicate Concluded(p: Plan, l: Label, result: Fields) {
    var t := Times(p.timed, l, p.runs);
    IsOk(result) && t != [] && result == Timings(t)
  }

  ghost function RanAll(p: Plan): Label -> bool {
    (l: Label) => AllRan(p.timed, l, p.runs)
  }

  ghost function ConcludedBy(p: Plan): (Label, Fields) -> bool {
    (l: Label, result: Fields) => Concluded(p, l, result)
  }

  /** The label has a good result if it is listed and ran, and otherwise the earlier one
      if any. */
  ghost predicate SettledAt(ran: Label -> bool, good: (Label, Fields) -> bool, labels: seq<Label>,
                            results0: map<Label, Fields>, results: map<Label, Fields>, l: Label) {
    && (l in results <==> l in results0 || (l in labels && ran(l)))
    && (l in results ==>
          if l in labels && ran(l) then good(l, results[l]) else l in results0 && results[l] == results0[l])
  }

  ghost predicate Settled(ran: Label -> bool, good: (Label, Fields) -> bool, labels: seq<Label>,
                          results0: map<Label, Fields>, results: map<Label, Fields>) {
    forall l: Label :: SettledAt(ran, good, labels, results0, results, l)
  }

  lemma SettleSkip(ran: Label -> bool, good: (Label, Fields) -> bool, labels: seq<Label>, l: Label,
                   results0: map<Label, Fields>, results: map<Label, Fields>)
    requires Settled(ran, good, labels, results0, results) && !ran(l)
    ensures Settled(ran, good, labels + [l], results0, results)
  {
    forall x: Label
      ensures SettledAt(ran, good, labels + [l], results0, results, x)
    {
      assert SettledAt(ran, good, labels, results0, results, x);
    }
  }

  lemma SettleNext(ran: Label -> bool, good: (Label, Fields) -> bool, labels: seq<Label>, l: Label,
                   results0: map<Label, Fields>, results: map<Label, Fields>, result: Fields)
    requires Settled(ran, good, labels, results0, results) && ran(l) && good(l, result)
    ensures Settled(ran, good, labels + [l], results0, results[l := result])
  {
    var after := results[l := result];
    forall x: Label
      ensures SettledAt(ran, good, labels + [l], results0, after, x)
    {
      assert SettledAt(ran, good, labels, results0, results, x);
    }
  }

  lemma TimesConclude(p: Plan, l: Label)
    requires p.runs >= 1
    ensures RanAll(p)(l) <==> |Times(p.timed, l, p.runs)| == p.runs
    ensures RanAll(p)(l) ==>
      Times(p.timed, l, p.runs) != [] && ConcludedBy(p)(l, Timings(Times(p.timed, l, p.runs)))
  {
    var t := Times(p.timed, l, p.runs);
    TimesCount(p.timed, l, p.runs);
    if t != [] {
      TimingsFields(t);
    }
  }

  ghost predicate ConcludedAll(p: Plan, labels: seq<Label>, results0: map<Label, Fields>, results: map<Label, Fields>) {
    Settled(RanAll(p), ConcludedBy(p), labels, results0, results)
  }

  /** Medians for the labels with a sample from every round. */
  method Conclude(p: Plan, accepted: seq<Label>, samples: map<Label, seq<real>>, results0: map<Label, Fields>)
    returns (results: map<Label, Fields>)
    requires WellFormed(p) && Distinct(accepted) && NoneOk(results0)
    requires SamplesAt(p.timed, accepted, samples, p.runs)
    requires forall l | l in accepted && l in results0 :: !AllRan(p.timed, l, p.runs)
    ensures ConcludedAll(p, accepted, results0, results)
  {
    results := results0;
    var i := 0;
    while i < |accepted|
      invariant 0 <= i <= |accepted|
      invariant Settled(RanAll(p), ConcludedBy(p), accepted[..i], results0, results)
    {
      var l := accepted[i];
      assert accepted[..i+1] == accepted[..i] + [l];
      assert l !in accepted[..i];
      TimesConclude(p, l);
      if |samples[l]| == p.runs {
        var result := Timings(samples[l]);
        SettleNext(RanAll(p), ConcludedBy(p), accepted[..i], l, results0, results, result);
        results := results[l := result];
      } else {
        SettleSkip(RanAll(p), ConcludedBy(p), accepted[..i], l, results0, results);
      }
      i := i + 1;
    }
    assert accepted[..i] == accepted;
  }

  // ---- One case ------------------------------------------------------------------------------------

  /** Every case ends in one of three ways; only the last has timings. */
  ghost predicate CaseOutcome(p: Plan, norm: Normal, row: CaseRow)
    requires WellFormed(p)
  {
    row.reference == Reference(p) &&
    match row.reference
    case None =>
      && row.passes.None? && row.attempts == [] && row.results.Keys == LABELS && NoneOk(row.results)
      && forall l | l in LABELS :: row.results[l] == UnreferencedVerdict(p, l)
    case Some(r) =>
      if !p.probe.Ran? then
        && row.passes.None? && row.attempts == [] && NoneOk(row.results)
        && p.initial(r).Ran? && ProbeFailed(p, norm, p.initial(r).data, r, row.results)
      else
        && p.initial(r).Ran? && row.passes == Some(Passes(p)) && row.validationPasses.Some?
        && MeasuredCase(p, norm, p.initial(r).data, row.validationPasses.value, row)
  }

  /** The verdict on a label when nothing gave an expected output. */
  function UnreferencedVerdict(p: Plan, l: Label): Fields {
    if l !in p.launched then Absent(p)
    else if p.initial(l).Ran? then Failure(p.initial(l))["status" := Text("no-reference")]
    else Failure(p.initial(l))
  }

  /** The label probed has the probe's failure, the others what their first output gave,
      and those accepted none at all. */
  ghost predicate ProbeFailed(p: Plan, norm: Normal, expected: Bytes, r: Label, results: map<Label, Fields>) {
    var probed := if FirstMatches(p, norm, expected, BashOs) then BashOs else r;
    && probed in results && results[probed] == Failure(p.probe)
    && forall l: Label | l != probed ::
         && (l in results <==> !(l in p.launched && FirstMatches(p, norm, expected, l)))
         && (l in results ==> results[l] == FirstVerdict(p, expected, l))
  }

  /** Past calibration: one verdict for each implementation; it is ok exactly when it was
      earned, and then it holds the statistics of all the timed runs; and each accepted
      implementation was timed the same number of times. */
  ghost predicate MeasuredCase(p: Plan, norm: Normal, expected: Bytes, validation: nat, row: CaseRow)
    requires WellFormed(p)
  {
    && row.passes.Some? && row.passes.value > 0 && validation == AtLeastThree(row.passes.value)
    && row.results.Keys == LABELS
    && (forall l | l in LABELS :: IsOk(row.results[l]) <==> l in p.launched && Earned(p, norm, expected, validation, l))
    && (forall l | l in LABELS && IsOk(row.results[l]) :: Concluded(p, l, row.results[l]))
    && (forall l | l in LABELS && !IsOk(row.results[l]) ::
          row.results[l] == FinalVerdict(p, norm, expected, validation, l))
    && (forall l :: multiset(row.attempts)[l] ==
          (if l in p.launched && FirstMatches(p, norm, expected, l) && BatchMatches(p, norm, expected, validation, l)
           then p.runs else 0))
  }

  ghost function UnreferencedVerdicts(p: Plan): Label -> Fields {
    (l: Label) => UnreferencedVerdict(p, l)
  }

  /** The verdicts when no implementation gave an expected output. */
  method NoReference(p: Plan) returns (results: map<Label, Fields>)
    requires WellFormed(p)
    ensures results.Keys == LABELS && NoneOk(results)
    ensures forall l | l in results :: results[l] == UnreferencedVerdict(p, l)
  {
    ghost var none, verdict := (l: Label) => false, UnreferencedVerdicts(p);
    results := Unlaunched(p);
    ghost var absent := results.Keys;
    JudgeNone(none, verdict, results);
    var i := 0;
    while i < |p.launched|
      invariant 0 <= i <= |p.launched|
      invariant Judged(none, verdict, absent, p.launched[..i], [], results)
    {
      var l := p.launched[i];
      assert p.launched[..i+1] == p.launched[..i] + [l];
      var v := Failure(p.initial(l));
      if p.initial(l).Ran? {
        v := v["status" := Text("no-reference")];
      }
      JudgeReject(none, verdict, absent, p.launched[..i], [], results, l, v);
      results := results[l := v];
      i := i + 1;
    }
    assert p.launched[..i] == p.launched;
    JudgedAll(none, verdict, absent, p.launched, [], results);
  }

  /** The per-case body of the measurement loop. */
  method RunCase(p: Plan, norm: Normal) returns (row: CaseRow)
    requires WellFormed(p)
    ensures CaseOutcome(p, norm, row)
    ensures p.self ==> row.reference == if p.initial(BashOs).Ran? then Some(BashOs) else None
    ensures !p.self && External in p.launched && p.initial(External).Ran? ==> row.reference == Some(External)
    ensures !p.self && !(External in p.launched && p.initial(External).Ran?) ==>
      row.reference == if BusyBox in p.launched && p.initial(BusyBox).Ran? then Some(BusyBox) else None
    ensures forall l | l in row.results && IsOk(row.results[l]) ::
      && row.reference.Some? && p.initial(row.reference.value).Ran? && p.initial(l).Ran?
      && norm(p.initial(l).data) == norm(p.initial(row.reference.value).data)
  {
    var reference := Reference(p);
    if reference.None? {
      var results := NoReference(p);
      return CaseRow(None, None, None, results, []);
    }
    var expected := p.initial(reference.value).data;
    var accepted, results := CheckFirst(p, norm, expected);
    if !p.probe.Ran? {
      var probed := if BashOs in accepted then BashOs else reference.value;
      return CaseRow(reference, None, None, results[probed := Failure(p.probe)], []);
    }
    var passes := Passes(p);
    var validation := AtLeastThree(passes);
    row := Measure(p, norm, expected, passes, validation, accepted, results);
    row := row.(reference := reference);
  }

  /** The implementation the case is validated against: the builtin itself, or of the others
      the host's own, and BusyBox only when that one did not run. */
  ghost predicate Chosen(p: Plan, r: Label) {
    p.initial(r).Ran? &&
    if p.self then r == BashOs
    else r in p.launched && r != BashOs && (r == BusyBox ==> !(External in p.launched && p.initial(External).Ran?))
  }

  /** In terms of the launches alone: the first output equals r's, so does the file left by the
      batch, or its output r's that many times over, and no timed run failed. */
  ghost predicate Proven(p: Plan, norm: Normal, r: Label, passes: nat, l: Label)
    requires p.initial(r).Ran?
  {
    && l in p.launched && p.initial(l).Ran? && norm(p.initial(l).data) == norm(p.initial(r).data)
    && p.batch(l).Ran?
    && (if p.hasOutput then norm(p.left(l)) == norm(p.initial(r).data)
        else norm(p.batch(l).data) == norm(Repeat(p.initial(r).data, if passes < 3 then 3 else passes)))
    && forall k | 0 <= k < p.runs :: p.timed(k, l).Ran?
  }

  /** Past calibration a result is ok exactly when it was proven against the implementation
      chosen. */
  lemma OkMeans(p: Plan, norm: Normal, row: CaseRow, r: Label, l: Label)
    requires WellFormed(p) && CaseOutcome(p, norm, row) && p.probe.Ran? && Chosen(p, r)
    ensures row.reference == Some(r) && row.passes.Some? && l in row.results
    ensures IsOk(row.results[l]) <==> Proven(p, norm, r, row.passes.value, l)
  {
    assert l in LABELS;
  }

  lemma OkHasReference(p: Plan, norm: Normal, row: CaseRow, l: Label) returns (r: Label)
    requires WellFormed(p) && CaseOutcome(p, norm, row) && l in row.results && IsOk(row.results[l])
    ensures p.probe.Ran? && row.passes.Some? && Chosen(p, r) && Proven(p, norm, r, row.passes.value, l)
  {
    r := row.reference.value;
    OkMeans(p, norm, row, r, l);
  }

  ghost predicate Says(result: Fields, k: Key, v: Value) {
    k in result && result[k] == v
  }

  lemma OutputMismatchSays(p: Plan, expected: Bytes, actual: Bytes)
    ensures var r := OutputMismatch(p, expected, actual);
      && Says(r, "status", Text("output-mismatch"))
      && Says(r, "expected_sha256", Text(p.digest(expected))) && Says(r, "actual_sha256", Text(p.digest(actual)))
  {
    assert |"expected_sha256"| == 15 && |"actual_sha256"| == 13 && |"status"| == 6;
    assert |"expected_sample_b64"| == 19 && |"actual_sample_b64"| == 17;
  }

  lemma BatchMismatchSays(p: Plan, batch: Launch, wanted: Bytes, actual: Bytes)
    ensures var r := BatchMismatch(p, batch, wanted, actual);
      && Says(r, "status", Text("batch-mismatch"))
      && Says(r, "expected_bytes", Count(|wanted|)) && Says(r, "actual_bytes", Count(|actual|))
      && Says(r, "expected_sha256", Text(p.digest(wanted))) && Says(r, "actual_sha256", Text(p.digest(actual)))
  {
    assert |"expected_bytes"| == 14 && |"actual_bytes"| == 12 && |"expected_sha256"| == 15 && |"actual_sha256"| == 13;
    assert |"status"| == 6 && |"stderr"| == 6 && "status"[2] == 'a' && "stderr"[2] == 'd';
  }

  lemma FirstVerdictSays(p: Plan, expected: Bytes, l: Label)
    ensures var v := FirstVerdict(p, expected, l);
      if l !in p.launched then v == map["status" := Text(if p.self then "not-applicable" else "unavailable")]
      else match p.initial(l)
        case Timeout => v == map["status" := Text("timeout")]
        case Failed(code, err) =>
          Says(v, "status", Text("error")) && Says(v, "returncode", Count(code)) && Says(v, "stderr", Text(err))
        case Ran(_, data, _) =>
          && Says(v, "status", Text("output-mismatch"))
          && Says(v, "expected_sha256", Text(p.digest(expected))) && Says(v, "actual_sha256", Text(p.digest(data)))
  {
    if p.initial(l).Ran? {
      OutputMismatchSays(p, expected, p.initial(l).data);
    }
    assert |"status"| == 6 && |"stderr"| == 6 && "status"[2] == 'a' && "stderr"[2] == 'd' && |"returncode"| == 10;
  }

  /** The result of an implementation that was not launched, or whose first launch failed or
      gave another output than r, is the verdict on that. */
  lemma FirstFailureIs(p: Plan, norm: Normal, row: CaseRow, r: Label, l: Label)
    requires WellFormed(p) && CaseOutcome(p, norm, row) && p.probe.Ran? && Chosen(p, r)
    requires !(l in p.launched && p.initial(l).Ran? && norm(p.initial(l).data) == norm(p.initial(r).data))
    ensures l in row.results && row.results[l] == FirstVerdict(p, p.initial(r).data, l)
  {
    OkMeans(p, norm, row, r, l);
    assert l in LABELS;
  }

  /** The result of one whose batch alone differed has the sizes and digests of both. */
  lemma BatchFailureIs(p: Plan, norm: Normal, row: CaseRow, r: Label, l: Label)
    requires WellFormed(p) && CaseOutcome(p, norm, row) && p.probe.Ran? && Chosen(p, r)
    requires l in p.launched && p.initial(l).Ran? && norm(p.initial(l).data) == norm(p.initial(r).data)
    ensures row.passes.Some? && l in row.results
    ensures var expected, n := p.initial(r).data, if row.passes.value < 3 then 3 else row.passes.value;
      var wanted := if p.hasOutput then expected else Repeat(expected, n);
      var actual := if p.hasOutput then p.left(l) else if p.batch(l).Ran? then p.batch(l).data else [];
      !(p.batch(l).Ran? && norm(actual) == norm(wanted)) ==>
        row.results[l] == BatchMismatch(p, p.batch(l), wanted, actual)
  {
    OkMeans(p, norm, row, r, l);
    assert l in LABELS;
  }

  /** The figures of an ok result are those of all its timed runs, in the order they ran. */
  lemma OkFigures(p: Plan, norm: Normal, row: CaseRow, l: Label)
    requires WellFormed(p) && CaseOutcome(p, norm, row) && l in row.results && IsOk(row.results[l])
    ensures var t, r := Times(p.timed, l, p.runs), row.results[l];
      && |t| == p.runs && (forall k | 0 <= k < p.runs :: p.timed(k, l).Ran? && t[k] == p.timed(k, l).ms)
      && r.Keys == {"status", "median_ms", "min_ms", "max_ms", "runs_ms"}
      && r["median_ms"] == Num(Round3(Median(t))) && r["min_ms"] == Num(Round3(Min(t)))
      && r["max_ms"] == Num(Round3(Max(t))) && r["runs_ms"] == Nums(RoundAll(t))
  {
    OkWasTimed(p, norm, row, l);
    TimesInOrder(p.timed, l, p.runs);
    TimingsFields(Times(p.timed, l, p.runs));
  }

  lemma OkWasTimed(p: Plan, norm: Normal, row: CaseRow, l: Label)
    requires WellFormed(p) && CaseOutcome(p, norm, row) && l in row.results && IsOk(row.results[l])
    ensures AllRan(p.timed, l, p.runs) && Concluded(p, l, row.results[l])
  {
    assert l in LABELS;
  }

  lemma {:induction false} TimesInOrder(timed: (nat, Label) -> Launch, l: Label, n: nat)
    requires AllRan(timed, l, n)
    ensures |Times(timed, l, n)| == n && forall k | 0 <= k < n :: Times(timed, l, n)[k] == timed(k, l).ms
  {
    if n > 0 {
      TimesInOrder(timed, l, n - 1);
    }
  }

  /** Without an output to compare with, or without a calibrated batch, nothing is ok and
      nothing is timed. */
  lemma NothingToCompare(p: Plan, norm: Normal, row: CaseRow)
    requires WellFormed(p) && CaseOutcome(p, norm, row)
    requires p.probe.Ran? ==> forall r: Label :: !Chosen(p, r)
    ensures row.passes.None? && row.attempts == [] && forall l | l in row.results :: !IsOk(row.results[l])
  {
    assert p.probe.Ran? ==> forall r: Label :: row.reference == Some(r) ==> Chosen(p, r);
  }

  /** Batches, timed rounds and medians for the accepted implementations. */
  method Measure(p: Plan, norm: Normal, expected: Bytes, passes: nat, validation: nat,
                 accepted0: seq<Label>, results0: map<Label, Fields>)
    returns (row: CaseRow)
    requires WellFormed(p) && passes > 0 && validation == AtLeastThree(passes)
    requires Distinct(accepted0) && NoneOk(results0)
    requires forall l :: l in accepted0 <==> l in p.launched && FirstMatches(p, norm, expected, l)
    requires results0.Keys == LABELS - set l | l in accepted0
    requires forall l | l in results0 :: results0[l] == FirstVerdict(p, expected, l)
    ensures MeasuredCase(p, norm, expected, validation, row)
    ensures row.passes == Some(passes) && row.validationPasses == Some(validation)
  {
    var accepted, results1 := CheckBatches(p, norm, expected, validation, accepted0, results0);
    var samples, results2, attempts := TimeRounds(p, accepted, results1);
    var results := Conclude(p, accepted, samples, results2);
    row := CaseRow(None, Some(passes), Some(validation), results, attempts);
    VerdictsAreComplete(p, norm, expected, validation, accepted0, accepted, results0, results1, results2, results);
  }

  lemma VerdictsAreComplete(p: Plan, norm: Normal, expected: Bytes, validation: nat, accepted0: seq<Label>,
                            accepted: seq<Label>, results0: map<Label, Fields>, results1: map<Label, Fields>,
                            results2: map<Label, Fields>, results: map<Label, Fields>)
    requires WellFormed(p)
    requires forall l :: l in accepted0 <==> l in p.launched && FirstMatches(p, norm, expected, l)
    requires forall l :: l in accepted <==> l in accepted0 && BatchMatches(p, norm, expected, validation, l)
    requires results0.Keys == LABELS - set l | l in accepted0
    requires forall l | l in results0 :: results0[l] == FirstVerdict(p, expected, l)
    requires forall l :: l in results1 <==> l in results0 || (l in accepted0 && l !in accepted)
    requires forall l | l in results1 ::
      results1[l] == (if l in results0 then results0[l] else BatchVerdict(p, expected, validation, l))
    requires results2.Keys == results1.Keys + Failing(p.timed, accepted, p.runs) && NoneOk(results2)
    requires FailuresAt(p.timed, accepted, results1, results2, p.runs)
    requires ConcludedAll(p, accepted, results2, results)
    ensures results.Keys == LABELS
    ensures forall l | l in LABELS :: IsOk(results[l]) <==> l in p.launched && Earned(p, norm, expected, validation, l)
    ensures forall l | l in LABELS && IsOk(results[l]) :: Concluded(p, l, results[l])
    ensures forall l | l in LABELS && !IsOk(results[l]) :: results[l] == FinalVerdict(p, norm, expected, validation, l)
  {
    forall l
      ensures l in results <==> l in LABELS
      ensures l in LABELS && l in results ==>
        (IsOk(results[l]) <==> l in p.launched && Earned(p, norm, expected, validation, l))
      ensures l in LABELS && l in results && IsOk(results[l]) ==> Concluded(p, l, results[l])
      ensures l in LABELS && l in results && !IsOk(results[l]) ==>
        results[l] == FinalVerdict(p, norm, expected, validation, l)
    {
      VerdictAt(p, norm, expected, validation, accepted0, accepted, results0, results1, results2, results, l);
    }
  }

  lemma VerdictAt(p: Plan, norm: Normal, expected: Bytes, validation: nat, accepted0: seq<Label>,
                  accepted: seq<Label>, results0: map<Label, Fields>, results1: map<Label, Fields>,
                  results2: map<Label, Fields>, results: map<Label, Fields>, l: Label)
    requires WellFormed(p)
    requires l in accepted0 <==> l in p.launched && FirstMatches(p, norm, expected, l)
    requires l in accepted <==> l in accepted0 && BatchMatches(p, norm, expected, validation, l)
    requires l in results0 <==> l in LABELS && l !in accepted0
    requires l in results0 ==> results0[l] == FirstVerdict(p, expected, l)
    requires l in results1 <==> l in results0 || (l in accepted0 && l !in accepted)
    requires l in results1 ==>
      results1[l] == (if l in results0 then results0[l] else BatchVerdict(p, expected, validation, l))
    requires l in results2 <==> l in results1 || (l in accepted && !AllRan(p.timed, l, p.runs))
    requires l in results2 ==> !IsOk(results2[l])
    requires FailuresAt(p.timed, accepted, results1, results2, p.runs)
    requires ConcludedAll(p, accepted, results2, results)
    ensures l in results <==> l in LABELS
    ensures l in results ==> (IsOk(results[l]) <==> l in p.launched && Earned(p, norm, expected, validation, l))
    ensures l in results && IsOk(results[l]) ==> Concluded(p, l, results[l])
    ensures l in results && !IsOk(results[l]) ==> results[l] == FinalVerdict(p, norm, expected, validation, l)
  {
    assert SettledAt(RanAll(p), ConcludedBy(p), accepted, results2, results, l);
  }
}

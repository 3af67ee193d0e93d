/** Runs of equally owned bytes, the span listing, and the coloured rendering read back
    by a terminal. */
module Rendering {
  import opened ByteStrings
  import Highlight

  type Name = Bytes
  type Owner = seq<Option<Name>>

  datatype Run = Run(start: nat, end: nat, name: Option<Name>)

  // ---- Runs --------------------------------------------------------------------------

  /** Where the run containing `start` ends, looking from `e`. */
  function RunEnd(owner: Owner, start: nat, e: nat): (end: nat)
    requires start < e <= |owner|
    ensures e <= end <= |owner|
    decreases |owner| - e
  {
    if e < |owner| && owner[e] == owner[start] then RunEnd(owner, start, e + 1) else e
  }

  function RunsFrom(owner: Owner, start: nat): seq<Run>
    requires start <= |owner|
    decreases |owner| - start
  {
    if start == |owner| then [] else
    var end := RunEnd(owner, start, start + 1);
    [Run(start, end, owner[start])] + RunsFrom(owner, end)
  }

  /** runs_of: two nested loops over the owner list. */
  method RunsOf(owner: Owner) returns (runs: seq<Run>)
    ensures runs == RunsFrom(owner, 0)
  {
    runs := [];
    var b := 0;
    while b < |owner|
      invariant 0 <= b <= |owner|
      invariant RunsFrom(owner, 0) == runs + RunsFrom(owner, b)
    {
      var e := b + 1;
      while e < |owner| && owner[e] == owner[b]
        invariant b < e <= |owner| && RunEnd(owner, b, b + 1) == RunEnd(owner, b, e)
      {
        e := e + 1;
      }
      Assoc(runs, [Run(b, e, owner[b])], RunsFrom(owner, e));
      runs := runs + [Run(b, e, owner[b])];
      b := e;
    }
    assert runs + [] == runs;
  }

  /** Runs that cover [start, n) back to back, each of one owner, neighbours differing. */
  ghost predicate Partition(owner: Owner, runs: seq<Run>, start: nat) {
    if runs == [] then start == |owner|
    else
      && runs[0].start == start && start < runs[0].end <= |owner|
      && (forall i | start <= i < runs[0].end :: owner[i] == runs[0].name)
      && (|runs| > 1 ==> runs[1].name != runs[0].name)
      && Partition(owner, runs[1..], runs[0].end)
  }

  lemma {:induction false} RunEndIsMaximal(owner: Owner, start: nat, e: nat)
    requires start < e <= |owner| && forall i | start <= i < e :: owner[i] == owner[start]
    ensures var end := RunEnd(owner, start, e);
      && (forall i | start <= i < end :: owner[i] == owner[start])
      && (end < |owner| ==> owner[end] != owner[start])
    decreases |owner| - e
  {
    if e < |owner| && owner[e] == owner[start] {
      RunEndIsMaximal(owner, start, e + 1);
    }
  }

  /** The runs partition the owner map and no two neighbours have the same owner. */
  lemma {:induction false} RunsPartition(owner: Owner, start: nat)
    requires start <= |owner|
    ensures Partition(owner, RunsFrom(owner, start), start)
    decreases |owner| - start
  {
    if start < |owner| {
      var end := RunEnd(owner, start, start + 1);
      RunEndIsMaximal(owner, start, start + 1);
      RunsPartition(owner, end);
      assert RunsFrom(owner, start)[1..] == RunsFrom(owner, end);
    }
  }

  // ---- Spans -------------------------------------------------------------------------

  datatype Span = Span(start: nat, end: nat, code: Bytes, name: Name)

  type Codes = map<Name, Bytes>

  /** Every owner has a code. Neither may be empty: the source takes an empty one for none. */
  ghost predicate Coded(codes: Codes, owner: Owner) {
    forall i | 0 <= i < |owner| && owner[i].Some? ::
      owner[i].value != [] && owner[i].value in codes && codes[owner[i].value] != []
  }

  function SpansOf(codes: Codes, runs: seq<Run>): seq<Span>
    requires forall r | r in runs && r.name.Some? :: r.name.value in codes
  {
    if runs == [] then []
    else (if runs[0].name.Some?
          then [Span(runs[0].start, runs[0].end, codes[runs[0].name.value], runs[0].name.value)] else [])
         + SpansOf(codes, runs[1..])
  }

  /** The owner map a span list stands for: its name inside a span, none elsewhere. */
  ghost predicate Rebuilds(spans: seq<Span>, owner: Owner, start: nat) {
    forall i | start <= i < |owner| ::
      owner[i] == None <==> forall s | s in spans :: !(s.start <= i < s.end)
  }

  ghost predicate Names(codes: Codes, spans: seq<Span>, owner: Owner) {
    forall s | s in spans :: s.start < s.end <= |owner| && s.name in codes && s.code == codes[s.name]
      && forall i | s.start <= i < s.end :: owner[i] == Some(s.name)
  }

  lemma {:induction false} SpansRebuild(codes: Codes, owner: Owner, runs: seq<Run>, start: nat)
    requires Partition(owner, runs, start)
    requires forall r | r in runs && r.name.Some? :: r.name.value in codes
    ensures var spans := SpansOf(codes, runs);
      Rebuilds(spans, owner, start) && Names(codes, spans, owner) && forall s | s in spans :: s.start >= start
  {
    if runs != [] {
      SpansRebuild(codes, owner, runs[1..], runs[0].end);
      var rest := SpansOf(codes, runs[1..]);
      var spans := SpansOf(codes, runs);
      forall i | start <= i < |owner|
        ensures owner[i] == None <==> forall s | s in spans :: !(s.start <= i < s.end)
      {
        if i < runs[0].end {
          if runs[0].name.Some? {
            assert spans[0].start <= i < spans[0].end && spans[0] in spans;
          }
        } else {
          assert forall s | s in spans :: s in rest || s.end <= i;
          assert forall s | s in rest :: s in spans;
        }
      }
    }
  }

  const DASH: byte := 45

  /** One line of the span listing: `start-end code name`. */
  function SpanLine(s: Span): Bytes {
    Dec(s.start) + [DASH] + (Dec(s.end) + [SP] + (s.code + [SP] + s.name))
  }

  /** oracle_spans: the owned runs, one to a line. */
  function SpanText(spans: seq<Span>): Bytes {
    if spans == [] then [] else SpanLine(spans[0]) + [LF] + SpanText(spans[1..])
  }

  function ReadSpan(line: Bytes): Option<Span> {
    match Cut(line, DASH)
    case None => None
    case Some(a) =>
      match Cut(a.1, SP)
      case None => None
      case Some(b) =>
        match Cut(b.1, SP)
        case None => None
        case Some(c) =>
          if AllDigits(a.0) && AllDigits(b.0) then Some(Span(DecValue(a.0), DecValue(b.0), c.0, c.1)) else None
  }

  function ReadSpans(text: Bytes): Option<seq<Span>>
    decreases |text|
  {
    if text == [] then Some([]) else
    match Cut(text, LF)
    case None => None
    case Some(c) =>
      match (ReadSpan(c.0), ReadSpans(c.1))
      case (Some(s), Some(rest)) => Some([s] + rest)
      case _ => None
  }

  lemma DigitsHaveNo(n: nat, b: byte)
    requires !IsDigit(b)
    ensures b !in Dec(n) && AllDigits(Dec(n)) && DecValue(Dec(n)) == n
  {
    DecRoundTrip(n);
  }

  lemma SpanLineRoundTrip(s: Span)
    requires SP !in s.code
    ensures ReadSpan(SpanLine(s)) == Some(s)
  {
    DigitsHaveNo(s.start, DASH);
    DigitsHaveNo(s.end, SP);
    CutAt(Dec(s.start), DASH, Dec(s.end) + [SP] + (s.code + [SP] + s.name));
    CutAt(Dec(s.end), SP, s.code + [SP] + s.name);
    CutAt(s.code, SP, s.name);
  }

  lemma SpanLineHasNoNewline(s: Span)
    requires LF !in s.code && LF !in s.name
    ensures LF !in SpanLine(s)
  {
    DigitsHaveNo(s.start, LF);
    DigitsHaveNo(s.end, LF);
  }

  ghost predicate SpanPrintable(s: Span) {
    SP !in s.code && LF !in s.code && LF !in s.name
  }

  /** The listing reads back as the spans it was written from. */
  lemma {:induction false} SpanTextRoundTrip(spans: seq<Span>)
    requires forall i | 0 <= i < |spans| :: SpanPrintable(spans[i])
    ensures ReadSpans(SpanText(spans)) == Some(spans)
  {
    if spans != [] {
      assert SpanPrintable(spans[0]);
      SpanTextRoundTrip(spans[1..]);
      SpanLineRoundTrip(spans[0]);
      SpanLineHasNoNewline(spans[0]);
      ReadSpansNext(SpanLine(spans[0]), SpanText(spans[1..]), spans[0], spans[1..]);
      assert spans == [spans[0]] + spans[1..];
    }
  }

  lemma ReadSpansNext(line: Bytes, rest: Bytes, s: Span, spans: seq<Span>)
    requires LF !in line && ReadSpan(line) == Some(s) && ReadSpans(rest) == Some(spans)
    ensures ReadSpans(line + [LF] + rest) == Some([s] + spans)
  {
    CutAt(line, LF, rest);
  }

  // ---- The terminal --------------------------------------------------------------------

  const ESC: byte := 27
  const RESET_PARAMS: Bytes := [48]
  const RESET: Bytes := Sgr(RESET_PARAMS)

  predicate IsParam(b: byte) {
    IsDigit(b) || b == 59
  }

  predicate IsParams(s: Bytes) {
    forall i | 0 <= i < |s| :: IsParam(s[i])
  }

  function Sgr(params: Bytes): Bytes {
    [ESC, 91] + params + [109]
  }

  function ParamRun(s: Bytes): (k: nat)
    ensures k <= |s|
  {
    if s == [] || !IsParam(s[0]) then 0 else 1 + ParamRun(s[1..])
  }

  /** Length of an SGR sequence at the front, 0 when there is none. */
  function SgrLength(s: Bytes): (k: nat)
    ensures k <= |s| && (k > 0 ==> k >= 3)
  {
    if |s| < 3 || s[0] != ESC || s[1] != 91 then 0 else
    var k := ParamRun(s[2..]);
    if 2 + k < |s| && s[2+k] == 109 then k + 3 else 0
  }

  /** A displayed byte and the attributes in force, oldest first, since the last reset. */
  datatype Cell = Cell(data: byte, attributes: seq<Bytes>)
  datatype Screen = Screen(cells: seq<Cell>, attributes: seq<Bytes>)

  function Apply(attributes: seq<Bytes>, params: Bytes): seq<Bytes> {
    if params == RESET_PARAMS || params == [] then [] else attributes + [params]
  }

  function Display(s: Bytes, attributes: seq<Bytes>): Screen
    decreases |s|
  {
    if s == [] then Screen([], attributes) else
    var k := SgrLength(s);
    if k > 0 then Display(s[k..], Apply(attributes, s[2..k-1]))
    else
      var rest := Display(s[1..], attributes);
      Screen([Cell(s[0], attributes)] + rest.cells, rest.attributes)
  }

  // ---- Rendering -----------------------------------------------------------------------

  /** The escapes between two neighbouring bytes: none unless the code changes, and a
      reset before any new code. */
  function Enter(cur: Option<Bytes>, next: Option<Bytes>): Bytes {
    if cur == next then []
    else (if cur.Some? then RESET else []) + (if next.Some? then Sgr(next.value) else [])
  }

  /** The rendering byte by byte, from a terminal showing `cur`. */
  function Rendered(cs: seq<Option<Bytes>>, data: Bytes, cur: Option<Bytes>): Bytes
    requires |cs| == |data|
  {
    if data == [] then Enter(cur, None)
    else Enter(cur, cs[0]) + ([data[0]] + Rendered(cs[1..], data[1..], cs[0]))
  }

  /** ESC [ 0 m ends a code and ESC [ code m starts one; where the code stays nothing is
      written. */
  lemma EnterWrites(cur: Bytes, next: Bytes)
    requires cur != next
    ensures Enter(Some(cur), Some(cur)) == [] == Enter(None, None)
    ensures Enter(None, Some(next)) == [27, 91] + next + [109] && Enter(Some(cur), None) == [27, 91, 48, 109]
    ensures Enter(Some(cur), Some(next)) == [27, 91, 48, 109] + ([27, 91] + next + [109])
  {
    var on := Sgr(next);
    assert RESET == [27, 91, 48, 109];
    assert [] + on == on && RESET + [] == RESET;
  }

  /** Inside a run of one owner there is nothing but the data. */
  lemma {:induction false} RunIsBare(cs: seq<Option<Bytes>>, data: Bytes, cur: Option<Bytes>)
    requires |cs| == |data| && forall i | 0 <= i < |cs| :: cs[i] == cur
    ensures Rendered(cs, data, cur) == data + Enter(cur, None)
  {
    if data == [] {
      assert data + Enter(cur, None) == Enter(cur, None);
    } else {
      RunIsBare(cs[1..], data[1..], cur);
      Assoc([data[0]], data[1..], Enter(cur, None));
      assert data == [data[0]] + data[1..];
      assert Rendered(cs, data, cur) == [] + ([data[0]] + Rendered(cs[1..], data[1..], cur));
    }
  }

  function CodeOf(codes: Codes, o: Option<Name>): Option<Bytes> {
    if o.Some? && o.value in codes then Some(codes[o.value]) else None
  }

  function CodesOf(codes: Codes, owner: Owner): (cs: seq<Option<Bytes>>)
    ensures |cs| == |owner|
  {
    seq(|owner|, i requires 0 <= i < |owner| => CodeOf(codes, owner[i]))
  }

  lemma RenderFirst(cs: seq<Option<Bytes>>, data: Bytes)
    requires |cs| == |data| && data != []
    ensures Rendered(cs, data, cs[0]) == [data[0]] + Rendered(cs[1..], data[1..], cs[0])
  {
    var tail := [data[0]] + Rendered(cs[1..], data[1..], cs[0]);
    assert [] + tail == tail;
  }

  lemma {:induction false} SameStretch(cs: seq<Option<Bytes>>, data: Bytes, k: nat, code: Option<Bytes>)
    requires |cs| == |data| && k <= |cs| && forall i | 0 <= i < k :: cs[i] == code
    ensures Rendered(cs, data, code) == data[..k] + Rendered(cs[k..], data[k..], code)
  {
    if k == 0 {
      assert cs[0..] == cs && data[0..] == data;
    } else {
      var rest, mid := Rendered(cs[k..], data[k..], code), data[1..][..k-1];
      calc {
        Rendered(cs, data, code);
        { RenderFirst(cs, data); }
        [data[0]] + Rendered(cs[1..], data[1..], code);
        { SameStretch(cs[1..], data[1..], k - 1, code);
          assert cs[1..][k-1..] == cs[k..] && data[1..][k-1..] == data[k..]; }
        [data[0]] + (mid + rest);
        { Assoc([data[0]], mid, rest);
          assert data[..k] == [data[0]] + mid; }
        data[..k] + rest;
      }
    }
  }

  /** A stretch of one code costs one change of code. */
  lemma RenderStretch(cs: seq<Option<Bytes>>, data: Bytes, cur: Option<Bytes>, k: nat, code: Option<Bytes>)
    requires |cs| == |data| && 0 < k <= |cs| && forall i | 0 <= i < k :: cs[i] == code
    ensures Rendered(cs, data, cur) == Enter(cur, code) + (data[..k] + Rendered(cs[k..], data[k..], code))
  {
    RenderFirst(cs, data);
    SameStretch(cs, data, k, code);
  }

  /** The escapes written when a run's code differs from the current one. */
  method ChangeCode(out: Bytes, cur: Option<Bytes>, code: Option<Bytes>) returns (out': Bytes)
    ensures out' == out + Enter(cur, code)
  {
    out' := out;
    Assoc(out, if cur.Some? then RESET else [], if code.Some? then Sgr(code.value) else []);
    if code != cur {
      if cur.Some? {
        out' := out' + RESET;
      }
      if code.Some? {
        out' := out' + Sgr(code.value);
      }
    }
  }

  /** oracle_render: one pass over the runs, remembering the current code. */
  method OracleRender(codes: Codes, owner: Owner, data: Bytes) returns (out: Bytes)
    requires |owner| == |data| && Coded(codes, owner)
    ensures out == Rendered(CodesOf(codes, owner), data, None)
  {
    var runs := RunsOf(owner);
    RunsPartition(owner, 0);
    ghost var whole := Rendered(CodesOf(codes, owner), data, None);
    out := [];
    var cur: Option<Bytes> := None;
    var k := 0;
    ghost var at: nat := 0;
    RenderFromStart(codes, owner, data);
    assert runs[0..] == runs;
    assert runs == [] ==> owner == [];
    while k < |runs|
      invariant 0 <= k <= |runs| && at <= |owner| && Partition(owner, runs[k..], at)
      invariant k == |runs| ==> at == |owner|
      invariant out + RenderedFrom(codes, owner, data, at, cur) == whole
    {
      var r := runs[k];
      HeadRun(owner, runs, k, at);
      var code := if r.name.Some? then Some(codes[r.name.value]) else None;
      RenderRun(codes, owner, data, r, cur, out);
      out := ChangeCode(out, cur, code);
      out := out + data[r.start..r.end];
      cur, at, k := code, r.end, k + 1;
    }
    RenderedAtEnd(codes, owner, data, cur);
    if cur.Some? {
      out := out + RESET;
    }
  }

  lemma HeadRun(owner: Owner, runs: seq<Run>, k: nat, at: nat)
    requires k < |runs| && Partition(owner, runs[k..], at)
    ensures var r := runs[k];
      && at == r.start < r.end <= |owner| && owner[at] == r.name && Partition(owner, runs[k+1..], r.end)
      && forall i | r.start <= i < r.end :: owner[i] == r.name
  {
    assert runs[k..][0] == runs[k] && runs[k..][1..] == runs[k+1..];
  }

  lemma RenderedAtEnd(codes: Codes, owner: Owner, data: Bytes, cur: Option<Bytes>)
    requires |owner| == |data|
    ensures RenderedFrom(codes, owner, data, |data|, cur) == (if cur.Some? then RESET else [])
  {
    assert data[|data|..] == [];
    assert RESET + [] == RESET;
  }

  ghost function RenderedFrom(codes: Codes, owner: Owner, data: Bytes, at: nat, cur: Option<Bytes>): Bytes
    requires |owner| == |data| && at <= |data|
  {
    Rendered(CodesOf(codes, owner)[at..], data[at..], cur)
  }

  lemma RenderFromStart(codes: Codes, owner: Owner, data: Bytes)
    requires |owner| == |data|
    ensures RenderedFrom(codes, owner, data, 0, None) == Rendered(CodesOf(codes, owner), data, None)
  {
    var cs := CodesOf(codes, owner);
    assert cs[0..] == cs && data[0..] == data;
  }

  lemma RenderRun(codes: Codes, owner: Owner, data: Bytes, r: Run, cur: Option<Bytes>, out: Bytes)
    requires |owner| == |data| && r.start < r.end <= |owner|
    requires forall i | r.start <= i < r.end :: owner[i] == r.name
    ensures var code := CodeOf(codes, r.name);
      out + RenderedFrom(codes, owner, data, r.start, cur)
      == out + Enter(cur, code) + data[r.start..r.end] + RenderedFrom(codes, owner, data, r.end, code)
  {
    var cs, code, k := CodesOf(codes, owner), CodeOf(codes, r.name), r.end - r.start;
    var cs', data' := cs[r.start..], data[r.start..];
    RenderStretch(cs', data', cur, k, code);
    assert cs'[k..] == cs[r.end..] && data'[k..] == data[r.end..] && data'[..k] == data[r.start..r.end];
    var rest := Rendered(cs[r.end..], data[r.end..], code);
    Assoc(out, Enter(cur, code), data'[..k] + rest);
    Assoc(out + Enter(cur, code), data'[..k], rest);
  }

  // ---- What a terminal shows -------------------------------------------------------------

  lemma {:induction false} ParamRunOf(p: Bytes, x: Bytes)
    requires IsParams(p) && (x == [] || !IsParam(x[0]))
    ensures ParamRun(p + x) == |p|
  {
    if p != [] {
      ParamRunOf(p[1..], x);
      assert (p + x)[1..] == p[1..] + x;
    } else {
      assert p + x == x;
    }
  }

  lemma {:induction false} ParamRunExtends(p: Bytes, x: Bytes)
    requires ParamRun(p) < |p| || x == [] || !IsParam(x[0])
    ensures ParamRun(p + x) == ParamRun(p)
  {
    if p == [] {
      assert p + x == x;
    } else if IsParam(p[0]) {
      ParamRunExtends(p[1..], x);
      assert (p + x)[1..] == p[1..] + x;
    }
  }

  lemma DisplaySgr(p: Bytes, rest: Bytes, attributes: seq<Bytes>)
    requires IsParams(p)
    ensures Display(Sgr(p) + rest, attributes) == Display(rest, Apply(attributes, p))
  {
    var s := Sgr(p) + rest;
    ParamRunOf(p, [109] + rest);
    assert s[2..] == p + ([109] + rest);
    assert s[|p|+3..] == rest && s[2..|p|+2] == p;
  }

  predicate GoodCode(c: Option<Bytes>) {
    c.Some? ==> IsParams(c.value) && c.value != [] && c.value != RESET_PARAMS
  }

  /** The attributes in force while a code is shown. */
  function Shown(c: Option<Bytes>): seq<Bytes> {
    if c.Some? then [c.value] else []
  }

  /** A change of code leaves exactly the new code in force; the reset makes the old one
      go away. */
  lemma DisplayEnter(cur: Option<Bytes>, next: Option<Bytes>, rest: Bytes)
    requires GoodCode(cur) && GoodCode(next)
    ensures Display(Enter(cur, next) + rest, Shown(cur)) == Display(rest, Shown(next))
  {
    EnterConsumed(cur, next, rest, Shown(cur));
    assert AfterEnter(cur, next, Shown(cur)) == Shown(next) by {
      assert next.Some? ==> [] + [next.value] == [next.value];
    }
  }

  function AfterEnter(cur: Option<Bytes>, next: Option<Bytes>, attributes: seq<Bytes>): seq<Bytes> {
    if cur == next then attributes else
    var reset := if cur.Some? then Apply(attributes, RESET_PARAMS) else attributes;
    if next.Some? then Apply(reset, next.value) else reset
  }

  lemma EnterConsumed(cur: Option<Bytes>, next: Option<Bytes>, rest: Bytes, attributes: seq<Bytes>)
    requires GoodCode(cur) && GoodCode(next)
    ensures Display(Enter(cur, next) + rest, attributes) == Display(rest, AfterEnter(cur, next, attributes))
  {
    if cur == next {
      assert Enter(cur, next) + rest == rest;
    } else {
      var a := if cur.Some? then RESET else [];
      var b := if next.Some? then Sgr(next.value) else [];
      Assoc(a, b, rest);
      assert b == [] ==> b + rest == rest;
      assert a == [] ==> a + (b + rest) == b + rest;
      if cur.Some? {
        DisplaySgr(RESET_PARAMS, b + rest, attributes);
      }
      if next.Some? {
        DisplaySgr(next.value, rest, if cur.Some? then [] else attributes);
      }
    }
  }

  // An SGR sequence cannot run across an escape.

  lemma SgrStopsAtEscape(seg: Bytes, x: Bytes)
    requires seg != [] && (x == [] || x[0] == ESC)
    ensures SgrLength(seg + x) == SgrLength(seg)
  {
    var s := seg + x;
    if |seg| >= 2 {
      assert s[2..] == seg[2..] + x;
      ParamRunExtends(seg[2..], x);
    }
  }

  /** How many bytes at the front share the first byte's code. */
  function Stretch(cs: seq<Option<Bytes>>): (k: nat)
    requires cs != []
    ensures 0 < k <= |cs| && forall i | 0 <= i < k :: cs[i] == cs[0]
    ensures k < |cs| ==> cs[k] != cs[0]
  {
    if |cs| == 1 || cs[1] != cs[0] then 1 else 1 + Stretch(cs[1..])
  }

  /** The data itself has an SGR sequence here, all of it shown in one code, so that
      nothing written between its bytes breaks it up. */
  predicate Hidden(cs: seq<Option<Bytes>>, data: Bytes)
    requires |cs| == |data| && data != []
  {
    SgrLength(data[..Stretch(cs)]) > 0
  }

  predicate Clear(cs: seq<Option<Bytes>>, data: Bytes)
    requires |cs| == |data|
  {
    data == [] || (!Hidden(cs, data) && Clear(cs[1..], data[1..]))
  }

  ghost predicate GoodCodes(cs: seq<Option<Bytes>>) {
    forall i | 0 <= i < |cs| :: GoodCode(cs[i])
  }

  lemma EnterStartsWithEscape(cur: Option<Bytes>, next: Option<Bytes>)
    requires cur != next
    ensures Enter(cur, next) != [] && Enter(cur, next)[0] == ESC
  {}

  lemma RestStartsWithEscape(cs: seq<Option<Bytes>>, data: Bytes, cur: Option<Bytes>)
    requires |cs| == |data| && (cs != [] ==> cs[0] != cur)
    ensures Rendered(cs, data, cur) == [] || Rendered(cs, data, cur)[0] == ESC
  {
    if cs == [] {
      if cur.Some? {
        EnterStartsWithEscape(cur, None);
      }
    } else {
      EnterStartsWithEscape(cur, cs[0]);
    }
  }

  /** Bytes already in the right code come out first, as they are. */
  lemma SameCode(cs: seq<Option<Bytes>>, data: Bytes, k: nat)
    requires |cs| == |data| && 0 < k <= |cs| && forall i | 0 <= i < k :: cs[i] == cs[0]
    ensures Rendered(cs, data, cs[0]) == data[..k] + Rendered(cs[k..], data[k..], cs[0])
    ensures Rendered(cs, data, cs[0]) == [data[0]] + Rendered(cs[1..], data[1..], cs[0])
  {
    SameStretch(cs, data, k, cs[0]);
    RenderFirst(cs, data);
  }

  lemma FrontSequence(cs: seq<Option<Bytes>>, data: Bytes)
    requires |cs| == |data| && data != []
    ensures SgrLength(Rendered(cs, data, cs[0])) == SgrLength(data[..Stretch(cs)])
  {
    var k := Stretch(cs);
    SameCode(cs, data, k);
    RestStartsWithEscape(cs[k..], data[k..], cs[0]);
    SgrStopsAtEscape(data[..k], Rendered(cs[k..], data[k..], cs[0]));
  }

  function Cells(cs: seq<Option<Bytes>>, data: Bytes): (r: seq<Cell>)
    requires |cs| == |data|
    ensures |r| == |data|
  {
    seq(|data|, i requires 0 <= i < |data| => Cell(data[i], Shown(cs[i])))
  }

  lemma FrontShown(cs: seq<Option<Bytes>>, data: Bytes, cur: Option<Bytes>)
    requires |cs| == |data| && data != [] && GoodCode(cur) && GoodCodes(cs) && !Hidden(cs, data)
    ensures var rest := Display(Rendered(cs[1..], data[1..], cs[0]), Shown(cs[0]));
      Display(Rendered(cs, data, cur), Shown(cur))
      == Screen([Cell(data[0], Shown(cs[0]))] + rest.cells, rest.attributes)
  {
    var out := Rendered(cs, data, cs[0]);
    SameCode(cs, data, 1);
    DisplayEnter(cur, cs[0], out);
    FrontSequence(cs, data);
    assert out[1..] == Rendered(cs[1..], data[1..], cs[0]);
  }

  lemma CellsCons(cs: seq<Option<Bytes>>, data: Bytes)
    requires |cs| == |data| && data != []
    ensures Cells(cs, data) == [Cell(data[0], Shown(cs[0]))] + Cells(cs[1..], data[1..])
  {}

  lemma {:induction false} ClearDisplays(cs: seq<Option<Bytes>>, data: Bytes, cur: Option<Bytes>)
    requires |cs| == |data| && GoodCode(cur) && GoodCodes(cs) && Clear(cs, data)
    ensures Display(Rendered(cs, data, cur), Shown(cur)) == Screen(Cells(cs, data), [])
  {
    if data == [] {
      DisplayEnter(cur, None, []);
      assert Enter(cur, None) + [] == Enter(cur, None);
    } else {
      FrontShown(cs, data, cur);
      ClearDisplays(cs[1..], data[1..], cs[0]);
      CellsCons(cs, data);
    }
  }

  /** The first byte's share of the display: it is shown and `skip` is 1, or it starts a
      hidden sequence of `skip` bytes of which nothing is shown. */
  lemma FrontShare(cs: seq<Option<Bytes>>, data: Bytes, cur: Option<Bytes>, attributes: seq<Bytes>)
    returns (skip: nat, after: seq<Bytes>)
    requires |cs| == |data| && data != [] && GoodCode(cur) && GoodCodes(cs)
    ensures 0 < skip <= |data| && (!Hidden(cs, data) ==> skip == 1)
    ensures |Display(Rendered(cs, data, cur), attributes).cells|
         == |Display(Rendered(cs[skip..], data[skip..], cs[0]), after).cells| + (if Hidden(cs, data) then 0 else 1)
  {
    var out := Rendered(cs, data, cs[0]);
    var now := AfterEnter(cur, cs[0], attributes);
    EnterRendered(cs, data, cur);
    EnterConsumed(cur, cs[0], out, attributes);
    FrontSequence(cs, data);
    skip := if Hidden(cs, data) then SgrLength(out) else 1;
    HiddenSkipped(cs, data, skip);
    after := DisplayStep(out, now);
  }

  lemma EnterRendered(cs: seq<Option<Bytes>>, data: Bytes, cur: Option<Bytes>)
    requires |cs| == |data| && data != []
    ensures Rendered(cs, data, cur) == Enter(cur, cs[0]) + Rendered(cs, data, cs[0])
    ensures Rendered(cs, data, cs[0]) != []
  {
    SameCode(cs, data, 1);
  }

  lemma DisplayStep(out: Bytes, attributes: seq<Bytes>) returns (after: seq<Bytes>)
    requires out != []
    ensures var k := SgrLength(out);
      |Display(out, attributes).cells|
      == |Display(out[(if k > 0 then k else 1)..], after).cells| + (if k > 0 then 0 else 1)
  {
    var k := SgrLength(out);
    after := if k > 0 then Apply(attributes, out[2..k-1]) else attributes;
  }

  /** However it is read, the rendering never shows more bytes than the data has, and
      shows fewer as soon as the data hides a sequence. */
  lemma {:induction false} CellsAtMost(cs: seq<Option<Bytes>>, data: Bytes, cur: Option<Bytes>, attributes: seq<Bytes>)
    requires |cs| == |data| && GoodCode(cur) && GoodCodes(cs)
    ensures |Display(Rendered(cs, data, cur), attributes).cells| <= |data|
    ensures !Clear(cs, data) ==> |Display(Rendered(cs, data, cur), attributes).cells| < |data|
    decreases |data|
  {
    if data == [] {
      EnterConsumed(cur, None, [], attributes);
      assert Enter(cur, None) + [] == Enter(cur, None);
    } else {
      var skip, after := FrontShare(cs, data, cur, attributes);
      CellsAtMost(cs[skip..], data[skip..], cs[0], after);
    }
  }

  lemma HiddenSkipped(cs: seq<Option<Bytes>>, data: Bytes, k: nat)
    requires |cs| == |data| && data != [] && 0 < k <= Stretch(cs)
    ensures k <= |Rendered(cs, data, cs[0])|
    ensures Rendered(cs, data, cs[0])[k..] == Rendered(cs[k..], data[k..], cs[0])
  {
    SameCode(cs, data, k);
  }

  /** A terminal shows every data byte in exactly its owner's code, and ends reset, if and
      only if the data hides no SGR sequence inside a stretch of one code. */
  lemma RenderingShowsOwners(cs: seq<Option<Bytes>>, data: Bytes)
    requires |cs| == |data| && GoodCodes(cs)
    ensures Display(Rendered(cs, data, None), []) == Screen(Cells(cs, data), []) <==> Clear(cs, data)
  {
    if Clear(cs, data) {
      ClearDisplays(cs, data, None);
    } else {
      CellsAtMost(cs, data, None, []);
    }
  }

  function Strip(s: Bytes): Bytes {
    var cells := Display(s, []).cells;
    seq(|cells|, i requires 0 <= i < |cells| => cells[i].data)
  }

  /** Stripping the escapes gives the data back under the same condition. */
  lemma StripRendering(cs: seq<Option<Bytes>>, data: Bytes)
    requires |cs| == |data| && GoodCodes(cs)
    ensures Strip(Rendered(cs, data, None)) == data <==> Clear(cs, data)
  {
    if Clear(cs, data) {
      ClearDisplays(cs, data, None);
    } else {
      CellsAtMost(cs, data, None, []);
    }
  }

  lemma {:induction false} NoEscapeIsClear(cs: seq<Option<Bytes>>, data: Bytes)
    requires |cs| == |data| && ESC !in data
    ensures Clear(cs, data)
  {
    if data != [] {
      NoEscapeIsClear(cs[1..], data[1..]);
    }
  }

  // ---- From captures to the screen ---------------------------------------------------------

  /** Every capture lies in the data, and its name has a rank and a code of its own. */
  ghost predicate Renderable(order: Highlight.Order, codes: Codes, caps: seq<Highlight.Capture>, length: nat) {
    forall c | c in caps ::
      c.end <= length && c.name != [] && c.name in order && c.name in codes && GoodCode(Some(codes[c.name]))
  }

  /** Resolving captures and rendering the result: a terminal shows every byte of clear data
      in the code of the most specific capture covering it, or in none. */
  method RenderCaptures(order: Highlight.Order, codes: Codes, caps: seq<Highlight.Capture>, data: Bytes)
    returns (owner: Owner, out: Bytes)
    requires Renderable(order, codes, caps, |data|)
    ensures |owner| == |data| && Highlight.Owners(order, caps, owner)
    ensures out == Rendered(CodesOf(codes, owner), data, None)
    ensures var cs := CodesOf(codes, owner);
      Display(out, []) == Screen(Cells(cs, data), []) <==> Clear(cs, data)
  {
    owner := Highlight.OracleOwner(order, caps, |data|);
    forall i | 0 <= i < |owner| && owner[i].Some?
      ensures exists c | c in caps :: c.name == owner[i].value
    {
      assert Highlight.ResolvesAt(order, caps, i, owner[i]);
    }
    out := OracleRender(codes, owner, data);
    RenderingShowsOwners(CodesOf(codes, owner), data);
  }
}

/** The four ways outputs are compared, and what comparing a batch with copies of one output
    can tell: whether some of the copies are missing. */
module Normalize {
  import opened BatchReader
  import opened ByteStrings
  import opened Publish
  import opened Sorting
  import opened Validate

  datatype Mode = Exact | Fields | Lines | Digest

  // ---- Python's bytes.splitlines() -------------------------------------------------------

  predicate IsEnd(b: byte) {
    b == LF || b == CR
  }

  /** The first line without its end, and what follows; CR LF is one end. */
  function TakeLine(s: Bytes): (t: (Bytes, Bytes))
    requires s != []
    ensures |t.1| < |s|
  {
    if s[0] == LF then ([], s[1..])
    else if s[0] == CR then ([], if |s| > 1 && s[1] == LF then s[2..] else s[1..])
    else if |s| == 1 then (s, [])
    else
      var t := TakeLine(s[1..]);
      ([s[0]] + t.0, t.1)
  }

  function SplitLines(s: Bytes): seq<Bytes>
    decreases |s|
  {
    if s == [] then [] else [TakeLine(s).0] + SplitLines(TakeLine(s).1)
  }

  // ---- The normalizer ----------------------------------------------------------------------

  function ByBytes(): (Bytes, Bytes) -> bool {
    (a: Bytes, b: Bytes) => Leq(a, b)
  }

  /** The first field of a line, nothing for a blank one. */
  function FirstField(line: Bytes): Bytes {
    var fields := Split(line);
    if fields == [] then [] else fields[0]
  }

  function FirstFields(lines: seq<Bytes>): (r: seq<Bytes>)
    ensures |r| == |lines|
  {
    seq(|lines|, i requires 0 <= i < |lines| => FirstField(lines[i]))
  }

  function Normalized(data: Bytes, mode: Mode): seq<Bytes> {
    match mode
    case Exact => [data]
    case Fields => Split(data)
    case Lines => Sort(SplitLines(data), ByBytes())
    case Digest => FirstFields(SplitLines(data))
  }

  // ---- What a mode compares ------------------------------------------------------------------

  /** Sorted lines are the same exactly when the lines are, each as often. */
  lemma LinesIgnoreOrder(a: Bytes, b: Bytes)
    ensures Normalized(a, Lines) == Normalized(b, Lines) <==> multiset(SplitLines(a)) == multiset(SplitLines(b))
  {
    var x, y := SplitLines(a), SplitLines(b);
    LeqIsTotalOrder();
    SortElements(x, ByBytes());
    SortElements(y, ByBytes());
    SortSorts(x, ByBytes());
    SortSorts(y, ByBytes());
    if multiset(x) == multiset(y) {
      SortedIsUnique(Sort(x, ByBytes()), Sort(y, ByBytes()), ByBytes());
    }
  }

  /** The fields of a text: after whitespace the first up to the next, then those of the rest. */
  lemma {:induction false} FieldsOfText(gap: Bytes, word: Bytes, rest: Bytes)
    requires forall i | 0 <= i < |gap| :: gap[i] == 32 || 9 <= gap[i] <= 13
    requires word != [] && forall i | 0 <= i < |word| :: word[i] != 32 && !(9 <= word[i] <= 13)
    requires rest == [] || rest[0] == 32 || 9 <= rest[0] <= 13
    ensures Split(gap + word + rest) == [word] + Split(rest)
  {
    var s := gap + word + rest;
    if gap == [] {
      assert s == word + rest;
      WordOf(word, rest);
      assert s[|word|..] == rest;
    } else {
      FieldsOfText(gap[1..], word, rest);
      assert s[1..] == gap[1..] + word + rest;
    }
  }

  /** A line ends with LF, with CR, with both, or with the text. */
  predicate IsLineEnd(line: Bytes, end: Bytes, rest: Bytes) {
    || end == [10] || end == [13, 10]
    || (end == [13] && (rest == [] || rest[0] != 10))
    || (end == [] && rest == [] && line != [])
  }

  lemma {:induction false} FirstLineIs(line: Bytes, end: Bytes, rest: Bytes)
    requires (forall i | 0 <= i < |line| :: !IsEnd(line[i])) && IsLineEnd(line, end, rest)
    ensures TakeLine(line + end + rest) == (line, rest)
  {
    var s := line + end + rest;
    if line == [] {
      assert s == end + rest;
    } else {
      var tail := line[1..] + end + rest;
      assert s[1..] == tail && line == [line[0]] + line[1..];
      if tail == [] {
        assert end == [] && rest == [] && s == line;
      } else {
        FirstLineIs(line[1..], end, rest);
      }
    }
  }

  /** The lines of a text: the first up to its end, then those of what follows the end. */
  lemma LinesOfText(line: Bytes, end: Bytes, rest: Bytes)
    requires (forall i | 0 <= i < |line| :: line[i] != 10 && line[i] != 13) && IsLineEnd(line, end, rest)
    ensures SplitLines(line + end + rest) == [line] + SplitLines(rest)
  {
    FirstLineIs(line, end, rest);
  }

  /** A digest listing keeps the first field of every line, and nothing of a blank one. */
  lemma DigestOfText(line: Bytes, end: Bytes, rest: Bytes)
    requires (forall i | 0 <= i < |line| :: line[i] != 10 && line[i] != 13) && IsLineEnd(line, end, rest)
    ensures var first := Split(line);
      Normalized(line + end + rest, Digest) == [if first == [] then [] else first[0]] + Normalized(rest, Digest)
  {
    LinesOfText(line, end, rest);
    FirstFieldsCons(line, SplitLines(rest));
  }

  lemma FirstFieldsCons(line: Bytes, rest: seq<Bytes>)
    ensures FirstFields([line] + rest) == [FirstField(line)] + FirstFields(rest)
  {}

  // ---- Counting bytes --------------------------------------------------------------------------

  function Tally(s: Bytes, p: byte -> bool): nat {
    if s == [] then 0 else (if p(s[0]) then 1 else 0) + Tally(s[1..], p)
  }

  lemma {:induction false} TallyAppend(a: Bytes, b: Bytes, p: byte -> bool)
    ensures Tally(a + b, p) == Tally(a, p) + Tally(b, p)
  {
    if a == [] {
      assert a + b == b;
    } else {
      TallyAppend(a[1..], b, p);
      assert (a + b)[1..] == a[1..] + b;
    }
  }

  lemma {:induction false} TallyNone(s: Bytes, p: byte -> bool)
    ensures Tally(s, p) == 0 <==> forall i | 0 <= i < |s| :: !p(s[i])
  {
    if s != [] {
      TallyNone(s[1..], p);
      assert s == [s[0]] + s[1..];
    }
  }

  lemma {:induction false} TallyAll(s: Bytes, p: byte -> bool)
    requires forall i | 0 <= i < |s| :: p(s[i])
    ensures Tally(s, p) == |s|
  {
    if s != [] {
      TallyAll(s[1..], p);
    }
  }

  lemma {:induction false} TallyGrows(e: Bytes, p: byte -> bool, k: nat, n: nat)
    requires Tally(e, p) > 0 && k < n
    ensures Tally(Repeat(e, k), p) < Tally(Repeat(e, n), p)
  {
    TallyAppend(e, Repeat(e, n - 1), p);
    if k > 0 {
      TallyAppend(e, Repeat(e, k - 1), p);
      TallyGrows(e, p, k - 1, n - 1);
    }
  }

  lemma {:induction false} RepeatOf(e: Bytes, k: nat, p: byte -> bool)
    requires forall i | 0 <= i < |e| :: p(e[i])
    ensures forall i | 0 <= i < |Repeat(e, k)| :: p(Repeat(e, k)[i])
  {
    if k > 0 {
      RepeatOf(e, k - 1, p);
    }
  }

  // ---- Exact and fields ---------------------------------------------------------------------------

  lemma ExactDetects(e: Bytes, k: nat, n: nat)
    requires k < n
    ensures Repeat(e, k) != Repeat(e, n) <==> e != []
  {
    var any := (b: byte) => true;
    TallyAll(e, any);
    if e != [] {
      TallyGrows(e, any, k, n);
    } else {
      RepeatOfNothing(k);
      RepeatOfNothing(n);
    }
  }

  lemma {:induction false} RepeatOfNothing(k: nat)
    ensures Repeat([], k) == []
  {
    if k > 0 {
      RepeatOfNothing(k - 1);
    }
  }

  function Solid(): byte -> bool {
    (b: byte) => !IsSpace(b)
  }

  lemma {:induction false} WordIsSolid(s: Bytes)
    ensures Tally(FirstWord(s), Solid()) == |FirstWord(s)|
  {
    if s != [] && !IsSpace(s[0]) {
      WordIsSolid(s[1..]);
      assert FirstWord(s)[1..] == FirstWord(s[1..]);
    }
  }

  /** The fields hold exactly the bytes that are not whitespace. */
  lemma {:induction false} FieldsAreSolid(s: Bytes)
    ensures |Concat(Split(s))| == Tally(s, Solid())
    decreases |s|
  {
    if s != [] {
      if IsSpace(s[0]) {
        FieldsAreSolid(s[1..]);
      } else {
        var w := FirstWord(s);
        assert w == [s[0]] + FirstWord(s[1..]);
        FieldsAreSolid(s[|w|..]);
        WordIsSolid(s);
        TallyAppend(w, s[|w|..], Solid());
        assert s == w + s[|w|..];
        FieldsCons(w, Split(s[|w|..]));
      }
    }
  }

  lemma FieldsCons(w: Bytes, rest: seq<Bytes>)
    ensures Concat([w] + rest) == w + Concat(rest)
  {
    assert ([w] + rest)[1..] == rest;
  }

  lemma {:induction false} BlankHasNoFields(s: Bytes)
    requires forall i | 0 <= i < |s| :: IsSpace(s[i])
    ensures Split(s) == []
  {
    if s != [] {
      BlankHasNoFields(s[1..]);
    }
  }

  lemma FieldsDetect(e: Bytes, k: nat, n: nat)
    requires k < n
    ensures Split(Repeat(e, k)) != Split(Repeat(e, n)) <==> Tally(e, Solid()) > 0
  {
    FieldsAreSolid(Repeat(e, k));
    FieldsAreSolid(Repeat(e, n));
    TallyNone(e, Solid());
    if Tally(e, Solid()) > 0 {
      TallyGrows(e, Solid(), k, n);
    } else {
      RepeatOf(e, k, IsSpace);
      RepeatOf(e, n, IsSpace);
      BlankHasNoFields(Repeat(e, k));
      BlankHasNoFields(Repeat(e, n));
    }
  }

  // ---- Lines ------------------------------------------------------------------------------------------

  /** Line ends in s, where an LF right after a CR is no end of its own. */
  function Ends(s: Bytes, afterCr: bool): nat
    decreases |s|
  {
    if s == [] then 0
    else if s[0] == CR then 1 + Ends(s[1..], true)
    else if s[0] == LF then (if afterCr then 0 else 1) + Ends(s[1..], false)
    else Ends(s[1..], false)
  }

  predicate AfterCr(s: Bytes, before: bool) {
    if s == [] then before else s[|s|-1] == CR
  }

  lemma {:induction false} EndsAppend(a: Bytes, b: Bytes, before: bool)
    ensures Ends(a + b, before) == Ends(a, before) + Ends(b, AfterCr(a, before))
    decreases |a|
  {
    if a == [] {
      assert a + b == b;
    } else {
      EndsAppend(a[1..], b, a[0] == CR);
      assert (a + b)[1..] == a[1..] + b;
    }
  }

  predicate Partial(s: Bytes) {
    s != [] && !IsEnd(s[|s|-1])
  }

  function LineCount(s: Bytes): nat {
    Ends(s, false) + (if Partial(s) then 1 else 0)
  }

  lemma {:induction false} TakeLineCounts(s: Bytes)
    requires s != []
    ensures LineCount(s) == 1 + LineCount(TakeLine(s).1)
  {
    if s[0] == CR {
      var rest := s[1..];
      if |s| > 1 && s[1] == LF {
        assert rest[0] == LF && rest[1..] == s[2..];
        assert Ends(rest, true) == Ends(s[2..], false);
      } else {
        OtherAfterCr(rest);
      }
    } else if s[0] != LF && |s| > 1 {
      TakeLineCounts(s[1..]);
    }
  }

  lemma OtherAfterCr(s: Bytes)
    requires s == [] || s[0] != LF
    ensures Ends(s, true) == Ends(s, false)
  {}

  lemma {:induction false} SplitLinesCount(s: Bytes)
    ensures |SplitLines(s)| == LineCount(s)
    decreases |s|
  {
    if s != [] {
      TakeLineCounts(s);
      SplitLinesCount(TakeLine(s).1);
    }
  }

  function Inner(): byte -> bool {
    (b: byte) => !IsEnd(b)
  }

  lemma {:induction false} TakeLineBytes(s: Bytes)
    requires s != []
    ensures Tally(s, Inner()) == |TakeLine(s).0| + Tally(TakeLine(s).1, Inner())
  {
    if s[0] == CR {
      var rest := s[1..];
      assert |s| > 1 && s[1] == LF ==> rest[0] == LF && rest[1..] == s[2..];
    } else if s[0] != LF && |s| > 1 {
      TakeLineBytes(s[1..]);
    }
  }

  /** The lines hold exactly the bytes that end none. */
  lemma {:induction false} SplitLinesBytes(s: Bytes)
    ensures |Concat(SplitLines(s))| == Tally(s, Inner())
    decreases |s|
  {
    if s != [] {
      TakeLineBytes(s);
      SplitLinesBytes(TakeLine(s).1);
      FieldsCons(TakeLine(s).0, SplitLines(TakeLine(s).1));
    }
  }

  predicate HasEnd(e: Bytes) {
    exists i | 0 <= i < |e| :: IsEnd(e[i])
  }

  lemma {:induction false} SomeEnd(e: Bytes, afterCr: bool)
    requires HasEnd(e) && (afterCr ==> CR in e)
    ensures Ends(e, afterCr) > 0
  {
    if e[0] != CR && (e[0] != LF || afterCr) {
      var i :| 0 <= i < |e| && IsEnd(e[i]) && (afterCr ==> e[i] == CR);
      assert e[1..][i-1] == e[i];
      SomeEnd(e[1..], false);
    }
  }

  lemma {:induction false} RepeatEnds(e: Bytes, k: nat)
    requires k > 0 && e != []
    ensures Repeat(e, k) != [] && Repeat(e, k)[|Repeat(e, k)|-1] == e[|e|-1]
  {
    if k > 1 {
      RepeatEnds(e, k - 1);
    } else {
      assert e + [] == e;
    }
  }

  lemma EndsGrow(e: Bytes, k: nat)
    requires HasEnd(e)
    ensures Ends(Repeat(e, k), false) < Ends(Repeat(e, k + 1), false)
  {
    RepeatSnoc(e, k);
    EndsAppend(Repeat(e, k), e, false);
    if k > 0 {
      RepeatEnds(e, k);
    }
    assert AfterCr(Repeat(e, k), false) ==> e[|e|-1] == CR;
    SomeEnd(e, AfterCr(Repeat(e, k), false));
  }

  lemma {:induction false} EndsGrowTo(e: Bytes, k: nat, n: nat)
    requires HasEnd(e) && k < n
    ensures Ends(Repeat(e, k), false) < Ends(Repeat(e, n), false)
  {
    EndsGrow(e, n - 1);
    if k < n - 1 {
      EndsGrowTo(e, k, n - 1);
    }
  }

  /** More copies of an output with a line end are more lines. */
  lemma LineCountGrows(e: Bytes, k: nat, n: nat)
    requires HasEnd(e) && k < n
    ensures LineCount(Repeat(e, k)) < LineCount(Repeat(e, n))
  {
    EndsGrowTo(e, k, n);
    RepeatEnds(e, n);
    if k > 0 {
      RepeatEnds(e, k);
    }
  }

  lemma {:induction false} InsertTotal(s: seq<Bytes>, x: Bytes)
    ensures |Concat(Insert(s, x, ByBytes()))| == |Concat(s)| + |x|
  {
    if s == [] || ByBytes()(s[|s|-1], x) {
      ConcatSnoc(s, x);
    } else {
      var front, last := s[..|s|-1], s[|s|-1];
      InsertTotal(front, x);
      ConcatSnoc(Insert(front, x, ByBytes()), last);
      ConcatSnoc(front, last);
      assert s == front + [last];
    }
  }

  lemma {:induction false} SortTotal(s: seq<Bytes>)
    ensures |Concat(Sort(s, ByBytes()))| == |Concat(s)|
  {
    if s != [] {
      var front, last := s[..|s|-1], s[|s|-1];
      SortTotal(front);
      InsertTotal(Sort(front, ByBytes()), last);
      ConcatSnoc(front, last);
      assert s == front + [last];
    }
  }

  lemma LinesDetect(e: Bytes, k: nat, n: nat)
    requires k < n
    ensures Normalized(Repeat(e, k), Lines) != Normalized(Repeat(e, n), Lines) <==> e != []
  {
    var a, b := SplitLines(Repeat(e, k)), SplitLines(Repeat(e, n));
    if e == [] {
      RepeatOfNothing(k);
      RepeatOfNothing(n);
    } else if HasEnd(e) {
      LineCountGrows(e, k, n);
      SplitLinesCount(Repeat(e, k));
      SplitLinesCount(Repeat(e, n));
      SortElements(a, ByBytes());
      SortElements(b, ByBytes());
    } else {
      TallyAll(e, Inner());
      TallyGrows(e, Inner(), k, n);
      SplitLinesBytes(Repeat(e, k));
      SplitLinesBytes(Repeat(e, n));
      SortTotal(a);
      SortTotal(b);
    }
  }

  // ---- First fields -------------------------------------------------------------------------------------

  predicate IsSolid(e: Bytes) {
    forall i | 0 <= i < |e| :: !IsSpace(e[i])
  }

  lemma {:induction false} OneLine(s: Bytes)
    requires s != [] && forall i | 0 <= i < |s| :: !IsEnd(s[i])
    ensures TakeLine(s) == (s, []) && SplitLines(s) == [s]
  {
    if |s| > 1 {
      OneLine(s[1..]);
      assert s == [s[0]] + s[1..];
    }
  }

  /** Without its leading whitespace. */
  function Skip(s: Bytes): Bytes {
    if s != [] && IsSpace(s[0]) then Skip(s[1..]) else s
  }

  lemma {:induction false} FirstFieldIs(s: Bytes)
    ensures FirstField(s) == FirstWord(Skip(s))
  {
    if s != [] {
      if IsSpace(s[0]) {
        FirstFieldIs(s[1..]);
      } else {
        assert FirstWord(s) == [s[0]] + FirstWord(s[1..]);
      }
    }
  }

  lemma {:induction false} SkipAppend(e: Bytes, t: Bytes)
    requires Tally(e, Solid()) > 0
    ensures Skip(e) != [] && !IsSpace(Skip(e)[0]) && Skip(e + t) == Skip(e) + t
  {
    if IsSpace(e[0]) {
      SkipAppend(e[1..], t);
      assert (e + t)[1..] == e[1..] + t;
    }
  }

  lemma {:induction false} WordStops(s: Bytes, t: Bytes)
    requires !IsSolid(s)
    ensures FirstWord(s + t) == FirstWord(s)
  {
    if !IsSpace(s[0]) {
      var i :| 0 <= i < |s| && IsSpace(s[i]);
      assert s[1..][i-1] == s[i];
      WordStops(s[1..], t);
      assert (s + t)[1..] == s[1..] + t;
    }
  }

  lemma {:induction false} SkippedWasSpace(e: Bytes)
    requires !IsSolid(e) && IsSolid(Skip(e))
    ensures e != [] && IsSpace(e[0])
  {}

  /** The first field of several copies is that of one, unless nothing separates them. */
  lemma FirstFieldStays(e: Bytes, k: nat)
    requires k > 0 && e != [] && !IsSolid(e)
    ensures FirstField(Repeat(e, k)) == FirstField(e)
  {
    var t := Repeat(e, k - 1);
    FirstFieldIs(e);
    FirstFieldIs(e + t);
    TallyNone(e, Solid());
    if Tally(e, Solid()) > 0 {
      SkipAppend(e, t);
      if IsSolid(Skip(e)) {
        SkippedWasSpace(e);
        assert t == [] || t[0] == e[0];
        WordOf(Skip(e), t);
        WordOf(Skip(e), []);
        assert Skip(e) + [] == Skip(e);
      } else {
        WordStops(Skip(e), t);
      }
    } else {
      RepeatOf(e, k, IsSpace);
      assert Repeat(e, k) == e + t;
      assert forall i | 0 <= i < |e + t| :: IsSpace((e + t)[i]);
      BlankHasNoFields(e);
      BlankHasNoFields(e + t);
    }
  }

  /** Copies that nothing separates are one field. */
  lemma FirstFieldGrows(e: Bytes, k: nat)
    requires k > 0 && e != [] && IsSolid(e)
    ensures FirstField(Repeat(e, k)) == Repeat(e, k)
  {
    var s := Repeat(e, k);
    RepeatOf(e, k, Solid());
    FirstFieldIs(s);
    WordOf(s, []);
    assert s + [] == s;
    assert s == [] || !IsSpace(s[0]);
  }

  lemma DigestOfOneLine(e: Bytes, k: nat)
    requires k > 0 && e != [] && !HasEnd(e)
    ensures Normalized(Repeat(e, k), Digest) == [FirstField(Repeat(e, k))]
  {
    RepeatOf(e, k, Inner());
    RepeatEnds(e, k);
    OneLine(Repeat(e, k));
  }

  lemma DigestDetects(e: Bytes, k: nat, n: nat)
    requires k < n
    ensures Normalized(Repeat(e, k), Digest) != Normalized(Repeat(e, n), Digest)
       <==> e != [] && (k == 0 || HasEnd(e) || IsSolid(e))
  {
    if e == [] {
      RepeatOfNothing(k);
      RepeatOfNothing(n);
    } else if HasEnd(e) {
      LineCountGrows(e, k, n);
      SplitLinesCount(Repeat(e, k));
      SplitLinesCount(Repeat(e, n));
    } else {
      DigestOfOneLine(e, n);
      if k > 0 {
        DigestOfOneLine(e, k);
        if IsSolid(e) {
          FirstFieldGrows(e, k);
          FirstFieldGrows(e, n);
          ExactDetects(e, k, n);
        } else {
          FirstFieldStays(e, k);
          FirstFieldStays(e, n);
        }
      }
    }
  }

  // ---- What a batch comparison detects ----------------------------------------------------------------------

  /** Whether k copies of this output are told from more copies. */
  predicate Detects(mode: Mode, e: Bytes, k: nat) {
    match mode
    case Exact => e != []
    case Fields => !forall i | 0 <= i < |e| :: IsSpace(e[i])
    case Lines => e != []
    case Digest => e != [] && (k == 0 || HasEnd(e) || IsSolid(e))
  }

  /** k copies of an output and a larger number of copies are normalized differently exactly
      under that condition. */
  lemma CopiesDetected(mode: Mode, e: Bytes, k: nat, n: nat)
    requires k < n
    ensures Normalized(Repeat(e, k), mode) != Normalized(Repeat(e, n), mode) <==> Detects(mode, e, k)
  {
    match mode {
      case Exact => ExactDetects(e, k, n);
      case Fields =>
        FieldsDetect(e, k, n);
        TallyNone(e, Solid());
      case Lines => LinesDetect(e, k, n);
      case Digest => DigestDetects(e, k, n);
    }
  }

  function Normalizer(mode: Mode): Normal {
    (data: Bytes) => Normalized(data, mode)
  }

  /** A batch in which only the first k invocations gave the expected output, and the others
      nothing, fails validation exactly when its mode tells those copies apart. */
  lemma SilentInvocationsDetected(p: Plan, mode: Mode, expected: Bytes, validation: nat, l: Label, k: nat)
    requires !p.hasOutput && p.batch(l).Ran? && p.batch(l).data == Repeat(expected, k) && k < validation
    ensures BatchMatches(p, Normalizer(mode), expected, validation, l) <==> !Detects(mode, expected, k)
  {
    CopiesDetected(mode, expected, k, validation);
  }

  /** One line without its end but with a space: its copies all have the same digest. */
  lemma DigestMisses(k: nat, n: nat)
    requires 0 < k < n
    ensures Normalized(Repeat([97, SP, 98], k), Digest) == Normalized(Repeat([97, SP, 98], n), Digest)
  {
    var e := [97, SP, 98];
    assert IsSpace(e[1]) && !HasEnd(e);
    DigestDetects(e, k, n);
  }
}

/** Clipboard edits expected on a list of lines, against the same edits on the text. */
module Clip {
  import opened ByteStrings

  type Lines = seq<Bytes>

  predicate NewlineFree(lines: Lines) {
    forall i | 0 <= i < |lines| :: LF !in lines[i]
  }

  /** b'\n'.join(lines) */
  function Join(lines: Lines): Bytes {
    if lines == [] then []
    else if |lines| == 1 then lines[0]
    else lines[0] + [LF] + Join(lines[1..])
  }

  /** text.split(b'\n') */
  function Split(text: Bytes): (lines: Lines)
    ensures lines != []
    decreases |text|
  {
    match Cut(text, LF)
    case None => [text]
    case Some(c) => [c.0] + Split(c.1)
  }

  // ---- Split and join are inverse -------------------------------------------------------

  lemma {:induction false} JoinSplit(text: Bytes)
    ensures Join(Split(text)) == text && NewlineFree(Split(text))
    decreases |text|
  {
    CutParts(text, LF);
    match Cut(text, LF)
    case None =>
    case Some(c) =>
      JoinSplit(c.1);
      assert Split(text)[1..] == Split(c.1);
  }

  lemma {:induction false} SplitJoin(lines: Lines)
    requires lines != [] && NewlineFree(lines)
    ensures Split(Join(lines)) == lines
  {
    CutParts(Join(lines), LF);
    if |lines| > 1 {
      SplitJoin(lines[1..]);
      CutAt(lines[0], LF, Join(lines[1..]));
      assert lines == [lines[0]] + lines[1..];
    } else {
      assert lines == [lines[0]];
    }
  }

  lemma {:induction false} JoinAppend(a: Lines, b: Lines)
    requires a != [] && b != []
    ensures Join(a + b) == Join(a) + [LF] + Join(b)
  {
    if |a| == 1 {
      assert (a + b)[1..] == b;
    } else {
      var rest := a[1..];
      calc {
        Join(a + b);
        { assert (a + b)[1..] == rest + b; }
        (a[0] + [LF]) + Join(rest + b);
        { JoinAppend(rest, b); }
        (a[0] + [LF]) + (Join(rest) + [LF] + Join(b));
        { Assoc(Join(rest), [LF], Join(b));
          Assoc(a[0] + [LF], Join(rest), [LF] + Join(b)); }
        (a[0] + [LF] + Join(rest)) + ([LF] + Join(b));
        { Assoc(Join(a), [LF], Join(b)); }
        Join(a) + [LF] + Join(b);
      }
    }
  }

  // ---- Pasting at a column ----------------------------------------------------------------

  /** Text before line `mid`, its closing newline included. */
  function Before(lines: Lines, mid: nat): Bytes
    requires mid <= |lines|
  {
    if mid == 0 then [] else Join(lines[..mid]) + [LF]
  }

  /** Text after line `mid`, its opening newline included. */
  function After(lines: Lines, mid: nat): Bytes
    requires mid < |lines|
  {
    if mid + 1 == |lines| then [] else [LF] + Join(lines[mid+1..])
  }

  /** Where (mid, col) is in the text. */
  function OffsetOf(lines: Lines, mid: nat, col: nat): nat
    requires mid < |lines|
  {
    |Before(lines, mid)| + col
  }

  lemma JoinAround(lines: Lines, mid: nat)
    requires mid < |lines|
    ensures Join(lines) == Before(lines, mid) + (lines[mid] + After(lines, mid))
  {
    var a, b := lines[..mid], lines[mid..];
    assert lines == a + b && b[0] == lines[mid] && b[1..] == lines[mid+1..];
    assert Join(b) == lines[mid] + After(lines, mid) by {
      if |b| > 1 {
        Assoc(b[0], [LF], Join(b[1..]));
      } else {
        assert lines[mid] + [] == lines[mid];
      }
    }
    if mid > 0 {
      JoinAppend(a, b);
    } else {
      assert a == [] && [] + Join(b) == Join(b) && a + b == b;
    }
  }

  /** The lines one paste of entry `e` puts in place of line `mid`. */
  function Pasted(line: Bytes, col: nat, e: Lines): Lines
    requires col <= |line| && e != []
  {
    if |e| == 1 then [line[..col] + e[0] + line[col..]]
    else [line[..col] + e[0]] + e[1..|e|-1] + [e[|e|-1] + line[col..]]
  }

  function PasteAt(lines: Lines, mid: nat, col: nat, e: Lines): Lines
    requires mid < |lines| && col <= |lines[mid]| && e != []
  {
    lines[..mid] + Pasted(lines[mid], col, e) + lines[mid+1..]
  }

  lemma {:induction false} JoinPrepend(pre: Bytes, lines: Lines)
    requires lines != []
    ensures Join([pre + lines[0]] + lines[1..]) == pre + Join(lines)
  {
    var s := [pre + lines[0]] + lines[1..];
    if |lines| == 1 {
      assert s == [pre + lines[0]];
    } else {
      assert s[1..] == lines[1..];
      Assoc(pre, lines[0], [LF]);
      Assoc(pre, lines[0] + [LF], Join(lines[1..]));
    }
  }

  lemma {:induction false} JoinPostpend(lines: Lines, post: Bytes)
    requires lines != []
    ensures Join(lines[..|lines|-1] + [lines[|lines|-1] + post]) == Join(lines) + post
  {
    var n := |lines| - 1;
    var s := lines[..n] + [lines[n] + post];
    if n == 0 {
      assert s == [lines[0] + post];
    } else {
      var front := lines[..n];
      JoinAppend(front, [lines[n] + post]);
      JoinAppend(front, [lines[n]]);
      assert lines == front + [lines[n]];
      Assoc(Join(front) + [LF], lines[n], post);
    }
  }

  lemma PastedJoin(line: Bytes, col: nat, e: Lines)
    requires col <= |line| && e != []
    ensures Join(Pasted(line, col, e)) == line[..col] + (Join(e) + line[col..])
  {
    if |e| == 1 {
      Assoc(line[..col], e[0], line[col..]);
    } else {
      var pre, post := line[..col], line[col..];
      var e' := e[..|e|-1] + [e[|e|-1] + post];
      JoinPostpend(e, post);
      JoinPrepend(pre, e');
      assert e'[0] == e[0] && e'[1..] == e[1..|e|-1] + [e[|e|-1] + post];
      Assoc([pre + e[0]], e[1..|e|-1], [e[|e|-1] + post]);
    }
  }

  lemma {:induction false} ReplaceLine(lines: Lines, mid: nat, put: Lines)
    requires mid < |lines| && put != []
    ensures Join(lines[..mid] + put + lines[mid+1..]) == Before(lines, mid) + (Join(put) + After(lines, mid))
  {
    var a, c := lines[..mid], lines[mid+1..];
    Assoc(a, put, c);
    assert Join(put + c) == Join(put) + After(lines, mid) by {
      if c != [] {
        JoinAppend(put, c);
        Assoc(Join(put), [LF], Join(c));
      } else {
        assert put + c == put && Join(put) + [] == Join(put);
      }
    }
    if mid > 0 {
      JoinAppend(a, put + c);
    } else {
      assert a == [] && a + (put + c) == put + c;
      assert [] + Join(put + c) == Join(put + c);
    }
  }

  /** Inserting bytes into a text. */
  function InsertAt(text: Bytes, at: nat, s: Bytes): Bytes
    requires at <= |text|
  {
    text[..at] + s + text[at..]
  }

  /** One column paste on lines is one insertion into the text. */
  lemma PasteIsInsertion(lines: Lines, mid: nat, col: nat, e: Lines)
    requires mid < |lines| && col <= |lines[mid]| && e != []
    ensures OffsetOf(lines, mid, col) <= |Join(lines)|
    ensures Join(PasteAt(lines, mid, col, e)) == InsertAt(Join(lines), OffsetOf(lines, mid, col), Join(e))
  {
    var before, after, line := Before(lines, mid), After(lines, mid), lines[mid];
    JoinAround(lines, mid);
    ReplaceLine(lines, mid, Pasted(line, col, e));
    PastedJoin(line, col, e);
    CutAround(before, line, after, col);
    InsertShape(before, line[..col], Join(e), line[col..], after);
  }

  lemma CutAround(before: Bytes, line: Bytes, after: Bytes, col: nat)
    requires col <= |line|
    ensures var text, at := before + (line + after), |before| + col;
      text[..at] == before + line[..col] && text[at..] == line[col..] + after
  {
    var text, at := before + (line + after), |before| + col;
    assert line == line[..col] + line[col..];
    Assoc(line[..col], line[col..], after);
    Assoc(before, line[..col], line[col..] + after);
    assert text == (before + line[..col]) + (line[col..] + after);
  }

  lemma InsertShape(before: Bytes, pre: Bytes, e: Bytes, post: Bytes, after: Bytes)
    ensures before + ((pre + (e + post)) + after) == (before + pre) + e + (post + after)
  {
    Assoc(pre, e + post, after);
    Assoc(e, post, after);
    Assoc(before, pre, e + (post + after));
    Assoc(before + pre, e, post + after);
  }

  /** A paste leaves the text in front of its place, and the place itself, as they were. */
  lemma PasteKeepsPlace(lines: Lines, mid: nat, col: nat, e: Lines)
    requires mid < |lines| && col <= |lines[mid]| && e != []
    ensures var after := PasteAt(lines, mid, col, e);
      && mid < |after| && col <= |after[mid]|
      && OffsetOf(after, mid, col) == OffsetOf(lines, mid, col)
  {
    var after := PasteAt(lines, mid, col, e);
    assert after[..mid] == lines[..mid];
    assert after[mid] == Pasted(lines[mid], col, e)[0];
  }

  lemma PastedNewlineFree(line: Bytes, col: nat, e: Lines)
    requires col <= |line| && e != [] && LF !in line && NewlineFree(e)
    ensures NewlineFree(Pasted(line, col, e))
  {}

  lemma PasteKeepsNewlineFree(lines: Lines, mid: nat, col: nat, e: Lines)
    requires mid < |lines| && col <= |lines[mid]| && e != []
    ensures NewlineFree(lines) && NewlineFree(e) ==> NewlineFree(PasteAt(lines, mid, col, e))
  {
    if NewlineFree(lines) && NewlineFree(e) {
      PastedNewlineFree(lines[mid], col, e);
    }
  }

  lemma InsertAgain(text: Bytes, at: nat, s: Bytes, e: Bytes, text': Bytes)
    requires at <= |text| && text' == InsertAt(text, at, s)
    ensures InsertAt(text', at, e) == InsertAt(text, at, e + s)
  {
    assert text'[..at] == text[..at] && text'[at..] == s + text[at..] by {
      Assoc(text[..at], s, text[at..]);
      assert |text[..at]| == at;
    }
    Assoc(text[..at] + e, s, text[at..]);
    Assoc(text[..at], e, s);
  }

  /** After `i` pastes at that place. */
  ghost predicate PastedSoFar(text: Bytes, at: nat, e: Lines, mid: nat, col: nat, i: nat, result: Lines) {
    && at <= |text| && mid < |result| && col <= |result[mid]| && OffsetOf(result, mid, col) == at
    && Join(result) == InsertAt(text, at, Repeat(Join(e), i))
  }

  lemma PasteStarts(lines: Lines, mid: nat, col: nat, e: Lines)
    requires mid < |lines| && col <= |lines[mid]| && e != []
    ensures PastedSoFar(Join(lines), OffsetOf(lines, mid, col), e, mid, col, 0, lines)
  {
    JoinAround(lines, mid);
    InsertNothing(Join(lines), OffsetOf(lines, mid, col));
  }

  lemma InsertNothing(text: Bytes, at: nat)
    requires at <= |text|
    ensures InsertAt(text, at, []) == text
  {}

  lemma PasteNext(text: Bytes, at: nat, e: Lines, mid: nat, col: nat, i: nat, result: Lines)
    requires e != [] && PastedSoFar(text, at, e, mid, col, i, result)
    ensures PastedSoFar(text, at, e, mid, col, i + 1, PasteAt(result, mid, col, e))
  {
    PasteIsInsertion(result, mid, col, e);
    PasteKeepsPlace(result, mid, col, e);
    InsertAgain(text, at, Repeat(Join(e), i), Join(e), Join(result));
  }

  /** col_expect: the entry pasted `count` times at one place, replacing a slice of the
      list each time. On the text it is one insertion of `count` copies. */
  method PasteColumn(lines: Lines, e: Lines, mid: nat, col: nat, count: nat) returns (result: Lines)
    requires mid < |lines| && col <= |lines[mid]| && e != []
    ensures OffsetOf(lines, mid, col) <= |Join(lines)|
    ensures Join(result) == InsertAt(Join(lines), OffsetOf(lines, mid, col), Repeat(Join(e), count))
    ensures result != [] && (NewlineFree(lines) && NewlineFree(e) ==> NewlineFree(result))
  {
    ghost var text, at := Join(lines), OffsetOf(lines, mid, col);
    PasteStarts(lines, mid, col, e);
    result := lines;
    var i := 0;
    while i < count
      invariant 0 <= i <= count
      invariant PastedSoFar(text, at, e, mid, col, i, result)
      invariant NewlineFree(lines) && NewlineFree(e) ==> NewlineFree(result)
    {
      PasteNext(text, at, e, mid, col, i, result);
      PasteKeepsNewlineFree(result, mid, col, e);
      result := result[..mid] + Pasted(result[mid], col, e) + result[mid+1..];
      i := i + 1;
    }
  }

  // ---- Pasting at the end -------------------------------------------------------------------

  function Copies(e: Lines, count: nat): Lines {
    if count == 0 then [] else Copies(e, count - 1) + e
  }

  /** Appending copies of an entry's lines appends, to the text, a newline and the entry
      each time. */
  lemma {:induction false} PasteAppend(lines: Lines, e: Lines, count: nat)
    requires lines != [] && e != []
    ensures Join(lines + Copies(e, count)) == Join(lines) + Repeat([LF] + Join(e), count)
  {
    var unit := [LF] + Join(e);
    if count == 0 {
      assert lines + [] == lines && Join(lines) + [] == Join(lines);
    } else {
      var before := lines + Copies(e, count - 1);
      calc {
        Join(lines + Copies(e, count));
        { Assoc(lines, Copies(e, count - 1), e); }
        Join(before + e);
        { JoinAppend(before, e); Assoc(Join(before), [LF], Join(e)); }
        Join(before) + unit;
        { PasteAppend(lines, e, count - 1); }
        Join(lines) + Repeat(unit, count - 1) + unit;
        { Assoc(Join(lines), Repeat(unit, count - 1), unit); RepeatSnoc(unit, count - 1); }
        Join(lines) + Repeat(unit, count);
      }
    }
  }

  // ---- Entries against head -n ----------------------------------------------------------------

  /** The text of an entry: its lines, each with a newline. */
  function EntryBytes(lines: Lines, k: nat): Bytes {
    if k == 0 || lines == [] then [] else lines[0] + [LF] + EntryBytes(lines[1..], k - 1)
  }

  /** What `head -n k` prints. */
  function Head(text: Bytes, k: nat): Bytes
    decreases |text|
  {
    if k == 0 then [] else
    match Cut(text, LF)
    case None => text
    case Some(c) => c.0 + [LF] + Head(c.1, k - 1)
  }

  /** `head` prints an entry's bytes exactly when the region stops short of the last line. */
  lemma {:induction false} HeadMatches(text: Bytes, k: nat)
    ensures EntryBytes(Split(text), k) == Head(text, k) <==> k < |Split(text)|
    decreases |text|
  {
    if k > 0 {
      match Cut(text, LF)
      case None =>
        assert EntryBytes([text], k) == text + [LF] + EntryBytes([], k - 1);
      case Some(c) =>
        HeadMatches(c.1, k - 1);
        var a, b := EntryBytes(Split(c.1), k - 1), Head(c.1, k - 1);
        assert Split(text)[1..] == Split(c.1);
        SamePrefix(c.0 + [LF], a, b);
    }
  }

  lemma SamePrefix(p: Bytes, a: Bytes, b: Bytes)
    ensures p + a == p + b <==> a == b
  {
    if p + a == p + b {
      assert (p + a)[|p|..] == a && (p + b)[|p|..] == b;
    }
  }

  predicate EndsWithNewline(text: Bytes) {
    text != [] && text[|text|-1] == LF
  }

  /** The guard under which a case is compared with `head`. */
  predicate Equivalent(text: Bytes, k: nat) {
    k < |Split(text)| || EndsWithNewline(text)
  }

  /** The guard is right except for a region of the whole text when that ends in a
      newline: the entry then has one newline more than `head` prints. */
  lemma GuardIsExact(text: Bytes, k: nat)
    ensures (Equivalent(text, k) <==> EntryBytes(Split(text), k) == Head(text, k))
       <==> !(k >= |Split(text)| && EndsWithNewline(text))
  {
    HeadMatches(text, k);
  }

  lemma GuardFails()
    ensures var text := [97, LF];
      Equivalent(text, 2) && EntryBytes(Split(text), 2) == [97, LF, LF] && Head(text, 2) == [97, LF]
  {
    var text: Bytes := [97, LF];
    CutAt([97], LF, []);
    assert [97] + [LF] + [] == text;
    assert Split([]) == [[]];
    assert Split(text) == [[97], []];
    assert EntryBytes([[]], 1) == [LF];
  }
}

/** Replacing sections of any document: when one replacement spoils another, and when
    regenerating a document just written gives it back. */
module Regeneration {
  import opened ByteStrings
  import opened Sections

  /** The text holds no marker of that section. */
  predicate Clear(x: string, name: string) {
    Count(x, Begin(name)) == 0 && Count(x, End(name)) == 0
  }

  /** Both markers of that section occur, each once. */
  predicate Once(d: string, name: string) {
    Count(d, Begin(name)) == 1 && Count(d, End(name)) == 1
  }

  predicate GoodName(name: string) {
    Plain(name) && '\n' !in name
  }

  lemma NameMarkers(name: string)
    requires GoodName(name)
    ensures IsMarker(Begin(name)) && IsMarker(End(name)) && Begin(name) != End(name)
    ensures '\n' !in Begin(name) && '\n' !in End(name)
  {
    MarkersOf(name);
    MarkersHaveNoNewline(name);
  }

  lemma WrappedClear(content: string, name: string)
    requires GoodName(name)
    ensures Clear(Wrapped(content), name) <==> Clear(content, name)
  {
    NameMarkers(name);
    CountContent(content, Begin(name));
    CountContent(content, End(name));
  }

  /** How often another section's markers occur around a section. */
  lemma OthersInShape(a: string, m: string, x: string, b: string, n: string)
    requires GoodName(m) && GoodName(n) && m != n
    ensures var d := Shape(a, m, x, b);
      && Count(d, Begin(n)) == Count(a, Begin(n)) + Count(x, Begin(n)) + Count(b, Begin(n))
      && Count(d, End(n)) == Count(a, End(n)) + Count(x, End(n)) + Count(b, End(n))
  {
    NameMarkers(n);
    MarkersDiffer(m, n);
    CountShape(a, m, x, b, Begin(n));
    CountShape(a, m, x, b, End(n));
  }

  /** The section's own markers occur once exactly when the texts around it are clear. */
  lemma OwnInShape(a: string, m: string, x: string, b: string)
    requires GoodName(m)
    ensures Once(Shape(a, m, x, b), m) <==> Clear(a, m) && Clear(x, m) && Clear(b, m)
  {
    NameMarkers(m);
    CountShape(a, m, x, b, Begin(m));
    CountShape(a, m, x, b, End(m));
  }

  // ---- First occurrences around a marker -----------------------------------------------------

  lemma {:induction false} PartitionFront(d: string, m: string)
    requires m != "" && Count(d, m) > 0
    ensures Partition(d, m).Some? && Count(Partition(d, m).value.0, m) == 0
    decreases |d|
  {
    if !(m <= d) {
      PartitionFront(d[1..], m);
      PartitionParts(d[1..], m);
      var p := Partition(d[1..], m).value;
      assert ([d[0]] + p.0)[1..] == p.0;
      NotPrefix(d, m, p.0, p.1);
    }
  }

  lemma NotPrefix(d: string, m: string, x: string, y: string)
    requires d != "" && !(m <= d) && d[1..] == x + m + y
    ensures !(m <= [d[0]] + x)
  {
    assert d == [d[0]] + (x + m + y) == ([d[0]] + x) + (m + y);
  }

  /** A text with an occurrence is what precedes the first one, it, and what follows. */
  lemma SplitFirst(a: string, m: string) returns (x: string, y: string)
    requires m != "" && Count(a, m) > 0
    ensures a == x + m + y && Count(x, m) == 0
  {
    PartitionParts(a, m);
    PartitionFront(a, m);
    var p := Partition(a, m).value;
    x, y := p.0, p.1;
  }

  /** Cutting at the first occurrence is unique. */
  lemma CutIsUnique(x: string, y: string, x': string, y': string, m: string)
    requires IsMarker(m) && Count(x, m) == 0 && Count(x', m) == 0 && x + m + y == x' + m + y'
    ensures x == x' && y == y'
  {
    PartitionAround(x, m, y);
    PartitionAround(x', m, y');
  }

  // ---- Two sections of one document ------------------------------------------------------------

  lemma ShapeOf(a: string, n: string, y: string, b: string)
    ensures a + Begin(n) + (y + End(n) + b) == Shape(a, n, y, b)
  {}

  /** Where section n is found when it starts in front of section m, and m's opening marker
      is not inside it: wholly in front of m. */
  lemma InFront(a: string, m: string, x: string, b: string, p: string, n: string, y: string, q: string)
    returns (a2: string)
    requires GoodName(m) && GoodName(n) && m != n && Shape(a, m, x, b) == Shape(p, n, y, q)
    requires Clear(p, n) && Clear(y, n) && Count(y, Begin(m)) == 0 && Count(a, Begin(n)) > 0
    ensures a == Shape(p, n, y, a2) && q == a2 + Begin(m) + (x + End(m) + b)
  {
    NameMarkers(m);
    NameMarkers(n);
    MarkersDiffer(m, n);
    var a1, more := SplitFirst(a, Begin(n));
    var tail := x + End(m) + b;
    FirstCut(a1, Begin(n), more, Begin(m), tail, p, y + End(n) + q);
    if Count(more, End(n)) == 0 {
      BodyHolds(more, Begin(m), tail, y, End(n), q);
    }
    var y', rest := SplitFirst(more, End(n));
    FirstCut(y', End(n), rest, Begin(m), tail, y, q);
    a2 := rest;
    ShapeOf(a1, n, y, a2);
  }

  lemma FirstCut(a1: string, k: string, more: string, l: string, tail: string, p: string, rest: string)
    requires IsMarker(k) && Count(a1, k) == 0 && Count(p, k) == 0
    requires (a1 + k + more) + l + tail == p + k + rest
    ensures p == a1 && rest == more + l + tail
  {
    assert (a1 + k + more) + l + tail == a1 + k + (more + l + tail);
    CutIsUnique(a1, more + l + tail, p, rest, k);
  }

  /** If no closing marker comes before l, the body up to the first one holds l. */
  lemma BodyHolds(more: string, l: string, tail: string, y: string, k: string, q: string)
    requires IsMarker(k) && IsMarker(l) && k != l && Count(more, k) == 0 && Count(y, k) == 0
    requires more + l + tail == y + k + q
    ensures Count(y, l) > 0
  {
    CountAround(more, l, tail, k);
    CountAround(y, k, q, k);
    var t, u := SplitFirst(tail, k);
    CountAround(more, l, t, k);
    CountAround(more, l, t, l);
    CutThrough(more + l, t, k, u, tail, y, q);
  }

  lemma CutThrough(left: string, t: string, k: string, u: string, tail: string, y: string, q: string)
    requires IsMarker(k) && tail == t + k + u && left + tail == y + k + q
    requires Count(left + t, k) == 0 && Count(y, k) == 0
    ensures y == left + t
  {
    assert left + (t + k + u) == (left + t) + k + u;
    CutIsUnique(left + t, u, y, q, k);
  }

  /** Where section n is found when it starts behind section m: wholly behind it. */
  lemma Behind(a: string, m: string, x: string, b: string, p: string, n: string, y: string, q: string)
    returns (b1: string)
    requires GoodName(m) && GoodName(n) && m != n && Shape(a, m, x, b) == Shape(p, n, y, q)
    requires Clear(p, n) && Count(a, Begin(n)) == 0 && Count(x, Begin(n)) == 0
    ensures b == Shape(b1, n, y, q) && p == Shape(a, m, x, b1)
  {
    NameMarkers(m);
    NameMarkers(n);
    MarkersDiffer(m, n);
    OthersInShape(a, m, x, b, n);
    CountShape(p, n, y, q, Begin(n));
    var rest;
    b1, rest := SplitFirst(b, Begin(n));
    OthersInShape(a, m, x, b1, n);
    BehindCut(a + Begin(m), x + End(m), b1, Begin(n), rest);
    CutIsUnique(Shape(a, m, x, b1), rest, p, y + End(n) + q, Begin(n));
    ShapeOf(b1, n, y, q);
  }

  lemma BehindCut(left: string, mid: string, b1: string, k: string, rest: string)
    ensures left + (mid + (b1 + k + rest)) == (left + (mid + b1)) + k + rest
  {
    assert mid + (b1 + k + rest) == (mid + b1) + k + rest;
    assert left + ((mid + b1) + k + rest) == (left + (mid + b1)) + k + rest;
  }

  /** What replacing section n leaves of section m with body x: m is as it was, in a document
      whose front or back was changed. */
  lemma ReplacedBeside(a: string, m: string, x: string, b: string, n: string, e: string)
    returns (front: bool, l: string, y: string, r: string)
    requires GoodName(m) && GoodName(n) && m != n && Once(Shape(a, m, x, b), m)
    requires Clear(x, n) && Clear(e, m)
    requires ReplaceSection(Shape(a, m, x, b), n, e).Some? && Once(ReplaceSection(Shape(a, m, x, b), n, e).value, m)
    ensures Clear(l, n) && Clear(y, n) && Clear(r, n) && Clear(if front then b else a, n)
    ensures (if front then a else b) == Shape(l, n, y, r)
    ensures ReplaceSection(Shape(a, m, x, b), n, e)
         == Some(if front then Shape(Shape(l, n, Wrapped(e), r), m, x, b)
                 else Shape(a, m, x, Shape(l, n, Wrapped(e), r)))
  {
    var p, body, q := ReplaceHasShape(Shape(a, m, x, b), n, e);
    OthersInShape(p, n, body, q, m);
    OthersInShape(p, n, Wrapped(e), q, m);
    WrappedClear(e, m);
    NameMarkers(n);
    NameMarkers(m);
    front := Count(a, Begin(n)) > 0;
    if front {
      r := InFront(a, m, x, b, p, n, body, q);
      l, y := p, body;
      ReplacedInFront(p, n, e, r, m, x, b, q);
    } else {
      l := Behind(a, m, x, b, p, n, body, q);
      y, r := body, q;
      ReplacedBehind(a, m, x, l, n, e, q, p);
    }
  }

  lemma ReplacedInFront(p: string, n: string, e: string, r: string, m: string, x: string, b: string, q: string)
    requires GoodName(m) && GoodName(n) && m != n && q == Shape(r, m, x, b) && Clear(q, n)
    ensures Clear(r, n) && Clear(b, n)
    ensures Shape(p, n, Wrapped(e), q) == Shape(Shape(p, n, Wrapped(e), r), m, x, b)
  {
    ShapeAssoc(p, n, Wrapped(e), r, m, x, b);
    OthersInShape(r, m, x, b, n);
  }

  lemma ReplacedBehind(a: string, m: string, x: string, l: string, n: string, e: string, q: string, p: string)
    requires GoodName(m) && GoodName(n) && m != n && p == Shape(a, m, x, l) && Clear(p, n)
    ensures Clear(a, n) && Clear(l, n)
    ensures Shape(p, n, Wrapped(e), q) == Shape(a, m, x, Shape(l, n, Wrapped(e), q))
  {
    ShapeAssoc(a, m, x, l, n, Wrapped(e), q);
    OthersInShape(a, m, x, l, n);
  }

  // ---- One section inside another ---------------------------------------------------------------

  /** A document is accepted when both markers occur once and the closing one comes after. */
  lemma AcceptedIff(d: string, name: string, content: string)
    requires GoodName(name)
    ensures ReplaceSection(d, name, content).Some?
       <==> Once(d, name) && Partition(d, Begin(name)).Some? && Count(Partition(d, Begin(name)).value.1, End(name)) > 0
  {
    if Once(d, name) {
      PartitionParts(d, Begin(name));
      var rest := Partition(d, Begin(name)).value.1;
      if Count(rest, End(name)) > 0 {
        PartitionParts(rest, End(name));
      } else if Partition(rest, End(name)).Some? {
        PartitionFound(rest, End(name));
      }
    }
  }

  /** What comes after the first opening marker, when that is in front of another marker l,
      or behind it. */
  lemma AfterInFront(x: string, k: string, y: string, l: string, tail: string)
    requires IsMarker(k) && Count(x, k) == 0
    ensures Partition((x + k + y) + l + tail, k) == Some((x, y + l + tail))
  {
    assert (x + k + y) + l + tail == x + k + (y + l + tail);
    PartitionAround(x, k, y + l + tail);
  }

  /** Whether a section can be replaced depends on another one's body only through the
      markers that body holds. */
  lemma SameWithOtherBody(a: string, outer: string, x: string, x': string, b: string, inner: string, other: string)
    requires GoodName(outer) && GoodName(inner) && inner != outer
    requires Clear(x, inner) && Clear(x', inner)
    requires ReplaceSection(Shape(a, outer, x, b), inner, other).Some?
    ensures ReplaceSection(Shape(a, outer, x', b), inner, other).Some?
  {
    var k := Begin(inner);
    NameMarkers(inner);
    NameMarkers(outer);
    OthersInShape(a, outer, x, b, inner);
    OthersInShape(a, outer, x', b, inner);
    AcceptedIff(Shape(a, outer, x, b), inner, other);
    AcceptedIff(Shape(a, outer, x', b), inner, other);
    if Count(a, k) > 0 {
      var l, r := SplitFirst(a, k);
      AfterInFront(l, k, r, Begin(outer), x + End(outer) + b);
      AfterInFront(l, k, r, Begin(outer), x' + End(outer) + b);
      OthersInShape(r, outer, x, b, inner);
      OthersInShape(r, outer, x', b, inner);
    } else {
      var l, r := SplitFirst(b, k);
      MarkersDiffer(inner, outer);
      AfterBehind(a, outer, x, l, r, k);
      AfterBehind(a, outer, x', l, r, k);
    }
  }

  lemma AfterBehind(a: string, outer: string, x: string, l: string, r: string, k: string)
    requires GoodName(outer) && IsMarker(k) && k != Begin(outer) && k != End(outer)
    requires Count(a, k) == Count(x, k) == Count(l, k) == 0
    ensures Partition(Shape(a, outer, x, l + k + r), k) == Some((Shape(a, outer, x, l), r))
  {
    CountShape(a, outer, x, l, k);
    BehindCut(a + Begin(outer), x + End(outer), l, k, r);
    PartitionAround(Shape(a, outer, x, l), k, r);
  }

  /** Once a section has been replaced by content without the other's markers, the other one
      can still be replaced exactly when neither of its markers was in the body replaced. */
  lemma NestedIsLost(d: string, outer: string, content: string, inner: string, other: string)
    returns (a: string, body: string, b: string)
    requires GoodName(outer) && GoodName(inner) && inner != outer && Clear(content, inner)
    requires ReplaceSection(d, outer, content).Some? && ReplaceSection(d, inner, other).Some?
    ensures d == Shape(a, outer, body, b)
    ensures ReplaceSection(d, outer, content) == Some(Shape(a, outer, Wrapped(content), b))
    ensures ReplaceSection(ReplaceSection(d, outer, content).value, inner, other).Some? <==> Clear(body, inner)
  {
    a, body, b := ReplaceHasShape(d, outer, content);
    WrappedClear(content, inner);
    OthersInShape(a, outer, body, b, inner);
    OthersInShape(a, outer, Wrapped(content), b, inner);
    AcceptedIff(d, inner, other);
    AcceptedIff(Shape(a, outer, Wrapped(content), b), inner, other);
    if Clear(body, inner) {
      SameWithOtherBody(a, outer, body, Wrapped(content), b, inner, other);
    }
  }

  lemma MarkerAlone(k: string, name: string)
    requires GoodName(name) && IsMarker(k) && k != Begin(name) && k != End(name)
    ensures Clear(k, name)
  {
    NameMarkers(name);
    CountAtMarker(k, "", Begin(name));
    CountAtMarker(k, "", End(name));
    assert k + "" == k;
  }

  /** An empty section inside another one and nothing else. */
  function Nested(outer: string, inner: string): string {
    Shape("", outer, Shape("", inner, "", ""), "")
  }

  lemma NestedTwoWays(outer: string, inner: string)
    ensures Nested(outer, inner) == Shape(Begin(outer), inner, "", End(outer))
  {
    FourMarkers(Begin(outer), Begin(inner), End(inner), End(outer));
  }

  lemma FourMarkers(a: string, b: string, c: string, d: string)
    ensures "" + a + (("" + b + ("" + c + "")) + d + "") == a + b + ("" + c + d)
  {
    assert "" + b + ("" + c + "") == b + c;
    assert "" + a == a && (b + c) + d + "" == b + c + d && "" + c + d == c + d;
    Assoc(b, c, d);
    Assoc(a, b, c + d);
  }

  /** A section inside another: each can be replaced, but the inner one not after the outer. */
  lemma NestedExample(outer: string, inner: string)
    requires GoodName(outer) && GoodName(inner) && outer != inner
    ensures var d := Nested(outer, inner);
      && ReplaceSection(d, inner, "").Some? && ReplaceSection(d, outer, "").Some?
      && ReplaceSection(ReplaceSection(d, outer, "").value, inner, "") == None
  {
    NestedInner(outer, inner);
    NestedOuter(outer, inner);
    WrappedClear("", inner);
    OthersInShape("", outer, Wrapped(""), "", inner);
    AcceptedIff(Shape("", outer, Wrapped(""), ""), inner, "");
  }

  lemma NestedInner(outer: string, inner: string)
    requires GoodName(outer) && GoodName(inner) && outer != inner
    ensures ReplaceSection(Nested(outer, inner), inner, "").Some?
  {
    NameMarkers(outer);
    MarkersDiffer(outer, inner);
    MarkerAlone(Begin(outer), inner);
    MarkerAlone(End(outer), inner);
    NestedTwoWays(outer, inner);
    ReplaceInShape(Begin(outer), inner, "", End(outer), "");
  }

  lemma NestedOuter(outer: string, inner: string)
    requires GoodName(outer) && GoodName(inner) && outer != inner
    ensures ReplaceSection(Nested(outer, inner), outer, "") == Some(Shape("", outer, Wrapped(""), ""))
  {
    OthersInShape("", inner, "", "", outer);
    ReplaceInShape("", outer, Shape("", inner, "", ""), "", "");
  }

  // ---- Replacements commute -----------------------------------------------------------------------

  /** Whatever the document: two replacements that succeed in both orders give the same. */
  lemma ReplacementsCommute(d: string, m: string, c: string, n: string, e: string)
    requires GoodName(m) && GoodName(n) && m != n
    requires Clear(c, m) && Clear(c, n) && Clear(e, m) && Clear(e, n)
    requires ReplaceSection(d, m, c).Some? && ReplaceSection(d, n, e).Some?
    requires ReplaceSection(ReplaceSection(d, m, c).value, n, e).Some?
    requires ReplaceSection(ReplaceSection(d, n, e).value, m, c).Some?
    ensures ReplaceSection(ReplaceSection(d, m, c).value, n, e) == ReplaceSection(ReplaceSection(d, n, e).value, m, c)
  {
    var a, x, b := NestedIsLost(d, m, c, n, e);
    OwnInShape(a, m, x, b);
    AcceptedIff(d, m, c);
    AcceptedIff(ReplaceSection(d, n, e).value, m, c);
    var front, l, y, r := ReplacedBeside(a, m, x, b, n, e);
    WrappedClear(c, m);
    WrappedClear(c, n);
    WrappedClear(e, m);
    WrappedClear(e, n);
    if front {
      CommuteInFront(l, n, y, r, m, x, b, c, e);
    } else {
      CommuteBehind(a, m, x, l, n, y, r, c, e);
    }
  }

  lemma CommuteInFront(l: string, n: string, y: string, r: string, m: string, x: string, b: string,
                       c: string, e: string)
    requires GoodName(m) && GoodName(n) && m != n
    requires Clear(l, n) && Clear(y, n) && Clear(r, n) && Clear(b, n) && Clear(Wrapped(c), n)
    requires Clear(Shape(l, n, y, r), m) && Clear(x, m) && Clear(b, m) && Clear(Wrapped(e), m)
    ensures ReplaceSection(Shape(Shape(l, n, y, r), m, Wrapped(c), b), n, e)
         == ReplaceSection(Shape(Shape(l, n, Wrapped(e), r), m, x, b), m, c)
  {
    OthersInShape(l, n, y, r, m);
    OthersInShape(l, n, Wrapped(e), r, m);
    OthersInShape(r, m, Wrapped(c), b, n);
    ReplaceInShape(Shape(l, n, Wrapped(e), r), m, x, b, c);
    ShapeAssoc(l, n, y, r, m, Wrapped(c), b);
    ReplaceInShape(l, n, y, Shape(r, m, Wrapped(c), b), e);
    ShapeAssoc(l, n, Wrapped(e), r, m, Wrapped(c), b);
  }

  lemma CommuteBehind(a: string, m: string, x: string, l: string, n: string, y: string, r: string,
                      c: string, e: string)
    requires GoodName(m) && GoodName(n) && m != n
    requires Clear(l, n) && Clear(y, n) && Clear(r, n) && Clear(a, n) && Clear(Wrapped(c), n)
    requires Clear(Shape(l, n, y, r), m) && Clear(x, m) && Clear(a, m) && Clear(Wrapped(e), m)
    ensures ReplaceSection(Shape(a, m, Wrapped(c), Shape(l, n, y, r)), n, e)
         == ReplaceSection(Shape(a, m, x, Shape(l, n, Wrapped(e), r)), m, c)
  {
    OthersInShape(l, n, y, r, m);
    OthersInShape(l, n, Wrapped(e), r, m);
    OthersInShape(a, m, Wrapped(c), l, n);
    ReplaceInShape(a, m, x, Shape(l, n, Wrapped(e), r), c);
    ShapeAssoc(a, m, Wrapped(c), l, n, y, r);
    ReplaceInShape(Shape(a, m, Wrapped(c), l), n, y, r, e);
    ShapeAssoc(a, m, Wrapped(c), l, n, Wrapped(e), r);
  }

  // ---- Regenerating a whole document ------------------------------------------------------------------

  /** Usable names, all different. */
  ghost predicate GoodNames(names: seq<string>) {
    && (forall i | 0 <= i < |names| :: GoodName(names[i]))
    && (forall i, j | 0 <= i < j < |names| :: names[i] != names[j])
  }

  /** No section is updated twice, and no new content holds a marker. */
  ghost predicate GoodUpdates(names: seq<string>, us: seq<Update>) {
    && (forall k | 0 <= k < |us| :: us[k].at < |names|)
    && (forall j, k | 0 <= j < k < |us| :: us[j].at != us[k].at)
    && (forall k, i | 0 <= k < |us| && 0 <= i < |names| :: Clear(us[k].content, names[i]))
  }

  lemma RestIsGood(names: seq<string>, us: seq<Update>)
    requires GoodUpdates(names, us) && us != []
    ensures GoodUpdates(names, us[1..])
  {}

  /** A replacement by content without markers of a section never adds one. */
  lemma CountsShrink(d: string, n: string, e: string, m: string)
    requires GoodName(n) && GoodName(m) && Clear(e, m) && ReplaceSection(d, n, e).Some?
    ensures var d' := ReplaceSection(d, n, e).value;
      && Count(d', Begin(m)) <= Count(d, Begin(m)) && Count(d', End(m)) <= Count(d, End(m))
      && (m == n ==> Once(d, m) && Once(d', m))
  {
    var a, y, b := ReplaceHasShape(d, n, e);
    WrappedClear(e, m);
    if m == n {
      OwnInShape(a, n, y, b);
      OwnInShape(a, n, Wrapped(e), b);
    } else {
      OthersInShape(a, n, y, b, m);
      OthersInShape(a, n, Wrapped(e), b, m);
    }
  }

  lemma {:induction false} ChainShrinks(d: string, names: seq<string>, us: seq<Update>, i: nat)
    requires GoodNames(names) && GoodUpdates(names, us) && i < |names| && Regenerate(d, names, us).Some?
    ensures var w := Regenerate(d, names, us).value;
      Count(w, Begin(names[i])) <= Count(d, Begin(names[i])) && Count(w, End(names[i])) <= Count(d, End(names[i]))
    decreases |us|
  {
    if us != [] {
      var u := us[0];
      CountsShrink(d, names[u.at], u.content, names[i]);
      RestIsGood(names, us);
      ChainShrinks(ReplaceSection(d, names[u.at], u.content).value, names, us[1..], i);
    }
  }

  /** The document has a section of that name with that body. */
  ghost predicate HasBody(d: string, name: string, body: string) {
    exists a, b :: d == Shape(a, name, body, b)
  }

  lemma KeepsBody(d: string, m: string, x: string, n: string, e: string)
    requires GoodName(m) && GoodName(n) && m != n && Once(d, m) && HasBody(d, m, x)
    requires Clear(x, n) && Clear(e, m)
    requires ReplaceSection(d, n, e).Some? && Once(ReplaceSection(d, n, e).value, m)
    ensures HasBody(ReplaceSection(d, n, e).value, m, x)
  {
    var a, b :| d == Shape(a, m, x, b);
    var front, l, y, r := ReplacedBeside(a, m, x, b, n, e);
  }

  lemma SetsBody(d: string, m: string, c: string)
    requires GoodName(m) && Clear(c, m) && ReplaceSection(d, m, c).Some?
    ensures var d' := ReplaceSection(d, m, c).value; Once(d', m) && HasBody(d', m, Wrapped(c))
  {
    var a, y, b := ReplaceHasShape(d, m, c);
    CountsShrink(d, m, c, m);
  }

  /** A section not updated keeps its body, unless a replacement took its markers. */
  lemma {:induction false} ChainKeeps(d: string, names: seq<string>, us: seq<Update>, i: nat, x: string)
    requires GoodNames(names) && GoodUpdates(names, us) && i < |names| && Regenerate(d, names, us).Some?
    requires forall k | 0 <= k < |us| :: us[k].at != i
    requires Once(d, names[i]) && HasBody(d, names[i], x) && forall j | 0 <= j < |names| :: Clear(x, names[j])
    requires Once(Regenerate(d, names, us).value, names[i])
    ensures HasBody(Regenerate(d, names, us).value, names[i], x)
    decreases |us|
  {
    if us != [] {
      var u := us[0];
      var d' := ReplaceSection(d, names[u.at], u.content).value;
      RestIsGood(names, us);
      CountsShrink(d, names[u.at], u.content, names[i]);
      ChainShrinks(d', names, us[1..], i);
      KeepsBody(d, names[i], x, names[u.at], u.content);
      ChainKeeps(d', names, us[1..], i, x);
    }
  }

  /** In the document written, every section still there has the content given for it. */
  lemma {:induction false} ChainSets(d: string, names: seq<string>, us: seq<Update>, k: nat)
    requires GoodNames(names) && GoodUpdates(names, us) && k < |us| && Regenerate(d, names, us).Some?
    requires Once(Regenerate(d, names, us).value, names[us[k].at])
    ensures HasBody(Regenerate(d, names, us).value, names[us[k].at], Wrapped(us[k].content))
    decreases |us|
  {
    var u := us[0];
    var d' := ReplaceSection(d, names[u.at], u.content).value;
    RestIsGood(names, us);
    if k == 0 {
      SetsBody(d, names[u.at], u.content);
      forall j | 0 <= j < |names|
        ensures Clear(Wrapped(u.content), names[j])
      {
        WrappedClear(u.content, names[j]);
      }
      ChainKeeps(d', names, us[1..], u.at, Wrapped(u.content));
    } else {
      ChainSets(d', names, us[1..], k - 1);
    }
  }

  lemma ReplaceSame(d: string, m: string, c: string)
    requires GoodName(m) && Once(d, m) && HasBody(d, m, Wrapped(c))
    ensures ReplaceSection(d, m, c) == Some(d)
  {
    var a, b :| d == Shape(a, m, Wrapped(c), b);
    OwnInShape(a, m, Wrapped(c), b);
    ReplaceInShape(a, m, Wrapped(c), b, c);
  }

  lemma {:induction false} ChainSame(w: string, names: seq<string>, us: seq<Update>)
    requires GoodNames(names) && forall k | 0 <= k < |us| :: us[k].at < |names|
    requires forall k | 0 <= k < |us| ::
      Once(w, names[us[k].at]) && HasBody(w, names[us[k].at], Wrapped(us[k].content))
    ensures Regenerate(w, names, us) == Some(w)
    decreases |us|
  {
    if us != [] {
      ReplaceSame(w, names[us[0].at], us[0].content);
      ChainSame(w, names, us[1..]);
    }
  }

  /** A chain that succeeds found each of its sections at its turn. */
  lemma {:induction false} ChainFound(v: string, names: seq<string>, us: seq<Update>, k: nat)
    requires GoodNames(names) && GoodUpdates(names, us) && k < |us| && Regenerate(v, names, us).Some?
    ensures var w, n := Regenerate(v, names, us).value, names[us[k].at];
      && Count(w, Begin(n)) <= 1 <= Count(v, Begin(n)) && Count(w, End(n)) <= 1 <= Count(v, End(n))
    decreases |us|
  {
    var u, n := us[0], names[us[k].at];
    var v' := ReplaceSection(v, names[u.at], u.content).value;
    RestIsGood(names, us);
    CountsShrink(v, names[u.at], u.content, n);
    if k == 0 {
      ChainShrinks(v', names, us[1..], u.at);
    } else {
      ChainFound(v', names, us[1..], k - 1);
    }
  }

  /** For any document: if regenerating it gives w, then regenerating w gives w again, and
      the check after a write succeeds, exactly when every section updated still has both of
      its markers in w. */
  lemma {:induction false} CheckAfterWrite(d: string, names: seq<string>, us: seq<Update>)
    requires GoodNames(names) && GoodUpdates(names, us) && Regenerate(d, names, us).Some?
    ensures var w := Regenerate(d, names, us).value;
      Regenerate(w, names, us) == Some(w) <==> forall k | 0 <= k < |us| :: Once(w, names[us[k].at])
  {
    var w := Regenerate(d, names, us).value;
    if Regenerate(w, names, us) == Some(w) {
      forall k | 0 <= k < |us|
        ensures Once(w, names[us[k].at])
      {
        ChainFound(w, names, us, k);
      }
    }
    if forall k | 0 <= k < |us| :: Once(w, names[us[k].at]) {
      forall k | 0 <= k < |us|
        ensures HasBody(w, names[us[k].at], Wrapped(us[k].content))
      {
        ChainSets(d, names, us, k);
      }
      ChainSame(w, names, us);
    }
  }

  // ---- The same condition before the write ------------------------------------------------------------

  /** What a section holds; nothing when there is no such section. */
  function BodyOf(d: string, name: string): string {
    match Partition(d, Begin(name))
    case None => ""
    case Some(p) =>
      match Partition(p.1, End(name))
      case None => ""
      case Some(q) => q.0
  }

  lemma BodyInShape(a: string, m: string, x: string, b: string)
    requires GoodName(m) && Clear(a, m) && Clear(x, m)
    ensures BodyOf(Shape(a, m, x, b), m) == x
  {
    NameMarkers(m);
    PartitionAround(a, Begin(m), x + End(m) + b);
    PartitionAround(x, End(m), b);
  }

  /** Whether a section holds another one's markers does not depend on what a third section,
      or the other one itself, holds. */
  lemma BodyHoldsSame(a: string, o: string, x: string, x': string, b: string, m: string, n: string, e: string)
    requires GoodName(o) && GoodName(m) && GoodName(n) && m != o && m != n
    requires Clear(x, m) && Clear(x', m) && Clear(x, n) && Clear(x', n)
    requires ReplaceSection(Shape(a, o, x, b), m, e).Some?
    ensures Clear(BodyOf(Shape(a, o, x, b), m), n) <==> Clear(BodyOf(Shape(a, o, x', b), m), n)
  {
    var k := Begin(m);
    NameMarkers(m);
    NameMarkers(o);
    MarkersDiffer(m, o);
    OthersInShape(a, o, x, b, m);
    AcceptedIff(Shape(a, o, x, b), m, e);
    if Count(a, k) > 0 {
      var l, r := SplitFirst(a, k);
      AfterInFront(l, k, r, Begin(o), x + End(o) + b);
      AfterInFront(l, k, r, Begin(o), x' + End(o) + b);
      RestHoldsSame(r, o, x, x', b, m, n);
    } else {
      var l, r := SplitFirst(b, k);
      AfterBehind(a, o, x, l, r, k);
      AfterBehind(a, o, x', l, r, k);
    }
  }

  /** The same from the opening marker on, when that comes before the third section. */
  lemma RestHoldsSame(r: string, o: string, x: string, x': string, b: string, m: string, n: string)
    requires GoodName(o) && GoodName(m) && GoodName(n) && m != o
    requires Clear(x, m) && Clear(x', m) && Clear(x, n) && Clear(x', n)
    requires Count(Shape(r, o, x, b), End(m)) > 0
    ensures Partition(Shape(r, o, x, b), End(m)).Some? && Partition(Shape(r, o, x', b), End(m)).Some?
    ensures Clear(Partition(Shape(r, o, x, b), End(m)).value.0, n)
       <==> Clear(Partition(Shape(r, o, x', b), End(m)).value.0, n)
  {
    var k := End(m);
    NameMarkers(m);
    NameMarkers(o);
    NameMarkers(n);
    MarkersDiffer(m, o);
    CountShape(r, o, x, b, k);
    if Count(r, k) > 0 {
      var y, t := SplitFirst(r, k);
      AfterInFront(y, k, t, Begin(o), x + End(o) + b);
      AfterInFront(y, k, t, Begin(o), x' + End(o) + b);
    } else {
      var y, t := SplitFirst(b, k);
      AfterBehind(r, o, x, y, t, k);
      AfterBehind(r, o, x', y, t, k);
      CountShape(r, o, x, y, Begin(n));
      CountShape(r, o, x, y, End(n));
      CountShape(r, o, x', y, Begin(n));
      CountShape(r, o, x', y, End(n));
    }
  }

  /** All sections the updates name are there, each once. */
  ghost predicate AllOnce(d: string, names: seq<string>, us: seq<Update>)
    requires forall k | 0 <= k < |us| :: us[k].at < |names|
  {
    forall k | 0 <= k < |us| :: Once(d, names[us[k].at])
  }

  lemma OnceAfter(d: string, names: seq<string>, us: seq<Update>)
    requires GoodNames(names) && GoodUpdates(names, us) && us != [] && AllOnce(d, names, us)
    requires Regenerate(d, names, us).Some?
    ensures GoodUpdates(names, us[1..])
    ensures AllOnce(ReplaceSection(d, names[us[0].at], us[0].content).value, names, us[1..])
  {
    var u := us[0];
    var d' := ReplaceSection(d, names[u.at], u.content).value;
    RestIsGood(names, us);
    forall k | 0 <= k < |us| - 1
      ensures Once(d', names[us[1..][k].at])
    {
      assert Once(d, names[us[k+1].at]);
      CountsShrink(d, names[u.at], u.content, names[us[k+1].at]);
      ChainFound(d', names, us[1..], k);
    }
  }

  /** The body replaced holds no marker of a section that is still there afterwards. */
  lemma BodyIsClear(a: string, m: string, x: string, b: string, c: string, n: string)
    requires GoodName(m) && GoodName(n) && m != n && Clear(c, n)
    requires Once(Shape(a, m, x, b), n) && Once(Shape(a, m, Wrapped(c), b), n)
    ensures Clear(x, n)
  {
    WrappedClear(c, n);
    OthersInShape(a, m, x, b, n);
    OthersInShape(a, m, Wrapped(c), b, n);
  }

  /** A chain that succeeds could have replaced each of its sections first. */
  lemma {:induction false} ChainAccepts(d: string, names: seq<string>, us: seq<Update>, k: nat)
    requires GoodNames(names) && GoodUpdates(names, us) && AllOnce(d, names, us) && k < |us|
    requires Regenerate(d, names, us).Some?
    ensures ReplaceSection(d, names[us[k].at], us[k].content).Some?
    decreases |us|
  {
    if k > 0 {
      var u, n := us[0], names[us[k].at];
      var a, x, b := ReplaceHasShape(d, names[u.at], u.content);
      OnceAfter(d, names, us);
      ChainAccepts(Shape(a, names[u.at], Wrapped(u.content), b), names, us[1..], k - 1);
      assert us[1..][k-1] == us[k] && Once(d, n);
      assert Once(Shape(a, names[u.at], Wrapped(u.content), b), names[us[1..][k-1].at]);
      BodyIsClear(a, names[u.at], x, b, u.content, n);
      WrappedClear(u.content, n);
      SameWithOtherBody(a, names[u.at], Wrapped(u.content), x, b, n, us[k].content);
    }
  }

  /** The first replacement leaves unchanged whether a later section holds section i. */
  lemma HoldsSameAfter(d: string, names: seq<string>, us: seq<Update>, k: nat, i: nat)
    requires GoodNames(names) && GoodUpdates(names, us) && AllOnce(d, names, us) && 0 < k < |us|
    requires Regenerate(d, names, us).Some? && i < |names| && i != us[k].at
    requires i == us[0].at || (Once(d, names[i]) && Clear(BodyOf(d, names[us[0].at]), names[i]))
    ensures var d' := ReplaceSection(d, names[us[0].at], us[0].content).value;
      Clear(BodyOf(d, names[us[k].at]), names[i]) <==> Clear(BodyOf(d', names[us[k].at]), names[i])
  {
    var u, n := us[0], names[us[k].at];
    var a, x, b := ReplaceHasShape(d, names[u.at], u.content);
    BodyInShape(a, names[u.at], x, b);
    OnceAfter(d, names, us);
    assert us[1..][k-1] == us[k] && Once(d, n);
    assert Once(Shape(a, names[u.at], Wrapped(u.content), b), names[us[1..][k-1].at]);
    BodyIsClear(a, names[u.at], x, b, u.content, n);
    WrappedClear(u.content, n);
    WrappedClear(u.content, names[i]);
    ChainAccepts(d, names, us, k);
    BodyHoldsSame(a, names[u.at], x, Wrapped(u.content), b, n, names[i], us[k].content);
  }

  /** A section not updated survives the chain exactly when none updated holds it. */
  lemma {:induction false} ChainLoses(d: string, names: seq<string>, us: seq<Update>, i: nat)
    requires GoodNames(names) && GoodUpdates(names, us) && AllOnce(d, names, us)
    requires Regenerate(d, names, us).Some? && i < |names| && Once(d, names[i])
    requires forall k | 0 <= k < |us| :: us[k].at != i
    ensures Once(Regenerate(d, names, us).value, names[i])
       <==> forall k | 0 <= k < |us| :: Clear(BodyOf(d, names[us[k].at]), names[i])
    decreases |us|
  {
    if us != [] {
      var u, n := us[0], names[i];
      var m := names[u.at];
      var a, x, b := ReplaceHasShape(d, m, u.content);
      var d' := Shape(a, m, Wrapped(u.content), b);
      BodyInShape(a, m, x, b);
      WrappedClear(u.content, n);
      OthersInShape(a, m, x, b, n);
      OthersInShape(a, m, Wrapped(u.content), b, n);
      OnceAfter(d, names, us);
      ChainShrinks(d', names, us[1..], i);
      if Clear(x, n) {
        ChainLoses(d', names, us[1..], i);
        forall k | 0 < k < |us|
          ensures us[1..][k-1] == us[k]
          ensures Clear(BodyOf(d, names[us[k].at]), n) <==> Clear(BodyOf(d', names[us[k].at]), n)
        {
          HoldsSameAfter(d, names, us, k, i);
        }
        AllFromSecond(d, d', names, us, n);
      } else {
        assert BodyOf(d, names[us[0].at]) == x;
      }
    }
  }

  lemma AllFromSecond(d: string, d': string, names: seq<string>, us: seq<Update>, n: string)
    requires us != [] && forall k | 0 <= k < |us| :: us[k].at < |names|
    requires Clear(BodyOf(d, names[us[0].at]), n)
    requires forall k | 0 < k < |us| ::
      Clear(BodyOf(d, names[us[k].at]), n) <==> Clear(BodyOf(d', names[us[k].at]), n)
    ensures (forall k | 0 <= k < |us| :: Clear(BodyOf(d, names[us[k].at]), n))
       <==> forall k | 0 <= k < |us[1..]| :: Clear(BodyOf(d', names[us[1..][k].at]), n)
  {
    forall k | 0 < k < |us|
      ensures us[k] == us[1..][k-1]
    {}
  }

  /** No section updated after j holds section j. */
  ghost predicate HeldByNone(d: string, names: seq<string>, us: seq<Update>, j: nat)
    requires j < |us| && forall k | 0 <= k < |us| :: us[k].at < |names|
  {
    forall k | j < k < |us| :: Clear(BodyOf(d, names[us[k].at]), names[us[j].at])
  }

  lemma {:induction false} WriteKeeps(d: string, names: seq<string>, us: seq<Update>, j: nat)
    requires GoodNames(names) && GoodUpdates(names, us) && AllOnce(d, names, us) && j < |us|
    requires Regenerate(d, names, us).Some?
    ensures Once(Regenerate(d, names, us).value, names[us[j].at]) <==> HeldByNone(d, names, us, j)
    decreases |us|
  {
    var u, i := us[0], us[j].at;
    var d' := ReplaceSection(d, names[u.at], u.content).value;
    OnceAfter(d, names, us);
    if j == 0 {
      SetsBody(d, names[u.at], u.content);
      ChainLoses(d', names, us[1..], i);
    } else {
      assert us[1..][j-1] == us[j];
      FirstHoldsNone(d, names, us, j);
      WriteKeeps(d', names, us[1..], j - 1);
    }
    forall k | j < k < |us|
      ensures us[1..][k-1] == us[k]
      ensures Clear(BodyOf(d, names[us[k].at]), names[i]) <==> Clear(BodyOf(d', names[us[k].at]), names[i])
    {
      HoldsSameAfter(d, names, us, k, i);
    }
    LaterHolds(d, d', names, us, j);
  }

  /** The first section holds none of those updated after it, or the chain would stop there. */
  lemma FirstHoldsNone(d: string, names: seq<string>, us: seq<Update>, j: nat)
    requires GoodNames(names) && GoodUpdates(names, us) && AllOnce(d, names, us) && 0 < j < |us|
    requires Regenerate(d, names, us).Some?
    ensures Once(d, names[us[j].at]) && Clear(BodyOf(d, names[us[0].at]), names[us[j].at])
  {
    var u, n := us[0], names[us[j].at];
    var a, x, b := ReplaceHasShape(d, names[u.at], u.content);
    BodyInShape(a, names[u.at], x, b);
    OnceAfter(d, names, us);
    assert us[1..][j-1] == us[j];
    assert Once(Shape(a, names[u.at], Wrapped(u.content), b), names[us[1..][j-1].at]);
    BodyIsClear(a, names[u.at], x, b, u.content, n);
  }

  lemma LaterHolds(d: string, d': string, names: seq<string>, us: seq<Update>, j: nat)
    requires j < |us| && forall k | 0 <= k < |us| :: us[k].at < |names|
    requires forall k | j < k < |us| ::
      Clear(BodyOf(d, names[us[k].at]), names[us[j].at]) <==> Clear(BodyOf(d', names[us[k].at]), names[us[j].at])
    ensures HeldByNone(d, names, us, j) <==>
      forall k | j <= k < |us[1..]| :: Clear(BodyOf(d', names[us[1..][k].at]), names[us[j].at])
  {
    forall k | j < k < |us|
      ensures us[k] == us[1..][k-1]
    {}
  }

  /** What can be told before writing: if every section is there once and regenerating
      succeeds, the check after the write succeeds exactly when no section lies in one that is
      updated after it. */
  lemma {:induction false} CheckBeforeWrite(d: string, names: seq<string>, us: seq<Update>)
    requires GoodNames(names) && GoodUpdates(names, us) && AllOnce(d, names, us)
    requires Regenerate(d, names, us).Some?
    ensures var w := Regenerate(d, names, us).value;
      Regenerate(w, names, us) == Some(w) <==> forall j | 0 <= j < |us| :: HeldByNone(d, names, us, j)
  {
    CheckAfterWrite(d, names, us);
    forall j | 0 <= j < |us|
      ensures Once(Regenerate(d, names, us).value, names[us[j].at]) <==> HeldByNone(d, names, us, j)
    {
      WriteKeeps(d, names, us, j);
    }
  }
}

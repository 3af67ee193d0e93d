/** Regenerating the marked sections of a document. */
module Sections {
  import opened ByteStrings

  // ---- Markers ---------------------------------------------------------------------------

  function Begin(name: string): string {
    "<!-- BEGIN " + name + " -->"
  }

  function End(name: string): string {
    "<!-- END " + name + " -->"
  }

  predicate Plain(name: string) {
    forall i | 0 <= i < |name| :: name[i] != '<' && name[i] != '>'
  }

  /** An angle bracket at each end and none between: two different ones never overlap. */
  predicate IsMarker(m: string) {
    && |m| >= 2 && m[0] == '<' && m[|m|-1] == '>'
    && forall i | 0 < i < |m| - 1 :: m[i] != '<' && m[i] != '>'
  }

  lemma MarkersOf(name: string)
    requires Plain(name)
    ensures IsMarker(Begin(name)) && IsMarker(End(name)) && Begin(name) != End(name)
  {
    var b, e := Begin(name), End(name);
    assert b == "<!-- BEGIN " + (name + " -->") && e == "<!-- END " + (name + " -->");
    assert b[5] == 'B' && e[5] == 'E';
    assert forall i | 0 < i < 11 :: "<!-- BEGIN "[i] != '<' && "<!-- BEGIN "[i] != '>';
    assert forall i | 0 < i < 9 :: "<!-- END "[i] != '<' && "<!-- END "[i] != '>';
    assert forall i | 0 <= i < 3 :: " -->"[i] != '<' && " -->"[i] != '>';
  }

  lemma MarkersDiffer(a: string, b: string)
    requires a != b
    ensures Begin(a) != Begin(b) && End(a) != End(b) && Begin(a) != End(b) && End(a) != Begin(b)
  {
    Unwrap("<!-- BEGIN ", a, b, " -->");
    Unwrap("<!-- END ", a, b, " -->");
    assert Begin(a)[5] == 'B' && Begin(b)[5] == 'B' && End(a)[5] == 'E' && End(b)[5] == 'E';
  }

  lemma Unwrap(pre: string, a: string, b: string, post: string)
    ensures pre + a + post == pre + b + post <==> a == b
  {
    var s, t := pre + a + post, pre + b + post;
    assert s[|pre|..|s|-|post|] == a && t[|pre|..|t|-|post|] == b;
  }

  // ---- str.count and str.split -------------------------------------------------------------

  /** Non-overlapping occurrences, from the left. */
  function Count(d: string, m: string): nat
    requires m != ""
    decreases |d|
  {
    if d == "" then 0
    else if m <= d then 1 + Count(d[|m|..], m)
    else Count(d[1..], m)
  }

  /** The text before and after the first occurrence. */
  function Partition(d: string, m: string): Option<(string, string)>
    requires m != ""
    decreases |d|
  {
    if d == "" then None
    else if m <= d then Some(("", d[|m|..]))
    else match Partition(d[1..], m)
      case None => None
      case Some(p) => Some(([d[0]] + p.0, p.1))
  }

  /** replace_section; None is its ValueError. */
  function ReplaceSection(d: string, name: string, content: string): Option<string> {
    var start, end := Begin(name), End(name);
    if Count(d, start) != 1 || Count(d, end) != 1 then None else
    match Partition(d, start)
    case None => None
    case Some(p) =>
      match Partition(p.1, end)
      case None => None
      case Some(q) => Some(p.0 + start + ("\n" + content + "\n") + end + q.1)
  }

  // ---- Occurrences never straddle a marker ---------------------------------------------------

  lemma MarkerPrefix(m: string, n: string, b: string)
    requires IsMarker(m) && IsMarker(n)
    ensures m <= n + b <==> m == n
  {
    var d := n + b;
    if |m| < |n| {
      assert d[|m|-1] == n[|m|-1] && d[|m|-1] != '>';
    } else if |m| > |n| {
      assert d[|n|-1] == '>' && m[|n|-1] != '>';
    } else {
      assert d[..|n|] == n;
    }
  }

  lemma PrefixBeforeMarker(m: string, a: string, n: string, b: string)
    requires IsMarker(m) && IsMarker(n) && a != ""
    ensures m <= a + n + b <==> m <= a
  {
    var d := a + n + b;
    if |m| > |a| {
      assert d[|a|] == '<' && m[|a|] != '<';
    } else {
      assert d[..|m|] == a[..|m|];
    }
  }

  lemma {:induction false} CountNoOpen(x: string, b: string, m: string)
    requires IsMarker(m) && forall i | 0 <= i < |x| :: x[i] != '<'
    ensures Count(x + b, m) == Count(b, m)
  {
    if x == "" {
      assert x + b == b;
    } else {
      CountNoOpen(x[1..], b, m);
      assert (x + b)[1..] == x[1..] + b;
      assert (x + b)[0] == x[0];
    }
  }

  lemma CountAtMarker(n: string, b: string, m: string)
    requires IsMarker(m) && IsMarker(n)
    ensures Count(n + b, m) == (if m == n then 1 else 0) + Count(b, m)
  {
    var d := n + b;
    MarkerPrefix(m, n, b);
    if m == n {
      assert d[|m|..] == b;
    } else {
      assert d[1..] == n[1..] + b;
      CountNoOpen(n[1..], b, m);
    }
  }

  /** Occurrences in a text around a marker are those before it, itself, and those after. */
  lemma {:induction false} CountAround(a: string, n: string, b: string, m: string)
    requires IsMarker(m) && IsMarker(n)
    ensures Count(a + n + b, m) == Count(a, m) + (if m == n then 1 else 0) + Count(b, m)
    decreases |a|
  {
    var d := a + n + b;
    if a == "" {
      assert d == n + b;
      CountAtMarker(n, b, m);
    } else {
      PrefixBeforeMarker(m, a, n, b);
      var k := if m <= a then |m| else 1;
      CountAround(a[k..], n, b, m);
      assert d[k..] == a[k..] + n + b;
    }
  }

  lemma {:induction false} PartitionAround(a: string, m: string, b: string)
    requires IsMarker(m) && Count(a, m) == 0
    ensures Partition(a + m + b, m) == Some((a, b))
    decreases |a|
  {
    var d := a + m + b;
    if a == "" {
      assert d == m + b;
      MarkerPrefix(m, m, b);
      assert d[|m|..] == b;
    } else {
      PrefixBeforeMarker(m, a, m, b);
      PartitionAround(a[1..], m, b);
      assert d[1..] == a[1..] + m + b;
      assert a == [a[0]] + a[1..];
    }
  }

  lemma {:induction false} PartitionParts(d: string, m: string)
    requires m != "" && Count(d, m) > 0
    ensures Partition(d, m).Some?
    ensures var p := Partition(d, m).value; d == p.0 + m + p.1
    decreases |d|
  {
    if m <= d {
      assert d == m + d[|m|..];
      assert "" + m == m;
    } else {
      PartitionParts(d[1..], m);
      var p := Partition(d[1..], m).value;
      Assoc([d[0]], p.0, m);
      Assoc([d[0]], p.0 + m, p.1);
      assert d == [d[0]] + d[1..];
    }
  }

  // ---- One section -------------------------------------------------------------------------------

  /** before, begin marker, body, end marker, after. */
  function Shape(a: string, name: string, body: string, b: string): string {
    a + Begin(name) + (body + End(name) + b)
  }

  lemma CountShape(a: string, name: string, body: string, b: string, m: string)
    requires Plain(name) && IsMarker(m)
    ensures Count(Shape(a, name, body, b), m)
         == Count(a, m) + Count(body, m) + Count(b, m) + (if m == Begin(name) || m == End(name) then 1 else 0)
  {
    MarkersOf(name);
    CountAround(a, Begin(name), body + End(name) + b, m);
    CountAround(body, End(name), b, m);
  }

  /** Where there is exactly one section of that name, its body alone is replaced. */
  lemma ReplaceInShape(a: string, name: string, body: string, b: string, content: string)
    requires Plain(name)
    requires Count(a, Begin(name)) == Count(body, Begin(name)) == Count(b, Begin(name)) == 0
    requires Count(a, End(name)) == Count(body, End(name)) == Count(b, End(name)) == 0
    ensures ReplaceSection(Shape(a, name, body, b), name, content)
         == Some(Shape(a, name, "\n" + content + "\n", b))
  {
    MarkersOf(name);
    CountShape(a, name, body, b, Begin(name));
    CountShape(a, name, body, b, End(name));
    PartitionAround(a, Begin(name), body + End(name) + b);
    PartitionAround(body, End(name), b);
    Regroup(a, Begin(name), "\n" + content + "\n", End(name), b);
  }

  lemma Regroup(a: string, s: string, x: string, e: string, b: string)
    ensures a + s + x + e + b == a + s + (x + e + b)
  {
    assert a + s + x + e + b == (a + s) + ((x + e) + b);
  }

  /** Conversely, a document it accepts has that shape. */
  lemma ReplaceHasShape(d: string, name: string, content: string) returns (a: string, body: string, b: string)
    requires Plain(name) && ReplaceSection(d, name, content).Some?
    ensures d == Shape(a, name, body, b)
    ensures ReplaceSection(d, name, content) == Some(Shape(a, name, "\n" + content + "\n", b))
    ensures Count(a, Begin(name)) == Count(body, Begin(name)) == Count(b, Begin(name)) == 0
    ensures Count(a, End(name)) == Count(body, End(name)) == Count(b, End(name)) == 0
  {
    var start, end := Begin(name), End(name);
    var p := Partition(d, start).value;
    var q := Partition(p.1, end).value;
    MarkersOf(name);
    PartitionParts(d, start);
    PartitionFound(p.1, end);
    PartitionParts(p.1, end);
    a, body, b := p.0, q.0, q.1;
    CountShape(a, name, body, b, start);
    CountShape(a, name, body, b, end);
    Regroup(a, start, "\n" + content + "\n", end, b);
  }

  lemma {:induction false} PartitionFound(d: string, m: string)
    requires m != "" && Partition(d, m).Some?
    ensures Count(d, m) > 0
    decreases |d|
  {
    if !(m <= d) {
      PartitionFound(d[1..], m);
    }
  }

  // ---- Replacing again ------------------------------------------------------------------------------

  lemma {:induction false} CountTrailingNewline(c: string, m: string)
    requires IsMarker(m) && '\n' !in m
    ensures Count(c + "\n", m) == Count(c, m)
    decreases |c|
  {
    var d := c + "\n";
    if c == "" {
      assert d == "\n" && d[1..] == "";
    } else {
      assert m <= d <==> m <= c by {
        if |m| > |c| {
          assert d[|c|] == '\n' && m[|c|] != '\n';
        } else {
          assert d[..|m|] == c[..|m|];
        }
      }
      var k := if m <= c then |m| else 1;
      CountTrailingNewline(c[k..], m);
      assert d[k..] == c[k..] + "\n";
    }
  }

  lemma CountContent(c: string, m: string)
    requires IsMarker(m) && '\n' !in m
    ensures Count("\n" + c + "\n", m) == Count(c, m)
  {
    CountNoOpen("\n", c + "\n", m);
    assert "\n" + c + "\n" == "\n" + (c + "\n");
    CountTrailingNewline(c, m);
  }

  lemma MarkersHaveNoNewline(name: string)
    requires '\n' !in name
    ensures '\n' !in Begin(name) && '\n' !in End(name)
  {}

  /** Replacing a section a second time succeeds, and then changes nothing, exactly when
      the content does not hold the section's own markers. */
  lemma ReplaceTwice(d: string, name: string, content: string)
    requires Plain(name) && '\n' !in name && ReplaceSection(d, name, content).Some?
    ensures var once := ReplaceSection(d, name, content).value;
      ReplaceSection(once, name, content) == Some(once)
      <==> Count(content, Begin(name)) == 0 && Count(content, End(name)) == 0
  {
    var a, body, b := ReplaceHasShape(d, name, content);
    var put := "\n" + content + "\n";
    MarkersOf(name);
    MarkersHaveNoNewline(name);
    CountContent(content, Begin(name));
    CountContent(content, End(name));
    CountShape(a, name, put, b, Begin(name));
    CountShape(a, name, put, b, End(name));
    if Count(content, Begin(name)) == 0 && Count(content, End(name)) == 0 {
      ReplaceInShape(a, name, put, b, content);
    }
  }

  // ---- Whole documents ------------------------------------------------------------------------------

  /** A section and the text after it. */
  datatype Part = Part(name: string, body: string, tail: string)

  /** A document of sections side by side, none inside another. */
  function Flat(head: string, parts: seq<Part>): string
    decreases |parts|
  {
    if parts == [] then head
    else Shape(head, parts[0].name, parts[0].body, Flat(parts[0].tail, parts[1..]))
  }

  /** Everything in front of section i. */
  function Front(head: string, parts: seq<Part>, i: nat): string
    requires i < |parts|
    decreases i
  {
    if i == 0 then head
    else Shape(head, parts[0].name, parts[0].body, Front(parts[0].tail, parts[1..], i - 1))
  }

  lemma ShapeAssoc(a: string, n: string, x: string, a': string, n': string, x': string, b: string)
    ensures Shape(a, n, x, Shape(a', n', x', b)) == Shape(Shape(a, n, x, a'), n', x', b)
  {
    var left, tail := a + Begin(n), x + End(n);
    var rest := x' + End(n') + b;
    assert tail + (a' + Begin(n') + rest) == tail + a' + Begin(n') + rest;
    assert left + (tail + a' + Begin(n') + rest) == left + (tail + a') + Begin(n') + rest;
  }

  lemma {:induction false} FlatAt(head: string, parts: seq<Part>, i: nat)
    requires i < |parts|
    ensures Flat(head, parts)
         == Shape(Front(head, parts, i), parts[i].name, parts[i].body, Flat(parts[i].tail, parts[i+1..]))
    decreases i
  {
    if i > 0 {
      var p, rest := parts[0], parts[1..];
      FlatAt(p.tail, rest, i - 1);
      assert rest[i-1] == parts[i] && rest[i..] == parts[i+1..];
      ShapeAssoc(head, p.name, p.body, Front(p.tail, rest, i - 1), parts[i].name, parts[i].body,
                 Flat(parts[i].tail, parts[i+1..]));
    }
  }

  /** No text between or inside sections holds the marker. */
  predicate FreeOf(head: string, parts: seq<Part>, m: string)
    requires m != ""
  {
    Count(head, m) == 0 && forall i | 0 <= i < |parts| :: Count(parts[i].body, m) == 0 && Count(parts[i].tail, m) == 0
  }

  predicate NotNamed(parts: seq<Part>, name: string) {
    forall i | 0 <= i < |parts| :: Plain(parts[i].name) && parts[i].name != name
  }

  lemma {:induction false} FlatHasNone(head: string, parts: seq<Part>, name: string, m: string)
    requires Plain(name) && (m == Begin(name) || m == End(name))
    requires FreeOf(head, parts, m) && NotNamed(parts, name)
    ensures Count(Flat(head, parts), m) == 0
    decreases |parts|
  {
    MarkersOf(name);
    if parts != [] {
      var p, rest := parts[0], parts[1..];
      MarkersDiffer(name, p.name);
      FlatHasNone(p.tail, rest, name, m);
      CountShape(head, p.name, p.body, Flat(p.tail, rest), m);
    }
  }

  lemma {:induction false} FrontHasNone(head: string, parts: seq<Part>, i: nat, m: string)
    requires i < |parts| && Plain(parts[i].name) && (m == Begin(parts[i].name) || m == End(parts[i].name))
    requires FreeOf(head, parts, m) && NotNamed(parts[..i], parts[i].name)
    ensures Count(Front(head, parts, i), m) == 0
    decreases i
  {
    MarkersOf(parts[i].name);
    if i > 0 {
      var p, rest := parts[0], parts[1..];
      assert parts[..i][0] == p && rest[..i-1] == parts[..i][1..] && rest[i-1] == parts[i];
      MarkersDiffer(parts[i].name, p.name);
      FrontHasNone(p.tail, rest, i - 1, m);
      CountShape(head, p.name, p.body, Front(p.tail, rest, i - 1), m);
    }
  }

  /** Distinct names, and no marker of any of them outside its place. */
  ghost predicate ValidDoc(head: string, parts: seq<Part>) {
    && (forall i | 0 <= i < |parts| :: Plain(parts[i].name) && '\n' !in parts[i].name)
    && (forall i, j | 0 <= i < j < |parts| :: parts[i].name != parts[j].name)
    && (forall i | 0 <= i < |parts| ::
          FreeOf(head, parts, Begin(parts[i].name)) && FreeOf(head, parts, End(parts[i].name)))
  }

  function Wrapped(content: string): string {
    "\n" + content + "\n"
  }

  function SetBody(parts: seq<Part>, i: nat, content: string): seq<Part>
    requires i < |parts|
  {
    parts[i := parts[i].(body := Wrapped(content))]
  }

  lemma {:induction false} FrontIgnores(head: string, parts: seq<Part>, i: nat, q: Part)
    requires i < |parts|
    ensures Front(head, parts[i := q], i) == Front(head, parts, i)
    decreases i
  {
    if i > 0 {
      FrontIgnores(parts[0].tail, parts[1..], i - 1, q);
      UpdateTail(parts, i, q);
    }
  }

  lemma UpdateTail(parts: seq<Part>, i: nat, q: Part)
    requires 0 < i < |parts|
    ensures parts[i := q][0] == parts[0] && parts[i := q][1..] == parts[1..][i-1 := q]
  {}

  lemma FlatAround(head: string, parts: seq<Part>, i: nat, content: string)
    requires i < |parts|
    ensures var p, front, rest := parts[i], Front(head, parts, i), Flat(parts[i].tail, parts[i+1..]);
      && Flat(head, parts) == Shape(front, p.name, p.body, rest)
      && Flat(head, SetBody(parts, i, content)) == Shape(front, p.name, Wrapped(content), rest)
  {
    var after := SetBody(parts, i, content);
    FlatAt(head, parts, i);
    FlatAt(head, after, i);
    FrontIgnores(head, parts, i, after[i]);
    assert after[i+1..] == parts[i+1..];
  }

  /** Replacing a section of a document of sections changes that section's body and
      nothing else. */
  lemma ReplaceSetsBody(head: string, parts: seq<Part>, i: nat, content: string)
    requires ValidDoc(head, parts) && i < |parts|
    ensures ReplaceSection(Flat(head, parts), parts[i].name, content) == Some(Flat(head, SetBody(parts, i, content)))
  {
    var p := parts[i];
    assert FreeOf(head, parts, Begin(p.name)) && FreeOf(head, parts, End(p.name));
    FlatAround(head, parts, i, content);
    FrontHasNone(head, parts, i, Begin(p.name));
    FrontHasNone(head, parts, i, End(p.name));
    FlatHasNone(p.tail, parts[i+1..], p.name, Begin(p.name));
    FlatHasNone(p.tail, parts[i+1..], p.name, End(p.name));
    ReplaceInShape(Front(head, parts, i), p.name, p.body, Flat(p.tail, parts[i+1..]), content);
  }

  /** The content holds no marker of the document's sections. */
  ghost predicate ContentFree(parts: seq<Part>, content: string) {
    forall i | 0 <= i < |parts| :: Count(content, Begin(parts[i].name)) == 0 && Count(content, End(parts[i].name)) == 0
  }

  lemma SetBodyValid(head: string, parts: seq<Part>, i: nat, content: string)
    requires ValidDoc(head, parts) && i < |parts| && ContentFree(parts, content)
    ensures ValidDoc(head, SetBody(parts, i, content))
  {
    var after := SetBody(parts, i, content);
    forall j | 0 <= j < |after|
      ensures FreeOf(head, after, Begin(after[j].name)) && FreeOf(head, after, End(after[j].name))
    {
      var name := parts[j].name;
      assert after[j].name == name && FreeOf(head, parts, Begin(name)) && FreeOf(head, parts, End(name));
      MarkersOf(name);
      MarkersHaveNoNewline(name);
      CountContent(content, Begin(name));
      CountContent(content, End(name));
    }
  }

  // ---- Regenerating ------------------------------------------------------------------------------------

  /** The new content of section `at`. */
  datatype Update = Update(at: nat, content: string)

  /** One replacement after the other; None as soon as one fails. */
  function Regenerate(d: string, names: seq<string>, us: seq<Update>): Option<string>
    requires forall k | 0 <= k < |us| :: us[k].at < |names|
    decreases |us|
  {
    if us == [] then Some(d) else
    match ReplaceSection(d, names[us[0].at], us[0].content)
    case None => None
    case Some(d') => Regenerate(d', names, us[1..])
  }

  function SetAll(parts: seq<Part>, us: seq<Update>): (r: seq<Part>)
    requires forall k | 0 <= k < |us| :: us[k].at < |parts|
    ensures |r| == |parts|
    decreases |us|
  {
    if us == [] then parts else SetAll(SetBody(parts, us[0].at, us[0].content), us[1..])
  }

  function NamesOf(parts: seq<Part>): (r: seq<string>)
    ensures |r| == |parts|
  {
    seq(|parts|, i requires 0 <= i < |parts| => parts[i].name)
  }

  lemma {:induction false} RegenerateSets(head: string, parts: seq<Part>, us: seq<Update>)
    requires ValidDoc(head, parts)
    requires forall k | 0 <= k < |us| :: us[k].at < |parts| && ContentFree(parts, us[k].content)
    ensures Regenerate(Flat(head, parts), NamesOf(parts), us) == Some(Flat(head, SetAll(parts, us)))
    ensures ValidDoc(head, SetAll(parts, us)) && NamesOf(SetAll(parts, us)) == NamesOf(parts)
    decreases |us|
  {
    if us != [] {
      var u := us[0];
      var after := SetBody(parts, u.at, u.content);
      ReplaceSetsBody(head, parts, u.at, u.content);
      SetBodyValid(head, parts, u.at, u.content);
      assert NamesOf(after) == NamesOf(parts);
      assert forall k | 0 <= k < |after| :: after[k].name == parts[k].name;
      RegenerateSets(head, after, us[1..]);
    }
  }

  /** Body of section i after the updates: the last one for it, or its own. */
  function BodyAfter(us: seq<Update>, i: nat, body: string): string {
    if us == [] then body
    else BodyAfter(us[1..], i, if us[0].at == i then Wrapped(us[0].content) else body)
  }

  lemma {:induction false} SetAllAt(parts: seq<Part>, us: seq<Update>, i: nat)
    requires i < |parts| && forall k | 0 <= k < |us| :: us[k].at < |parts|
    ensures SetAll(parts, us)[i] == parts[i].(body := BodyAfter(us, i, parts[i].body))
    decreases |us|
  {
    if us != [] {
      SetAllAt(SetBody(parts, us[0].at, us[0].content), us[1..], i);
    }
  }

  lemma {:induction false} BodyAfterTwice(us: seq<Update>, i: nat, body: string, other: string)
    ensures (BodyAfter(us, i, body) == body && BodyAfter(us, i, other) == other)
         || BodyAfter(us, i, body) == BodyAfter(us, i, other)
  {
    if us != [] && us[0].at != i {
      BodyAfterTwice(us[1..], i, body, other);
    }
  }

  lemma SetAllTwice(parts: seq<Part>, us: seq<Update>)
    requires forall k | 0 <= k < |us| :: us[k].at < |parts|
    ensures SetAll(SetAll(parts, us), us) == SetAll(parts, us)
  {
    var once := SetAll(parts, us);
    forall i | 0 <= i < |parts|
      ensures SetAll(once, us)[i] == once[i]
    {
      SetAllAt(parts, us, i);
      SetAllAt(once, us, i);
      BodyAfterTwice(us, i, parts[i].body, once[i].body);
    }
  }

  /** Regenerating a document of sections side by side just after writing it changes
      nothing, however often a section is updated. */
  lemma {:induction false} FlatCheckAfterWrite(head: string, parts: seq<Part>, us: seq<Update>)
    requires ValidDoc(head, parts)
    requires forall k | 0 <= k < |us| :: us[k].at < |parts| && ContentFree(parts, us[k].content)
    ensures var written := Regenerate(Flat(head, parts), NamesOf(parts), us);
      written.Some? && Regenerate(written.value, NamesOf(parts), us) == written
  {
    var after := SetAll(parts, us);
    RegenerateSets(head, parts, us);
    forall k | 0 <= k < |us|
      ensures ContentFree(after, us[k].content)
    {
      SameNamesFree(parts, after, us[k].content);
    }
    RegenerateSets(head, after, us);
    SetAllTwice(parts, us);
  }

  lemma SameNamesFree(a: seq<Part>, b: seq<Part>, content: string)
    requires NamesOf(a) == NamesOf(b) && ContentFree(a, content)
    ensures ContentFree(b, content)
  {
    assert |a| == |NamesOf(a)| == |b|;
    forall i | 0 <= i < |b|
      ensures Count(content, Begin(b[i].name)) == 0 && Count(content, End(b[i].name)) == 0
    {
      assert NamesOf(a)[i] == a[i].name && NamesOf(b)[i] == b[i].name;
    }
  }

  lemma SetBodiesCommute(parts: seq<Part>, i: nat, c: string, j: nat, e: string)
    requires i < |parts| && j < |parts| && i != j
    ensures SetBody(SetBody(parts, i, c), j, e) == SetBody(SetBody(parts, j, e), i, c)
  {}

  lemma ReplaceBoth(head: string, parts: seq<Part>, i: nat, c: string, j: nat, e: string)
    requires ValidDoc(head, parts) && i < |parts| && j < |parts| && i != j && ContentFree(parts, c)
    ensures var once := ReplaceSection(Flat(head, parts), parts[i].name, c);
      && once.Some?
      && ReplaceSection(once.value, parts[j].name, e) == Some(Flat(head, SetBody(SetBody(parts, i, c), j, e)))
  {
    var after := SetBody(parts, i, c);
    ReplaceSetsBody(head, parts, i, c);
    SetBodyValid(head, parts, i, c);
    ReplaceSetsBody(head, after, j, e);
  }

  /** Replacements of different sections side by side both succeed and commute. */
  lemma FlatReplacementsCommute(head: string, parts: seq<Part>, i: nat, c: string, j: nat, e: string)
    requires ValidDoc(head, parts) && i < |parts| && j < |parts| && i != j
    requires ContentFree(parts, c) && ContentFree(parts, e)
    ensures var d, m, n := Flat(head, parts), parts[i].name, parts[j].name;
      && ReplaceSection(d, m, c).Some? && ReplaceSection(d, n, e).Some?
      && ReplaceSection(ReplaceSection(d, m, c).value, n, e).Some?
      && ReplaceSection(ReplaceSection(d, m, c).value, n, e) == ReplaceSection(ReplaceSection(d, n, e).value, m, c)
  {
    ReplaceBoth(head, parts, i, c, j, e);
    ReplaceBoth(head, parts, j, e, i, c);
    SetBodiesCommute(parts, i, c, j, e);
  }
}

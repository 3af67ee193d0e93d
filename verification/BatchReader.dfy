/** The reader of `git cat-file --batch` output that checks a repository's objects,
    written with Python's split(), int() and slices, and the stream git prints. */
module BatchReader {
  import opened ByteStrings
  import opened GitObjects

  // ---- Python's bytes.split(), int() and slices ---------------------------------------

  predicate IsSpace(b: byte) {
    b == 32 || 9 <= b <= 13
  }

  predicate IsWord(s: Bytes) {
    s != [] && forall i | 0 <= i < |s| :: !IsSpace(s[i])
  }

  /** The bytes up to the first whitespace. */
  function FirstWord(s: Bytes): (w: Bytes)
    ensures w <= s
  {
    if s == [] || IsSpace(s[0]) then [] else [s[0]] + FirstWord(s[1..])
  }

  function Split(s: Bytes): seq<Bytes>
    decreases |s|
  {
    if s == [] then []
    else if IsSpace(s[0]) then Split(s[1..])
    else
      var w := FirstWord(s);
      assert w == [s[0]] + FirstWord(s[1..]);
      [w] + Split(s[|w|..])
  }

  /** Digits with single underscores between them. */
  predicate IsIntText(s: Bytes) {
    && s != [] && IsDigit(s[0]) && IsDigit(s[|s|-1])
    && (forall i | 0 <= i < |s| :: IsDigit(s[i]) || s[i] == 95)
    && (forall i | 0 <= i < |s| - 1 :: !(s[i] == 95 && s[i+1] == 95))
  }

  function DropUnderscores(s: Bytes): (d: Bytes)
    requires forall i | 0 <= i < |s| :: IsDigit(s[i]) || s[i] == 95
    ensures AllDigits(d)
  {
    if s == [] then []
    else if s[0] == 95 then DropUnderscores(s[1..])
    else [s[0]] + DropUnderscores(s[1..])
  }

  /** int(s) for a token without whitespace; None is ValueError. */
  function PyInt(s: Bytes): Option<int> {
    if s != [] && (s[0] == 43 || s[0] == 45) then
      (if IsIntText(s[1..]) then
         var n: int := DecValue(DropUnderscores(s[1..]));
         Some(if s[0] == 45 then -n else n)
       else None)
    else if IsIntText(s) then Some(DecValue(DropUnderscores(s))) else None
  }

  /** A slice bound: negative counts from the end, and both ends clamp. */
  function Bound(n: nat, i: int): (k: nat)
    ensures k <= n
  {
    if i < 0 then (if i + n < 0 then 0 else i + n) else if i > n then n else i
  }

  function PySlice(s: Bytes, i: int, j: int): Bytes {
    var a, b := Bound(|s|, i), Bound(|s|, j);
    if a < b then s[a..b] else []
  }

  /** s.index(b, i); None is ValueError. */
  function PyIndex(s: Bytes, b: byte, i: int): Option<nat> {
    var a := Bound(|s|, i);
    match Cut(s[a..], b)
    case None => None
    case Some(c) => Some(a + |c.0|)
  }

  // ---- The reader -----------------------------------------------------------------------

  type Objects = map<Bytes, Bytes>
  type Hash = Bytes -> Bytes

  /** The first assertion on a record: its name, and that it hashes to what is stored. */
  predicate RecordOk(sha: Hash, objects: Objects, name: Bytes, field: Bytes, kind: Bytes, content: Bytes) {
    var raw := Record(kind, content);
    field == name && name in objects && sha(raw) == name && raw == objects[name]
  }

  /** One pass of the loop: the header's fields, the announced content, the byte after
      it and the next offset. None is a ValueError. */
  datatype Taken = Taken(name: Bytes, kind: Bytes, content: Bytes, close: Bytes, next: int)

  function Take(answer: Bytes, at: int): Option<Taken> {
    match PyIndex(answer, LF, at)
    case None => None
    case Some(end) =>
      var fields := Split(PySlice(answer, at, end));
      if |fields| != 3 then None else
      match PyInt(fields[2])
      case None => None
      case Some(size) =>
        var stop := end + 1 + size;
        Some(Taken(fields[0], fields[1], PySlice(answer, end + 1, stop), PySlice(answer, stop, stop + 1), stop + 1))
  }

  /** One pass over this answer, as a function of the offset. */
  function TakeOf(answer: Bytes): int -> Option<Taken> {
    (at: int) => Take(answer, at)
  }

  /** The reader from offset `at` of an answer of the given length, for the names still
      expected. */
  ghost predicate AcceptsFrom(sha: Hash, objects: Objects, take: int -> Option<Taken>, length: nat,
                              names: seq<Bytes>, at: int)
    decreases |names|
  {
    if names == [] then at == length else
    var t := take(at);
    && t.Some?
    && RecordOk(sha, objects, names[0], t.value.name, t.value.kind, t.value.content)
    && t.value.close == [LF]
    && AcceptsFrom(sha, objects, take, length, names[1..], t.value.next)
  }

  ghost predicate Accepts(sha: Hash, objects: Objects, names: seq<Bytes>, answer: Bytes) {
    (set n | n in names) == objects.Keys && AcceptsFrom(sha, objects, TakeOf(answer), |answer|, names, 0)
  }

  /** object_oracle, every assertion an early exit. */
  method ObjectOracle(sha: Hash, objects: Objects, names: seq<Bytes>, answer: Bytes) returns (ok: bool)
    ensures ok == Accepts(sha, objects, names, answer)
  {
    if (set n | n in names) != objects.Keys {
      return false;
    }
    var at, k := 0, 0;
    assert names[0..] == names;
    while k < |names|
      invariant 0 <= k <= |names|
      invariant AcceptsFrom(sha, objects, TakeOf(answer), |answer|, names, 0)
             == AcceptsFrom(sha, objects, TakeOf(answer), |answer|, names[k..], at)
    {
      assert names[k..][0] == names[k] && names[k..][1..] == names[k+1..];
      var t := Take(answer, at);
      if t.None? {
        return false;
      }
      if !RecordOk(sha, objects, names[k], t.value.name, t.value.kind, t.value.content) {
        return false;
      }
      if t.value.close != [LF] {
        return false;
      }
      at, k := t.value.next, k + 1;
    }
    assert names[k..] == [];
    ok := at == |answer|;
  }

  // ---- The stream git prints ------------------------------------------------------------

  /** `oid SP kind SP size LF content LF` for one stored record. */
  function BatchLine(name: Bytes, kind: Bytes, content: Bytes): Bytes {
    (name + [SP] + (kind + [SP] + Dec(|content|))) + [LF] + (content + [LF])
  }

  /** The stream for these names; None if a record cannot be read. */
  function Stream(objects: Objects, names: seq<Bytes>): Option<Bytes> {
    if names == [] then Some([]) else
    if names[0] !in objects then None else
    match (ReadRecord(objects[names[0]]), Stream(objects, names[1..]))
    case (Some(r), Some(rest)) => Some(BatchLine(names[0], r.0, r.1) + rest)
    case _ => None
  }

  /** The object is stored under its own hash, and its name and kind are words. */
  ghost predicate WellKept(sha: Hash, objects: Objects, name: Bytes) {
    && name in objects && sha(objects[name]) == name && IsWord(name)
    && ReadRecord(objects[name]).Some? && IsWord(ReadRecord(objects[name]).value.0)
  }

  // ---- Plain headers ----------------------------------------------------------------------

  datatype Header = Header(name: Bytes, kind: Bytes, size: nat)

  /** `word SP word SP numeral`, one space each and no sign, zero or underscore to spare. */
  function ReadHeader(line: Bytes): Option<Header> {
    match Cut(line, SP)
    case None => None
    case Some(a) =>
      match Cut(a.1, SP)
      case None => None
      case Some(b) =>
        if IsWord(a.0) && IsWord(b.0) && IsNumeral(b.1) then Some(Header(a.0, b.0, DecValue(b.1))) else None
  }

  /** A record with a plain header, taken from the front of the bytes not yet read. */
  datatype Plain = Plain(header: Header, content: Bytes, close: byte, rest: Bytes)

  function TakePlain(s: Bytes): Option<Plain> {
    match Cut(s, LF)
    case None => None
    case Some(c) =>
      match ReadHeader(c.0)
      case None => None
      case Some(h) =>
        if h.size < |c.1| then Some(Plain(h, c.1[..h.size], c.1[h.size], c.1[h.size+1..])) else None
  }

  /** The next `count` records can be taken one after the other. */
  predicate AllTaken(plain: Bytes -> Option<Plain>, s: Bytes, count: nat)
    decreases count
  {
    count == 0 || (plain(s).Some? && AllTaken(plain, plain(s).value.rest, count - 1))
  }

  /** The next `count` header lines, each past the content the last one announced, are
      plain. */
  predicate PlainHeaders(s: Bytes, count: nat) {
    AllTaken(TakePlain, s, count)
  }

  /** The reader restricted to plain headers, over the bytes not yet read. */
  ghost predicate AcceptsPlain(sha: Hash, objects: Objects, plain: Bytes -> Option<Plain>, names: seq<Bytes>, s: Bytes)
    decreases |names|
  {
    if names == [] then s == [] else
    var p := plain(s);
    && p.Some?
    && RecordOk(sha, objects, names[0], p.value.header.name, p.value.header.kind, p.value.content)
    && p.value.close == LF
    && AcceptsPlain(sha, objects, plain, names[1..], p.value.rest)
  }

  // ---- Plain headers mean the same to split() and int() -----------------------------------

  lemma {:induction false} WordOf(w: Bytes, rest: Bytes)
    requires forall i | 0 <= i < |w| :: !IsSpace(w[i])
    requires rest == [] || IsSpace(rest[0])
    ensures FirstWord(w + rest) == w
  {
    if w != [] {
      WordOf(w[1..], rest);
      assert (w + rest)[1..] == w[1..] + rest;
      assert w == [w[0]] + w[1..];
    } else {
      assert w + rest == rest;
    }
  }

  lemma SplitWord(w: Bytes, rest: Bytes)
    requires IsWord(w)
    ensures Split(w + [SP] + rest) == [w] + Split(rest)
    ensures Split(w) == [w]
  {
    WordOf(w, [SP] + rest);
    WordOf(w, []);
    Assoc(w, [SP], rest);
    var s := w + ([SP] + rest);
    assert s[|w|..] == [SP] + rest;
    assert ([SP] + rest)[1..] == rest;
    assert w + [] == w && w[|w|..] == [];
  }

  lemma NumeralIsWord(d: Bytes)
    requires IsNumeral(d)
    ensures IsWord(d)
  {
    assert forall i | 0 <= i < |d| :: IsDigit(d[i]) && !IsSpace(d[i]);
  }

  lemma {:induction false} DropNothing(s: Bytes)
    requires AllDigits(s)
    ensures DropUnderscores(s) == s
  {
    if s != [] {
      assert IsDigit(s[0]);
      DropNothing(s[1..]);
      assert s == [s[0]] + s[1..];
    }
  }

  lemma PyIntNumeral(d: Bytes)
    requires IsNumeral(d)
    ensures PyInt(d) == Some(DecValue(d))
  {
    assert forall i | 0 <= i < |d| :: IsDigit(d[i]);
    DropNothing(d);
  }

  lemma HeaderFields(line: Bytes)
    requires ReadHeader(line).Some?
    ensures var h := ReadHeader(line).value;
            && |Split(line)| == 3 && Split(line)[0] == h.name && Split(line)[1] == h.kind
            && PyInt(Split(line)[2]) == Some(h.size)
            && line == h.name + [SP] + (h.kind + [SP] + Dec(h.size)) && IsWord(h.name) && IsWord(h.kind)
  {
    var a := Cut(line, SP).value;
    var b := Cut(a.1, SP).value;
    CutParts(line, SP);
    CutParts(a.1, SP);
    NumeralIsWord(b.1);
    ThreeWords(a.0, b.0, b.1);
    PyIntNumeral(b.1);
    NumeralRoundTrip(b.1);
  }

  lemma ThreeWords(a: Bytes, b: Bytes, c: Bytes)
    requires IsWord(a) && IsWord(b) && IsWord(c)
    ensures Split(a + [SP] + (b + [SP] + c)) == [a, b, c]
  {
    SplitWord(a, b + [SP] + c);
    SplitWord(b, c);
    SplitWord(c, []);
  }

  lemma HeaderReads(name: Bytes, kind: Bytes, size: nat)
    requires IsWord(name) && IsWord(kind)
    ensures var line := name + [SP] + (kind + [SP] + Dec(size));
            ReadHeader(line) == Some(Header(name, kind, size)) && LF !in line
  {
    DecRoundTrip(size);
    NumeralIsWord(Dec(size));
    CutAt(name, SP, kind + [SP] + Dec(size));
    CutAt(kind, SP, Dec(size));
  }

  // ---- The reader on plain headers ----------------------------------------------------------

  lemma SliceShift(s: Bytes, at: nat, k: nat)
    requires at + k < |s|
    ensures s[at..][..k] == s[at..at+k] && s[at..][k+1..] == s[at+k+1..]
  {}

  lemma SplitAt(a: Bytes, b: byte, c: Bytes)
    ensures var s := a + [b] + c;
            s[..|a|] == a && s[|a|+1..] == c && |s| == |a| + 1 + |c|
  {}

  lemma LineAt(answer: Bytes, at: nat)
    requires at <= |answer| && Cut(answer[at..], LF).Some?
    ensures var c := Cut(answer[at..], LF).value;
            var end := at + |c.0|;
            && PyIndex(answer, LF, at) == Some(end) && end + 1 <= |answer|
            && PySlice(answer, at, end) == c.0 && answer[end+1..] == c.1
  {
    var c := Cut(answer[at..], LF).value;
    CutParts(answer[at..], LF);
    SlicesAt(answer, at, c.0, c.1);
  }

  lemma SlicesAt(answer: Bytes, at: nat, line: Bytes, rest: Bytes)
    requires at <= |answer| && answer[at..] == line + [LF] + rest
    ensures at + |line| + 1 <= |answer| && PySlice(answer, at, at + |line|) == line
    ensures answer[at+|line|+1..] == rest
  {
    SplitAt(line, LF, rest);
    SliceShift(answer, at, |line|);
  }

  lemma ContentAt(answer: Bytes, start: nat, size: nat)
    requires start <= |answer| && size < |answer| - start
    ensures var rest := answer[start..];
            && PySlice(answer, start, start + size) == rest[..size]
            && PySlice(answer, start + size, start + size + 1) == [rest[size]]
            && answer[start+size+1..] == rest[size+1..]
  {}

  lemma TakeFrom(answer: Bytes, at: int, end: nat, line: Bytes, size: nat)
    requires PyIndex(answer, LF, at) == Some(end) && PySlice(answer, at, end) == line
    requires |Split(line)| == 3 && PyInt(Split(line)[2]) == Some(size)
    ensures Take(answer, at) == Some(Taken(Split(line)[0], Split(line)[1],
      PySlice(answer, end + 1, end + 1 + size), PySlice(answer, end + 1 + size, end + 1 + size + 1),
      end + 1 + size + 1))
  {}

  lemma TakeAgrees(answer: Bytes, at: nat) returns (next: nat)
    requires at <= |answer| && TakePlain(answer[at..]).Some?
    ensures var p := TakePlain(answer[at..]).value;
      && next <= |answer| && answer[next..] == p.rest
      && Take(answer, at) == Some(Taken(p.header.name, p.header.kind, p.content, [p.close], next))
  {
    var c := Cut(answer[at..], LF).value;
    var h := ReadHeader(c.0).value;
    var start := at + |c.0| + 1;
    LineAt(answer, at);
    HeaderTaken(answer, at, c.0, h);
    ContentAt(answer, start, h.size);
    next := start + h.size + 1;
  }

  lemma HeaderTaken(answer: Bytes, at: nat, line: Bytes, h: Header)
    requires PyIndex(answer, LF, at) == Some(at + |line|) && PySlice(answer, at, at + |line|) == line
    requires ReadHeader(line) == Some(h)
    ensures var stop := at + |line| + 1 + h.size;
      Take(answer, at) == Some(Taken(h.name, h.kind, PySlice(answer, at + |line| + 1, stop),
                                     PySlice(answer, stop, stop + 1), stop + 1))
  {
    HeaderFields(line);
    TakeFrom(answer, at, at + |line|, line, h.size);
  }

  /** Taking by offset and taking from the front give the same record. */
  ghost predicate Agree(take: int -> Option<Taken>, plain: Bytes -> Option<Plain>, answer: Bytes, at: nat)
    requires at <= |answer|
  {
    plain(answer[at..]).Some? ==>
      var p := plain(answer[at..]).value;
      && take(at).Some?
      && var t := take(at).value;
         && t.name == p.header.name && t.kind == p.header.kind && t.content == p.content && t.close == [p.close]
         && 0 <= t.next <= |answer| && answer[t.next..] == p.rest
  }

  lemma {:induction false} ReadersAgree(sha: Hash, objects: Objects, take: int -> Option<Taken>,
                                        plain: Bytes -> Option<Plain>, names: seq<Bytes>, answer: Bytes, at: nat)
    requires at <= |answer| && AllTaken(plain, answer[at..], |names|)
    requires forall k: nat | k <= |answer| :: Agree(take, plain, answer, k)
    ensures AcceptsFrom(sha, objects, take, |answer|, names, at)
         == AcceptsPlain(sha, objects, plain, names, answer[at..])
    decreases |names|
  {
    if names != [] {
      assert Agree(take, plain, answer, at);
      ReadersAgree(sha, objects, take, plain, names[1..], answer, take(at).value.next);
    }
  }

  /** With plain headers the reader does exactly what its restricted form does. */
  lemma ReaderIsPlain(sha: Hash, objects: Objects, names: seq<Bytes>, answer: Bytes)
    requires PlainHeaders(answer, |names|)
    ensures AcceptsFrom(sha, objects, TakeOf(answer), |answer|, names, 0)
         == AcceptsPlain(sha, objects, TakePlain, names, answer)
  {
    forall k: nat | k <= |answer|
      ensures Agree(TakeOf(answer), TakePlain, answer, k)
    {
      if TakePlain(answer[k..]).Some? {
        var next := TakeAgrees(answer, k);
      }
    }
    assert answer[0..] == answer;
    ReadersAgree(sha, objects, TakeOf(answer), TakePlain, names, answer, 0);
  }

  lemma {:induction false} PlainImpliesHeaders(sha: Hash, objects: Objects, names: seq<Bytes>, s: Bytes)
    requires AcceptsPlain(sha, objects, TakePlain, names, s)
    ensures PlainHeaders(s, |names|)
    decreases |names|
  {
    if names != [] {
      PlainImpliesHeaders(sha, objects, names[1..], TakePlain(s).value.rest);
    }
  }

  lemma SplitContent(rest: Bytes, size: nat)
    requires size < |rest|
    ensures rest == (rest[..size] + [rest[size]]) + rest[size+1..]
  {}

  lemma TakenLine(s: Bytes)
    requires TakePlain(s).Some? && TakePlain(s).value.close == LF
    ensures var p := TakePlain(s).value;
      && s == BatchLine(p.header.name, p.header.kind, p.content) + p.rest
      && IsWord(p.header.name) && IsWord(p.header.kind)
  {
    var c := Cut(s, LF).value;
    var h := ReadHeader(c.0).value;
    HeaderFields(c.0);
    CutParts(s, LF);
    SplitContent(c.1, h.size);
    Assoc(c.0 + [LF], c.1[..h.size] + [LF], c.1[h.size+1..]);
  }

  lemma RecordOkKept(sha: Hash, objects: Objects, name: Bytes, kind: Bytes, content: Bytes)
    requires RecordOk(sha, objects, name, name, kind, content) && IsWord(name) && IsWord(kind)
    ensures WellKept(sha, objects, name) && ReadRecord(objects[name]) == Some((kind, content))
  {
    assert SP !in kind;
    RecordRoundTrip(kind, content);
  }

  lemma {:induction false} PlainIsStream(sha: Hash, objects: Objects, names: seq<Bytes>, s: Bytes)
    requires AcceptsPlain(sha, objects, TakePlain, names, s)
    ensures forall n | n in names :: WellKept(sha, objects, n)
    ensures Stream(objects, names) == Some(s)
    decreases |names|
  {
    if names != [] {
      var p := TakePlain(s).value;
      TakenLine(s);
      RecordOkKept(sha, objects, names[0], p.header.kind, p.content);
      PlainIsStream(sha, objects, names[1..], p.rest);
      StreamNext(objects, names, p.header.kind, p.content, p.rest);
      assert names == [names[0]] + names[1..];
    }
  }

  lemma StreamNext(objects: Objects, names: seq<Bytes>, kind: Bytes, content: Bytes, rest: Bytes)
    requires names != [] && names[0] in objects && ReadRecord(objects[names[0]]) == Some((kind, content))
    requires Stream(objects, names[1..]) == Some(rest)
    ensures Stream(objects, names) == Some(BatchLine(names[0], kind, content) + rest)
  {}

  lemma LineReads(name: Bytes, kind: Bytes, content: Bytes, rest: Bytes)
    requires IsWord(name) && IsWord(kind)
    ensures TakePlain(BatchLine(name, kind, content) + rest)
         == Some(Plain(Header(name, kind, |content|), content, LF, rest))
  {
    var line := name + [SP] + (kind + [SP] + Dec(|content|));
    var after := content + [LF] + rest;
    HeaderReads(name, kind, |content|);
    Assoc(line + [LF], content + [LF], rest);
    CutAt(line, LF, after);
    assert after[..|content|] == content && after[|content|+1..] == rest;
  }

  lemma {:induction false} StreamIsPlain(sha: Hash, objects: Objects, names: seq<Bytes>, s: Bytes)
    requires forall n | n in names :: WellKept(sha, objects, n)
    requires Stream(objects, names) == Some(s)
    ensures AcceptsPlain(sha, objects, TakePlain, names, s)
    decreases |names|
  {
    if names != [] {
      assert WellKept(sha, objects, names[0]);
      var r := ReadRecord(objects[names[0]]).value;
      var rest := Stream(objects, names[1..]).value;
      StreamIsPlain(sha, objects, names[1..], rest);
      LineReads(names[0], r.0, r.1, rest);
      ReadRecordBack(objects[names[0]]);
    }
  }

  lemma ReadRecordBack(raw: Bytes)
    requires ReadRecord(raw).Some?
    ensures raw == Record(ReadRecord(raw).value.0, ReadRecord(raw).value.1)
  {
    var k := Cut(raw, SP).value;
    CutParts(raw, SP);
    CutParts(k.1, NUL);
    var r := Cut(k.1, NUL).value;
    assert k.0 + [SP] + (r.0 + [NUL] + r.1) == k.0 + [SP] + r.0 + [NUL] + r.1;
  }

  /** The reader accepts a stream with plain headers exactly when it is the stream of
      the expected objects in the listed order, whatever bytes their contents hold, and
      each object is stored under its own hash. */
  lemma AcceptsPlainStreams(sha: Hash, objects: Objects, names: seq<Bytes>, answer: Bytes)
    ensures Accepts(sha, objects, names, answer) && PlainHeaders(answer, |names|)
       <==> && (set n | n in names) == objects.Keys
            && (forall n | n in names :: WellKept(sha, objects, n))
            && Stream(objects, names) == Some(answer)
  {
    assert answer[0..] == answer;
    if Accepts(sha, objects, names, answer) && PlainHeaders(answer, |names|) {
      ReaderIsPlain(sha, objects, names, answer);
      PlainIsStream(sha, objects, names, answer);
    }
    if (set n | n in names) == objects.Keys && (forall n | n in names :: WellKept(sha, objects, n))
       && Stream(objects, names) == Some(answer)
    {
      StreamIsPlain(sha, objects, names, answer);
      PlainImpliesHeaders(sha, objects, names, answer);
      ReaderIsPlain(sha, objects, names, answer);
    }
  }

  const MINUS_ONE: Bytes := [45, 49]

  lemma MinusOne()
    ensures PyInt(MINUS_ONE) == Some(-1) && IsWord(MINUS_ONE)
  {
    assert MINUS_ONE[1..] == [49];
    DropNothing([49]);
    assert [49][..0] == [];
    assert DecValue([49]) == 1;
  }

  /** Without plain headers it accepts more: an empty blob announced with size -1, its
      content and closing newline missing, passes every assertion. */
  lemma AcceptsNegativeSize(sha: Hash, name: Bytes)
    requires IsWord(name) && sha(Record(BLOB, [])) == name
    ensures var objects := map[name := Record(BLOB, [])];
            var answer := name + [SP] + (BLOB + [SP] + MINUS_ONE) + [LF];
            && Accepts(sha, objects, [name], answer)
            && Stream(objects, [name]) != Some(answer)
  {
    var answer := name + [SP] + (BLOB + [SP] + MINUS_ONE) + [LF];
    NegativeSizeTaken(name);
    AcceptsOne(sha, name, answer, BLOB, []);
    EmptyBlobStream(name);
    NegativeSizeDiffers(name);
  }

  lemma AcceptsOne(sha: Hash, name: Bytes, answer: Bytes, kind: Bytes, content: Bytes)
    requires Take(answer, 0) == Some(Taken(name, kind, content, [LF], |answer|)) && sha(Record(kind, content)) == name
    ensures Accepts(sha, map[name := Record(kind, content)], [name], answer)
  {
    OneName(name, Record(kind, content));
    AcceptsOneFrom(sha, name, TakeOf(answer), |answer|, kind, content);
  }

  lemma OneName(name: Bytes, raw: Bytes)
    ensures (set n | n in [name]) == map[name := raw].Keys
  {}

  lemma AcceptsOneFrom(sha: Hash, name: Bytes, take: int -> Option<Taken>, length: nat, kind: Bytes, content: Bytes)
    requires take(0) == Some(Taken(name, kind, content, [LF], length)) && sha(Record(kind, content)) == name
    ensures AcceptsFrom(sha, map[name := Record(kind, content)], take, length, [name], 0)
  {
    assert [name][1..] == [];
  }

  lemma EmptyBlobStream(name: Bytes)
    ensures Stream(map[name := Record(BLOB, [])], [name]) == Some(BatchLine(name, BLOB, []) + [])
  {
    RecordRoundTrip(BLOB, []);
    assert [name][1..] == [];
  }

  lemma NegativeSizeTaken(name: Bytes)
    requires IsWord(name)
    ensures var line := name + [SP] + (BLOB + [SP] + MINUS_ONE);
            Take(line + [LF], 0) == Some(Taken(name, BLOB, [], [LF], |line| + 1))
  {
    var line := name + [SP] + (BLOB + [SP] + MINUS_ONE);
    var answer := line + [LF];
    NegativeSizeFields(name);
    CutAt(line, LF, []);
    assert answer + [] == answer && answer[0..] == answer;
    LineAt(answer, 0);
    NegativeSizeFrom(answer, line);
  }

  lemma NegativeSizeFields(name: Bytes)
    requires IsWord(name)
    ensures var line := name + [SP] + (BLOB + [SP] + MINUS_ONE);
            LF !in line && Split(line) == [name, BLOB, MINUS_ONE] && PyInt(MINUS_ONE) == Some(-1)
  {
    MinusOne();
    assert IsWord(BLOB);
    SplitWord(name, BLOB + [SP] + MINUS_ONE);
    SplitWord(BLOB, MINUS_ONE);
    SplitWord(MINUS_ONE, []);
  }

  lemma NegativeSizeFrom(answer: Bytes, line: Bytes)
    requires answer == line + [LF] && PyIndex(answer, LF, 0) == Some(|line|) && PySlice(answer, 0, |line|) == line
    requires |Split(line)| == 3 && PyInt(Split(line)[2]) == Some(-1)
    ensures Take(answer, 0) == Some(Taken(Split(line)[0], Split(line)[1], [], [LF], |line| + 1))
  {
    var n := |line|;
    assert PySlice(answer, n + 1, n) == [];
    assert answer[n..n+1] == [LF];
    assert PySlice(answer, n, n + 1) == [LF];
  }

  lemma NegativeSizeDiffers(name: Bytes)
    ensures BatchLine(name, BLOB, []) + [] != name + [SP] + (BLOB + [SP] + MINUS_ONE) + [LF]
  {
    var good, bad := BatchLine(name, BLOB, []) + [], name + [SP] + (BLOB + [SP] + MINUS_ONE) + [LF];
    assert Dec(0) == [48];
    assert good[|name| + 6] == 48 && bad[|name| + 6] == 45;
  }
}

/** Git records, trees and commits as the fixture builders write them, and an
    independent reader that walks a store of records back to file contents. */
module GitObjects {
  import opened ByteStrings
  import opened Sequences

  type Name = Bytes
  type Oid = b: Bytes | |b| == 20 witness seq(20, _ => 0)
  type Sha = Bytes -> Oid
  type Store = map<Oid, Bytes>

  /** Contents of a two-level working tree: directory, file name, bytes. */
  type Snapshot = map<Name, map<Name, Bytes>>

  datatype Mode = File | Directory
  datatype Entry = Entry(mode: Mode, id: Oid)
  datatype TreeLine = TreeLine(mode: Bytes, name: Name, id: Oid)

  const BLOB: Bytes := Ascii("blob")
  const TREE: Bytes := Ascii("tree")
  const COMMIT: Bytes := Ascii("commit")

  /** A path component: git allows neither NUL nor a slash in one. */
  predicate Legal(n: Name) {
    NUL !in n && SLASH !in n
  }

  predicate LegalNames<T>(m: map<Name, T>) {
    forall n | n in m :: Legal(n)
  }

  // ---- Records -----------------------------------------------------------------

  function Record(kind: Bytes, body: Bytes): Bytes {
    kind + [SP] + Dec(|body|) + [NUL] + body
  }

  /** Reads `kind SP size NUL body`, checking that size is the body's length. */
  function ReadRecord(raw: Bytes): Option<(Bytes, Bytes)> {
    match Cut(raw, SP)
    case None => None
    case Some(k) =>
      match Cut(k.1, NUL)
      case None => None
      case Some(r) => if r.0 == Dec(|r.1|) then Some((k.0, r.1)) else None
  }

  lemma DecHasNoNul(n: nat)
    ensures NUL !in Dec(n)
  {
    DecRoundTrip(n);
  }

  lemma RecordRoundTrip(kind: Bytes, body: Bytes)
    requires SP !in kind
    ensures ReadRecord(Record(kind, body)) == Some((kind, body))
  {
    var size := Dec(|body|);
    DecHasNoNul(|body|);
    CutAt(size, NUL, body);
    CutAt(kind, SP, size + [NUL] + body);
    assert Record(kind, body) == kind + [SP] + (size + [NUL] + body);
  }

  // ---- Trees -------------------------------------------------------------------

  function ModeText(mode: Mode): Bytes {
    match mode
    case File => Ascii("100644")
    case Directory => Ascii("40000")
  }

  /** Git orders a directory as if its name ended in a slash. */
  function SortKey(n: Name, e: Entry): Bytes {
    if e.mode == Directory then n + [SLASH] else n
  }

  predicate KeyLeq(m: map<Name, Entry>, a: Name, b: Name) {
    a in m && b in m && Leq(SortKey(a, m[a]), SortKey(b, m[b]))
  }

  lemma SortKeyInjective(m: map<Name, Entry>, a: Name, b: Name)
    requires LegalNames(m) && a in m && b in m
    requires SortKey(a, m[a]) == SortKey(b, m[b])
    ensures a == b
  {
    var ka, kb := SortKey(a, m[a]), SortKey(b, m[b]);
    assert m[a].mode == m[b].mode by {
      assert m[a].mode == Directory <==> SLASH in ka;
      assert m[b].mode == Directory <==> SLASH in kb;
    }
    assert ka[..|a|] == a && kb[..|b|] == b;
  }

  ghost predicate IsFirst(m: map<Name, Entry>, n: Name) {
    n in m && forall k | k in m :: KeyLeq(m, n, k)
  }

  lemma {:induction false} FirstExists(m: map<Name, Entry>) returns (n: Name)
    requires m != map[]
    ensures IsFirst(m, n)
    decreases |m|
  {
    LeqIsTotalOrder();
    var x :| x in m;
    var rest := m - {x};
    assert m.Keys == rest.Keys + {x};
    if rest == map[] {
      n := x;
    } else {
      assert |rest.Keys| < |m.Keys|;
      var y := FirstExists(rest);
      n := if Leq(SortKey(x, m[x]), SortKey(y, m[y])) then x else y;
      forall k | k in m
        ensures KeyLeq(m, n, k)
      {
        if k != x {
          assert KeyLeq(rest, y, k);
        }
      }
    }
  }

  ghost predicate InOrder(names: seq<Name>, m: map<Name, Entry>) {
    forall i, j | 0 <= i < j < |names| :: KeyLeq(m, names[i], names[j])
  }

  lemma FirstIsUnique(m: map<Name, Entry>, a: Name, b: Name)
    requires LegalNames(m) && IsFirst(m, a) && IsFirst(m, b)
    ensures a == b
  {
    assert KeyLeq(m, a, b) && KeyLeq(m, b, a);
    LessTrichotomy(SortKey(a, m[a]), SortKey(b, m[b]));
    SortKeyInjective(m, a, b);
  }

  lemma HeadIsFirst(names: seq<Name>, m: map<Name, Entry>)
    requires names != [] && Enumerates(names, m) && InOrder(names, m)
    ensures IsFirst(m, names[0])
  {
    assert names[0] in m;
    forall k | k in m
      ensures KeyLeq(m, names[0], k)
    {
      var i :| 0 <= i < |names| && names[i] == k;
      LessTrichotomy(SortKey(k, m[k]), SortKey(k, m[k]));
    }
  }

  lemma EmptyEnumeration(names: seq<Name>, m: map<Name, Entry>)
    requires Enumerates(names, m)
    ensures names == [] <==> m == map[]
  {
    if names != [] {
      assert names[0] in m;
    }
  }

  lemma TailEnumerates(names: seq<Name>, m: map<Name, Entry>)
    requires names != [] && Enumerates(names, m)
    ensures Enumerates(names[1..], m - {names[0]})
  {
    assert names == [names[0]] + names[1..];
  }

  lemma TailInOrder(names: seq<Name>, m: map<Name, Entry>)
    requires names != [] && Enumerates(names, m) && InOrder(names, m)
    ensures InOrder(names[1..], m - {names[0]})
  {
    var tail := names[1..];
    forall i, j | 0 <= i < j < |tail|
      ensures KeyLeq(m - {names[0]}, tail[i], tail[j])
    {
      assert KeyLeq(m, names[i+1], names[j+1]);
    }
  }

  /** A legal directory has one sorted enumeration, whatever order its entries came in. */
  lemma {:induction false} SortedEnumerationIsUnique(a: seq<Name>, b: seq<Name>, m: map<Name, Entry>)
    requires LegalNames(m)
    requires Enumerates(a, m) && InOrder(a, m) && Enumerates(b, m) && InOrder(b, m)
    ensures a == b
  {
    BothEmpty(a, b, m);
    if a != [] {
      SameHead(a, b, m);
      TailIsSorted(a, m);
      TailIsSorted(b, m);
      SortedEnumerationIsUnique(a[1..], b[1..], m - {a[0]});
      SameParts(a, b);
    }
  }

  lemma BothEmpty(a: seq<Name>, b: seq<Name>, m: map<Name, Entry>)
    requires Enumerates(a, m) && Enumerates(b, m)
    ensures a == [] <==> b == []
  {
    EmptyEnumeration(a, m);
    EmptyEnumeration(b, m);
  }

  lemma SameParts(a: seq<Name>, b: seq<Name>)
    requires a != [] && b != [] && a[0] == b[0] && a[1..] == b[1..]
    ensures a == b
  {
    assert a == [a[0]] + a[1..] && b == [b[0]] + b[1..];
  }

  lemma SameHead(a: seq<Name>, b: seq<Name>, m: map<Name, Entry>)
    requires LegalNames(m) && a != [] && b != []
    requires Enumerates(a, m) && InOrder(a, m) && Enumerates(b, m) && InOrder(b, m)
    ensures a[0] == b[0]
  {
    HeadIsFirst(a, m);
    HeadIsFirst(b, m);
    FirstIsUnique(m, a[0], b[0]);
  }

  lemma TailIsSorted(names: seq<Name>, m: map<Name, Entry>)
    requires LegalNames(m) && names != [] && Enumerates(names, m) && InOrder(names, m)
    ensures var rest := m - {names[0]};
      LegalNames(rest) && Enumerates(names[1..], rest) && InOrder(names[1..], rest)
  {
    TailEnumerates(names, m);
    TailInOrder(names, m);
  }

  lemma ConsEnumerates(first: Name, tail: seq<Name>, m: map<Name, Entry>)
    requires IsFirst(m, first)
    requires Enumerates(tail, m - {first}) && InOrder(tail, m - {first})
    ensures Enumerates([first] + tail, m) && InOrder([first] + tail, m)
  {
    ConsListed(first, tail, m);
    ConsInOrder(first, tail, m);
  }

  lemma ConsListed(first: Name, tail: seq<Name>, m: map<Name, Entry>)
    requires first in m && Enumerates(tail, m - {first})
    ensures Enumerates([first] + tail, m)
  {
    assert first !in tail;
  }

  lemma ConsInOrder(first: Name, tail: seq<Name>, m: map<Name, Entry>)
    requires IsFirst(m, first) && InOrder(tail, m - {first}) && forall n | n in tail :: n in m
    ensures InOrder([first] + tail, m)
  {
    var names := [first] + tail;
    forall i, j | 0 <= i < j < |names|
      ensures KeyLeq(m, names[i], names[j])
    {
      assert names[j] == tail[j-1] && tail[j-1] in tail;
      if i > 0 {
        assert names[i] == tail[i-1];
        SmallerStillInOrder(m, first, tail[i-1], tail[j-1]);
      }
    }
  }

  lemma SmallerStillInOrder(m: map<Name, Entry>, first: Name, a: Name, b: Name)
    requires KeyLeq(m - {first}, a, b)
    ensures KeyLeq(m, a, b)
  {}

  lemma {:induction false} SortedEnumerationExists(m: map<Name, Entry>) returns (names: seq<Name>)
    ensures Enumerates(names, m) && InOrder(names, m)
    decreases |m|
  {
    if m == map[] {
      names := [];
    } else {
      var first := FirstExists(m);
      assert m.Keys == (m - {first}).Keys + {first};
      assert |m.Keys| > |(m - {first}).Keys|;
      var tail := SortedEnumerationExists(m - {first});
      ConsEnumerates(first, tail, m);
      names := [first] + tail;
    }
  }

  /** The names of a directory in canonical order: a function of the directory
      alone, so of no insertion order. */
  ghost function Ordered(m: map<Name, Entry>): (names: seq<Name>)
    ensures Enumerates(names, m) && InOrder(names, m)
  {
    assert exists s :: Enumerates(s, m) && InOrder(s, m) by {
      var s := SortedEnumerationExists(m);
    }
    var s :| Enumerates(s, m) && InOrder(s, m);
    s
  }

  function TreeLineBytes(mode: Bytes, n: Name, id: Oid): Bytes {
    mode + [SP] + n + [NUL] + id
  }

  /** The body of a tree object listing `names` of m, in that order. */
  function Listing(names: seq<Name>, m: map<Name, Entry>): Bytes
    requires forall n | n in names :: n in m
  {
    if names == [] then []
    else TreeLineBytes(ModeText(m[names[0]].mode), names[0], m[names[0]].id) + Listing(names[1..], m)
  }

  lemma {:induction false} ListingSnoc(names: seq<Name>, n: Name, m: map<Name, Entry>)
    requires (forall x | x in names :: x in m) && n in m
    ensures Listing(names + [n], m) == Listing(names, m) + TreeLineBytes(ModeText(m[n].mode), n, m[n].id)
  {
    if names == [] {
      assert [n][1..] == [];
    } else {
      var rest, line := names[1..], TreeLineBytes(ModeText(m[n].mode), n, m[n].id);
      var first := TreeLineBytes(ModeText(m[names[0]].mode), names[0], m[names[0]].id);
      calc {
        Listing(names + [n], m);
        { assert (names + [n])[1..] == rest + [n]; }
        first + Listing(rest + [n], m);
        { ListingSnoc(rest, n, m); }
        first + (Listing(rest, m) + line);
        { Assoc(first, Listing(rest, m), line); }
        Listing(names, m) + line;
      }
    }
  }

  ghost function TreeBody(m: map<Name, Entry>): Bytes {
    Listing(Ordered(m), m)
  }

  /** Reads tree lines until the bytes run out. */
  function DecodeTree(b: Bytes): Option<seq<TreeLine>>
    decreases |b|
  {
    if b == [] then Some([]) else
    match Cut(b, SP)
    case None => None
    case Some(m) =>
      match Cut(m.1, NUL)
      case None => None
      case Some(n) =>
        if |n.1| < 20 then None else
        match DecodeTree(n.1[20..])
        case None => None
        case Some(lines) => Some([TreeLine(m.0, n.0, n.1[..20])] + lines)
  }

  function Lines(names: seq<Name>, m: map<Name, Entry>): seq<TreeLine>
    requires forall n | n in names :: n in m
  {
    seq(|names|, i requires 0 <= i < |names| =>
      TreeLine(ModeText(m[names[i]].mode), names[i], m[names[i]].id))
  }

  lemma DecodeTreeLine(mode: Bytes, n: Name, id: Oid, rest: Bytes, lines: seq<TreeLine>)
    requires SP !in mode && NUL !in n && DecodeTree(rest) == Some(lines)
    ensures DecodeTree(TreeLineBytes(mode, n, id) + rest) == Some([TreeLine(mode, n, id)] + lines)
  {
    var ids := id + rest;
    assert ids[..20] == id && ids[20..] == rest;
    CutAt(n, NUL, ids);
    CutAt(mode, SP, n + [NUL] + ids);
    TreeLineLayout(mode, n, id, rest);
  }

  lemma TreeLineLayout(mode: Bytes, n: Name, id: Oid, rest: Bytes)
    ensures TreeLineBytes(mode, n, id) + rest == mode + [SP] + (n + [NUL] + (id + rest))
  {
    var front := mode + [SP];
    Assoc(front, n, [NUL]);
    Assoc(front, n + [NUL], id);
    Assoc(n + [NUL], id, rest);
    Assoc(front, n + [NUL] + id, rest);
  }

  /** Decoding a tree body returns its lines, for any NUL-free names. */
  lemma {:induction false} ListingRoundTrip(names: seq<Name>, m: map<Name, Entry>)
    requires LegalNames(m) && forall n | n in names :: n in m
    ensures DecodeTree(Listing(names, m)) == Some(Lines(names, m))
  {
    if names == [] {
      assert Lines(names, m) == [];
    } else {
      ListingRoundTrip(names[1..], m);
      var e := m[names[0]];
      DecodeTreeLine(ModeText(e.mode), names[0], e.id, Listing(names[1..], m), Lines(names[1..], m));
      LinesCons(names, m);
    }
  }

  lemma LinesCons(names: seq<Name>, m: map<Name, Entry>)
    requires names != [] && forall n | n in names :: n in m
    ensures var e := m[names[0]];
      Lines(names, m) == [TreeLine(ModeText(e.mode), names[0], e.id)] + Lines(names[1..], m)
  {}

  /** The path of what a tree line leads to: the name of a file, or a file x inside a directory. */
  function PathOf(line: TreeLine, x: Bytes): Bytes {
    if line.mode == [52, 48, 48, 48, 48] then line.name + [47] + x else line.name
  }

  /** The lines of a directory: one for each entry, under its own name and id, with mode
      100644 for a file and 40000 for a directory. */
  ghost predicate ListsEntries(lines: seq<TreeLine>, m: map<Name, Entry>) {
    && (forall i, j | 0 <= i < j < |lines| :: lines[i].name != lines[j].name)
    && (forall n | n in m :: exists i :: 0 <= i < |lines| && lines[i].name == n)
    && forall i | 0 <= i < |lines| ::
         && lines[i].name in m && lines[i].id == m[lines[i].name].id
         && lines[i].mode == match m[lines[i].name].mode {
              case File => [49, 48, 48, 54, 52, 52]
              case Directory => [52, 48, 48, 48, 48]
            }
  }

  /** The order git asks for: everything under an earlier line has a smaller full path
      than everything under a later one. */
  ghost predicate InPathOrder(lines: seq<TreeLine>) {
    forall i, j, x, y | 0 <= i < j < |lines| :: Less(PathOf(lines[i], x), PathOf(lines[j], y))
  }

  lemma DirectoryIsNoPrefix(a: Name, b: Name, key: Bytes)
    requires SLASH !in b && a != b && (key == b || key == b + [SLASH])
    ensures !(a + [SLASH] <= key)
  {
    if |a| < |b| {
      assert key[|a|] == b[|a|] && b[|a|] in b;
      assert (a + [SLASH])[|a|] == SLASH;
    } else if |a| == |b| {
      assert key[..|a|] == b;
      assert (a + [SLASH])[..|a|] == a;
    }
  }

  lemma PathsFollowKeys(m: map<Name, Entry>, a: Name, b: Name, x: Bytes, y: Bytes)
    requires LegalNames(m) && a in m && b in m && a != b && KeyLeq(m, a, b)
    ensures Less(if m[a].mode == File then a else a + [SLASH] + x, if m[b].mode == File then b else b + [SLASH] + y)
  {
    var ka, kb := SortKey(a, m[a]), SortKey(b, m[b]);
    if ka == kb {
      SortKeyInjective(m, a, b);
    }
    var ta, tb := if m[a].mode == File then [] else x, if m[b].mode == File then [] else y;
    if m[a].mode == Directory {
      DirectoryIsNoPrefix(a, b, kb);
    }
    LessExtends(ka, kb, ta, tb);
    assert ka + [] == ka && kb + [] == kb;
  }

  /** The body of a tree record, judged from its bytes alone. */
  ghost predicate CanonicalTree(body: Bytes, m: map<Name, Entry>) {
    DecodeTree(body).Some? && ListsEntries(DecodeTree(body).value, m) && InPathOrder(DecodeTree(body).value)
  }

  lemma LinesInPathOrder(names: seq<Name>, m: map<Name, Entry>)
    requires LegalNames(m) && Enumerates(names, m) && InOrder(names, m)
    ensures InPathOrder(Lines(names, m))
  {
    var lines := Lines(names, m);
    forall i, j, x, y | 0 <= i < j < |lines|
      ensures Less(PathOf(lines[i], x), PathOf(lines[j], y))
    {
      assert KeyLeq(m, names[i], names[j]) && names[i] != names[j];
      PathsFollowKeys(m, names[i], names[j], x, y);
    }
  }

  lemma TreeBodyIsCanonical(m: map<Name, Entry>)
    requires LegalNames(m)
    ensures CanonicalTree(TreeBody(m), m)
  {
    ListingRoundTrip(Ordered(m), m);
    LinesListEntries(Ordered(m), m);
    LinesInPathOrder(Ordered(m), m);
  }

  lemma LinesListEntries(names: seq<Name>, m: map<Name, Entry>)
    requires Enumerates(names, m)
    ensures ListsEntries(Lines(names, m), m)
  {
    var lines := Lines(names, m);
    forall n | n in m
      ensures exists i :: 0 <= i < |lines| && lines[i].name == n
    {
      var i :| 0 <= i < |names| && names[i] == n;
      assert lines[i].name == n;
    }
  }

  // ---- Reading a tree back to file contents --------------------------------------

  /** The body of the object `id`, when the store holds one of that kind. */
  function ReadObject(store: Store, id: Oid, kind: Bytes): Option<Bytes> {
    if id !in store then None else
    match ReadRecord(store[id])
    case None => None
    case Some(r) => if r.0 == kind then Some(r.1) else None
  }

  function ReadTree(store: Store, id: Oid): Option<seq<TreeLine>> {
    match ReadObject(store, id, TREE)
    case None => None
    case Some(body) => DecodeTree(body)
  }

  function ReadFiles(store: Store, lines: seq<TreeLine>): Option<map<Name, Bytes>> {
    if lines == [] then Some(map[]) else
    if lines[0].mode != ModeText(File) then None else
    match (ReadObject(store, lines[0].id, BLOB), ReadFiles(store, lines[1..]))
    case (Some(body), Some(rest)) => Some(rest[lines[0].name := body])
    case _ => None
  }

  function ReadDirectory(store: Store, id: Oid): Option<map<Name, Bytes>> {
    match ReadTree(store, id)
    case None => None
    case Some(lines) => ReadFiles(store, lines)
  }

  function ReadDirectories(store: Store, lines: seq<TreeLine>): Option<Snapshot> {
    if lines == [] then Some(map[]) else
    if lines[0].mode != ModeText(Directory) then None else
    match (ReadDirectory(store, lines[0].id), ReadDirectories(store, lines[1..]))
    case (Some(files), Some(rest)) => Some(rest[lines[0].name := files])
    case _ => None
  }

  /** Everything reachable from a root tree, as path to contents. */
  function Checkout(store: Store, root: Oid): Option<Snapshot> {
    match ReadTree(store, root)
    case None => None
    case Some(lines) => ReadDirectories(store, lines)
  }

  // ---- Rebuilding every directory from scratch -----------------------------------

  function BlobEntries(sha: Sha, files: map<Name, Bytes>): map<Name, Entry> {
    map n | n in files :: Entry(File, sha(Record(BLOB, files[n])))
  }

  ghost function DirectoryRecord(sha: Sha, files: map<Name, Bytes>): Bytes {
    Record(TREE, TreeBody(BlobEntries(sha, files)))
  }

  ghost function RootEntries(sha: Sha, work: Snapshot): map<Name, Entry> {
    map d | d in work :: Entry(Directory, sha(DirectoryRecord(sha, work[d])))
  }

  ghost function RootRecord(sha: Sha, work: Snapshot): Bytes {
    Record(TREE, TreeBody(RootEntries(sha, work)))
  }

  /** The root tree id of a working tree, every directory rebuilt from scratch. */
  ghost function RootId(sha: Sha, work: Snapshot): Oid {
    sha(RootRecord(sha, work))
  }

  ghost predicate LegalSnapshot(work: Snapshot) {
    LegalNames(work) && forall d | d in work :: LegalNames(work[d])
  }

  ghost predicate Holds(sha: Sha, store: Store, raw: Bytes) {
    sha(raw) in store && store[sha(raw)] == raw
  }

  /** The store holds every record the working tree is made of. */
  ghost predicate HoldsSnapshot(sha: Sha, store: Store, work: Snapshot) {
    && Holds(sha, store, RootRecord(sha, work))
    && forall d | d in work ::
         && Holds(sha, store, DirectoryRecord(sha, work[d]))
         && forall n | n in work[d] :: Holds(sha, store, Record(BLOB, work[d][n]))
  }

  lemma ReadHeld(sha: Sha, store: Store, kind: Bytes, body: Bytes)
    requires SP !in kind && Holds(sha, store, Record(kind, body))
    ensures ReadObject(store, sha(Record(kind, body)), kind) == Some(body)
  {
    RecordRoundTrip(kind, body);
  }

  function Restrict<T>(m: map<Name, T>, names: seq<Name>): map<Name, T> {
    map n | n in names && n in m :: m[n]
  }

  lemma RestrictCons<T>(m: map<Name, T>, names: seq<Name>)
    requires names != [] && names[0] in m
    ensures Restrict(m, names) == Restrict(m, names[1..])[names[0] := m[names[0]]]
  {
    assert names == [names[0]] + names[1..];
  }

  lemma RestrictAll<T>(m: map<Name, T>, names: seq<Name>)
    requires forall n :: n in names <==> n in m
    ensures Restrict(m, names) == m
  {}

  ghost predicate FileReads(store: Store, m: map<Name, Entry>, files: map<Name, Bytes>, n: Name) {
    n in m && n in files && m[n].mode == File && ReadObject(store, m[n].id, BLOB) == Some(files[n])
  }

  lemma {:induction false} ReadFilesCorrect(store: Store, m: map<Name, Entry>, files: map<Name, Bytes>,
                                            names: seq<Name>)
    requires forall n | n in names :: n in m
    requires forall n | n in names :: FileReads(store, m, files, n)
    ensures ReadFiles(store, Lines(names, m)) == Some(Restrict(files, names))
  {
    if names != [] {
      var lines := Lines(names, m);
      assert FileReads(store, m, files, names[0]);
      ReadFilesCorrect(store, m, files, names[1..]);
      assert lines[1..] == Lines(names[1..], m);
      RestrictCons(files, names);
    }
  }

  ghost predicate DirectoryReads(store: Store, m: map<Name, Entry>, work: Snapshot, d: Name) {
    d in m && d in work && m[d].mode == Directory && ReadDirectory(store, m[d].id) == Some(work[d])
  }

  lemma {:induction false} ReadDirectoriesCorrect(store: Store, m: map<Name, Entry>, work: Snapshot, names: seq<Name>)
    requires forall d | d in names :: d in m
    requires forall d | d in names :: DirectoryReads(store, m, work, d)
    ensures ReadDirectories(store, Lines(names, m)) == Some(Restrict(work, names))
  {
    if names != [] {
      var lines := Lines(names, m);
      assert DirectoryReads(store, m, work, names[0]);
      ReadDirectoriesCorrect(store, m, work, names[1..]);
      assert lines[1..] == Lines(names[1..], m);
      RestrictCons(work, names);
    }
  }

  lemma ReadTreeHeld(sha: Sha, store: Store, m: map<Name, Entry>)
    requires LegalNames(m) && Holds(sha, store, Record(TREE, TreeBody(m)))
    ensures ReadTree(store, sha(Record(TREE, TreeBody(m)))) == Some(Lines(Ordered(m), m))
  {
    ReadHeld(sha, store, TREE, TreeBody(m));
    ListingRoundTrip(Ordered(m), m);
  }

  lemma ReadDirectoryCorrect(sha: Sha, store: Store, files: map<Name, Bytes>)
    requires LegalNames(files) && Holds(sha, store, DirectoryRecord(sha, files))
    requires forall n | n in files :: Holds(sha, store, Record(BLOB, files[n]))
    ensures ReadDirectory(store, sha(DirectoryRecord(sha, files))) == Some(files)
  {
    var m := BlobEntries(sha, files);
    var order := Ordered(m);
    ReadTreeHeld(sha, store, m);
    forall n | n in order
      ensures FileReads(store, m, files, n)
    {
      ReadHeld(sha, store, BLOB, files[n]);
    }
    ReadFilesCorrect(store, m, files, order);
    RestrictAll(files, order);
  }

  /** A store holding a working tree's records gives back exactly its contents. */
  lemma CheckoutCorrect(sha: Sha, store: Store, work: Snapshot)
    requires LegalSnapshot(work) && HoldsSnapshot(sha, store, work)
    ensures Checkout(store, RootId(sha, work)) == Some(work)
  {
    var m := RootEntries(sha, work);
    var order := Ordered(m);
    ReadTreeHeld(sha, store, m);
    forall d | d in order
      ensures DirectoryReads(store, m, work, d)
    {
      ReadDirectoryCorrect(sha, store, work[d]);
    }
    ReadDirectoriesCorrect(store, m, work, order);
    RestrictAll(work, order);
  }

  /** A line of the root tree has mode 40000 and names a tree; a line below it has mode
      100644 and names the blob of that file. */
  lemma ModesNameKinds(sha: Sha, store: Store, work: Snapshot)
    requires LegalSnapshot(work) && HoldsSnapshot(sha, store, work)
    ensures ReadTree(store, RootId(sha, work)).Some?
    ensures forall d | d in ReadTree(store, RootId(sha, work)).value ::
      && d.mode == [52, 48, 48, 48, 48] && d.name in work && ReadTree(store, d.id).Some?
      && forall f | f in ReadTree(store, d.id).value ::
           && f.mode == [49, 48, 48, 54, 52, 52] && f.name in work[d.name]
           && ReadObject(store, f.id, [98, 108, 111, 98]) == Some(work[d.name][f.name])
  {
    var m := RootEntries(sha, work);
    ReadTreeHeld(sha, store, m);
    LinesListEntries(Ordered(m), m);
    forall d | d in Lines(Ordered(m), m)
      ensures d.mode == [52, 48, 48, 48, 48] && d.name in work && ReadTree(store, d.id).Some?
      ensures forall f | f in ReadTree(store, d.id).value ::
        && f.mode == [49, 48, 48, 54, 52, 52] && f.name in work[d.name]
        && ReadObject(store, f.id, [98, 108, 111, 98]) == Some(work[d.name][f.name])
    {
      assert d.mode == [52, 48, 48, 48, 48];
      FileLines(sha, store, work[d.name]);
    }
  }

  lemma FileLines(sha: Sha, store: Store, files: map<Name, Bytes>)
    requires LegalNames(files) && Holds(sha, store, DirectoryRecord(sha, files))
    requires forall n | n in files :: Holds(sha, store, Record(BLOB, files[n]))
    ensures ReadTree(store, sha(DirectoryRecord(sha, files))).Some?
    ensures forall f | f in ReadTree(store, sha(DirectoryRecord(sha, files))).value ::
      && f.mode == [49, 48, 48, 54, 52, 52] && f.name in files
      && ReadObject(store, f.id, [98, 108, 111, 98]) == Some(files[f.name])
  {
    var m := BlobEntries(sha, files);
    ReadTreeHeld(sha, store, m);
    LinesListEntries(Ordered(m), m);
    forall n | n in files
      ensures ReadObject(store, m[n].id, [98, 108, 111, 98]) == Some(files[n])
    {
      BlobReads(sha, store, files[n]);
    }
  }

  lemma BlobReads(sha: Sha, store: Store, body: Bytes)
    requires Holds(sha, store, Record(BLOB, body))
    ensures ReadObject(store, sha(Record(BLOB, body)), [98, 108, 111, 98]) == Some(body)
  {
    ReadHeld(sha, store, BLOB, body);
    assert BLOB == [98, 108, 111, 98];
  }

  /** Walking a stored working tree line by line meets its files in the order of their full
      paths, the order the index lists them in. */
  lemma WalkInPathOrder(sha: Sha, store: Store, work: Snapshot, i: nat, j: nat, k: nat, l: nat)
    requires LegalSnapshot(work) && HoldsSnapshot(sha, store, work)
    requires ReadTree(store, RootId(sha, work)).Some? && i <= j < |ReadTree(store, RootId(sha, work)).value|
    requires var dirs := ReadTree(store, RootId(sha, work)).value;
      && ReadTree(store, dirs[i].id).Some? && k < |ReadTree(store, dirs[i].id).value|
      && ReadTree(store, dirs[j].id).Some? && l < |ReadTree(store, dirs[j].id).value|
      && (i < j || k < l)
    ensures var dirs := ReadTree(store, RootId(sha, work)).value;
      var first, second := ReadTree(store, dirs[i].id).value[k], ReadTree(store, dirs[j].id).value[l];
      Less(dirs[i].name + [47] + first.name, dirs[j].name + [47] + second.name)
  {
    var m := RootEntries(sha, work);
    ReadTreeHeld(sha, store, m);
    LinesListEntries(Ordered(m), m);
    LinesInPathOrder(Ordered(m), m);
    var dirs := Lines(Ordered(m), m);
    var x, y := ReadTree(store, dirs[i].id).value[k].name, ReadTree(store, dirs[j].id).value[l].name;
    if i < j {
      PathsOfDirectories(dirs, m, i, j, x, y);
    } else {
      DirectoryInOrder(sha, store, work[dirs[i].name]);
      LessBehind(dirs[i].name + [47], x, y);
    }
  }

  lemma PathsOfDirectories(dirs: seq<TreeLine>, m: map<Name, Entry>, i: nat, j: nat, x: Bytes, y: Bytes)
    requires ListsEntries(dirs, m) && InPathOrder(dirs) && i < j < |dirs|
    requires m[dirs[i].name].mode == m[dirs[j].name].mode == Directory
    ensures Less(dirs[i].name + [47] + x, dirs[j].name + [47] + y)
  {
    assert Less(PathOf(dirs[i], x), PathOf(dirs[j], y));
  }

  lemma DirectoryInOrder(sha: Sha, store: Store, files: map<Name, Bytes>)
    requires LegalNames(files) && Holds(sha, store, DirectoryRecord(sha, files))
    ensures ReadTree(store, sha(DirectoryRecord(sha, files))).Some?
    ensures var lines := ReadTree(store, sha(DirectoryRecord(sha, files))).value;
      forall k, l | 0 <= k < l < |lines| :: Less(lines[k].name, lines[l].name)
  {
    var m := BlobEntries(sha, files);
    ReadTreeHeld(sha, store, m);
    LinesListEntries(Ordered(m), m);
    LinesInPathOrder(Ordered(m), m);
    var lines := Lines(Ordered(m), m);
    forall k, l | 0 <= k < l < |lines|
      ensures Less(lines[k].name, lines[l].name)
    {
      assert Less(PathOf(lines[k], []), PathOf(lines[l], []));
    }
  }

  // ---- Commits -------------------------------------------------------------------

  datatype CommitLinks = CommitLinks(tree: Oid, parent: Option<Oid>)

  const TREE_FIELD: Bytes := Ascii("tree ")
  const PARENT_FIELD: Bytes := Ascii("parent ")

  /** The link lines of a commit, followed by its identity lines and message. */
  function CommitBody(links: CommitLinks, rest: Bytes): Bytes {
    var parent := match links.parent
      case None => []
      case Some(p) => PARENT_FIELD + HexOfBytes(p) + [LF];
    TREE_FIELD + HexOfBytes(links.tree) + [LF] + parent + rest
  }

  /** Reads `field HEX LF` at the front; the remaining bytes come with the id. */
  function ReadIdLine(b: Bytes, field: Bytes): Option<(Oid, Bytes)> {
    var k := |field|;
    if field <= b && |b| > k + 40 && AllHex(b[k..k+40]) && b[k+40] == LF
    then Some((BytesOfHex(b[k..k+40]), b[k+41..])) else None
  }

  function ReadCommit(body: Bytes): Option<CommitLinks> {
    match ReadIdLine(body, TREE_FIELD)
    case None => None
    case Some(t) =>
      match ReadIdLine(t.1, PARENT_FIELD)
      case None => Some(CommitLinks(t.0, None))
      case Some(p) => Some(CommitLinks(t.0, Some(p.0)))
  }

  lemma IdLineRoundTrip(field: Bytes, id: Oid, rest: Bytes)
    ensures ReadIdLine(field + HexOfBytes(id) + [LF] + rest, field) == Some((id, rest))
  {
    var b := field + HexOfBytes(id) + [LF] + rest;
    HexOfBytesRoundTrip(id);
    assert b[|field|..|field|+40] == HexOfBytes(id);
    assert b[|field|+41..] == rest;
  }

  lemma CommitRoundTrip(links: CommitLinks, rest: Bytes)
    requires !(PARENT_FIELD <= rest)
    ensures ReadCommit(CommitBody(links, rest)) == Some(links)
  {
    var body := CommitBody(links, rest);
    match links.parent
    case None =>
      assert body == TREE_FIELD + HexOfBytes(links.tree) + [LF] + rest;
      IdLineRoundTrip(TREE_FIELD, links.tree, rest);
    case Some(p) =>
      var tail := PARENT_FIELD + HexOfBytes(p) + [LF] + rest;
      assert body == TREE_FIELD + HexOfBytes(links.tree) + [LF] + tail;
      IdLineRoundTrip(TREE_FIELD, links.tree, tail);
      IdLineRoundTrip(PARENT_FIELD, p, rest);
  }

  function LinksOf(store: Store, id: Oid): Option<CommitLinks> {
    match ReadObject(store, id, COMMIT)
    case None => None
    case Some(body) => ReadCommit(body)
  }

  /** Commit ids to their links, as the store answers them. */
  function LinkMap(store: Store): Oid -> Option<CommitLinks> {
    (id: Oid) => LinksOf(store, id)
  }

  /** `log` is what following parents from its first commit visits, to the root. */
  ghost predicate IsLog(links: Oid -> Option<CommitLinks>, log: seq<Oid>) {
    && log != []
    && links(log[0]).Some?
    && links(log[0]).value.parent == (if |log| == 1 then None else Some(log[1]))
    && (|log| > 1 ==> IsLog(links, log[1..]))
  }

  /** From one commit there is only one log. */
  lemma {:induction false} LogIsUnique(links: Oid -> Option<CommitLinks>, a: seq<Oid>, b: seq<Oid>)
    requires IsLog(links, a) && IsLog(links, b) && a[0] == b[0]
    ensures a == b
  {
    if |a| > 1 {
      LogIsUnique(links, a[1..], b[1..]);
      assert a == [a[0]] + a[1..] && b == [b[0]] + b[1..];
    }
  }

  lemma {:induction false} LogSuffix(links: Oid -> Option<CommitLinks>, log: seq<Oid>, k: nat)
    requires IsLog(links, log) && k < |log|
    ensures IsLog(links, log[k..])
  {
    if k > 0 {
      LogSuffix(links, log[1..], k - 1);
      assert log[1..][k-1..] == log[k..];
    } else {
      assert log[0..] == log;
    }
  }

  /** A log that reaches a parentless root never visits a commit twice. */
  lemma LogHasNoRepeats(links: Oid -> Option<CommitLinks>, log: seq<Oid>)
    requires IsLog(links, log)
    ensures Distinct(log)
  {
    forall i, j | 0 <= i < j < |log|
      ensures log[i] != log[j]
    {
      LogSuffix(links, log, i);
      LogSuffix(links, log, j);
      if log[i] == log[j] {
        LogIsUnique(links, log[i..], log[j..]);
      }
    }
  }
}

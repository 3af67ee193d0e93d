/** The repository builder: a content-addressed store, directories whose tree ids
    are updated one at a time, and a chain of commits over them. */
module GitBuild {
  import opened ByteStrings
  import opened GitObjects
  import opened Sequences
  import opened Sorting

  /** One file written: directory, file name and contents. */
  datatype Edit = Edit(where: Name, name: Name, body: Bytes)

  // ---- What the history of a build should hold ------------------------------------

  /** The working tree after writing one file, its directory made if need be. */
  function Write(work: Snapshot, e: Edit): Snapshot {
    var files := if e.where in work then work[e.where] else map[];
    work[e.where := files[e.name := e.body]]
  }

  function WriteAll(work: Snapshot, edits: seq<Edit>): Snapshot {
    if edits == [] then work
    else Write(WriteAll(work, edits[..|edits|-1]), edits[|edits|-1])
  }

  predicate LegalEdits(edits: seq<Edit>) {
    forall i | 0 <= i < |edits| :: Legal(edits[i].where) && Legal(edits[i].name)
  }

  lemma {:induction false} WriteAllLegal(work: Snapshot, edits: seq<Edit>)
    requires LegalSnapshot(work) && LegalEdits(edits)
    ensures LegalSnapshot(WriteAll(work, edits))
    ensures work.Keys <= WriteAll(work, edits).Keys
  {
    if edits != [] {
      WriteAllLegal(work, edits[..|edits|-1]);
    }
  }

  /** A file has the bytes of the last edit to it. */
  lemma {:induction false} LastWriteWins(work: Snapshot, edits: seq<Edit>, i: nat)
    requires i < |edits|
    requires forall j | i < j < |edits| :: !(edits[j].where == edits[i].where && edits[j].name == edits[i].name)
    ensures var after, e := WriteAll(work, edits), edits[i];
      e.where in after && e.name in after[e.where] && after[e.where][e.name] == e.body
  {
    var n := |edits| - 1;
    if i < n {
      LastWriteWins(work, edits[..n], i);
    }
  }

  /** A file no edit touches is there after the edits exactly if it was there before, with
      the same bytes; a directory is there if it was or a file was written to it. */
  lemma {:induction false} UntouchedStays(work: Snapshot, edits: seq<Edit>, d: Name, n: Name)
    ensures var after := WriteAll(work, edits);
      && (d in after <==> d in work || exists i :: 0 <= i < |edits| && edits[i].where == d)
      && ((forall i | 0 <= i < |edits| :: !(edits[i].where == d && edits[i].name == n)) ==>
            && (d in after && n in after[d] <==> d in work && n in work[d])
            && (d in after && n in after[d] ==> after[d][n] == work[d][n]))
  {
    if edits != [] {
      var k := |edits| - 1;
      var front := edits[..k];
      UntouchedStays(work, front, d, n);
      assert forall i | 0 <= i < k :: front[i] == edits[i];
      assert (exists i :: 0 <= i < |edits| && edits[i].where == d)
        <==> (exists i :: 0 <= i < k && front[i].where == d) || edits[k].where == d;
    }
  }

  const AUTHOR: Bytes := Ascii("author Scale Author ") + Ascii("<author@bash-os.test")
  const COMMITTER: Bytes := Ascii("committer Scale Committer ") + Ascii("<committer@bash-os.test")
  const ZONE: Bytes := Ascii("+0000\n")
  const MESSAGE: Bytes := Ascii("\ncommit number ")

  /** What a commit says after its link lines: both identities and the message. */
  function CommitText(n: nat): Bytes {
    var when := Dec(1750000000 + n * 60) + [SP];
    AUTHOR + [GT] + ([SP] + (when + (ZONE + (COMMITTER + [GT] + ([SP] + (when + (ZONE + (MESSAGE + Dec(n) + [LF]))))))))
  }

  /** The number after the first `> `, and what follows the space behind it. */
  function ReadStamp(b: Bytes): Option<(nat, Bytes)> {
    match Cut(b, 62)
    case None => None
    case Some(who) =>
      if who.1 == [] || who.1[0] != 32 then None else
      match Cut(who.1[1..], 32)
      case None => None
      case Some(when) => if AllDigits(when.0) then Some((DecValue(when.0), when.1)) else None
  }

  lemma StampReads(who: Bytes, when: nat, rest: Bytes)
    requires GT !in who
    ensures ReadStamp(who + [GT] + ([SP] + (Dec(when) + [SP] + rest))) == Some((when, rest))
  {
    var after := Dec(when) + [SP] + rest;
    CutAt(who, GT, [SP] + after);
    DecRoundTrip(when);
    assert ([SP] + after)[1..] == after;
    CutAt(Dec(when), SP, rest);
  }

  lemma TwoStamps(who: Bytes, zone: Bytes, other: Bytes, when: nat, message: Bytes)
    requires GT !in who && GT !in zone && GT !in other
    ensures var tail := [SP] + (Dec(when) + [SP] + (zone + message));
      var rest := zone + (other + [GT] + tail);
      && ReadStamp(who + [GT] + ([SP] + (Dec(when) + [SP] + rest))) == Some((when, rest))
      && ReadStamp(rest) == Some((when, zone + message))
  {
    var tail := [SP] + (Dec(when) + [SP] + (zone + message));
    StampReads(who, when, zone + (other + [GT] + tail));
    StampReads(zone + other, when, zone + message);
    Assoc(zone, other, [GT]);
    Assoc(zone, other + [GT], tail);
  }

  lemma NamesArePlain()
    ensures GT !in AUTHOR && GT !in ZONE && GT !in COMMITTER
  {}

  /** Author and committer of commit n have the same time, n minutes after the first. */
  lemma CommitTimes(n: nat)
    ensures var author := ReadStamp(CommitText(n));
      && author.Some? && author.value.0 == 1750000000 + 60 * n
      && var committer := ReadStamp(author.value.1);
         committer.Some? && committer.value.0 == 1750000000 + 60 * n
  {
    NamesArePlain();
    TwoStamps(AUTHOR, ZONE, COMMITTER, 1750000000 + n * 60, MESSAGE + Dec(n) + [LF]);
  }

  lemma CommitTextIsNoParent(n: nat)
    ensures !(PARENT_FIELD <= CommitText(n))
  {
    assert PARENT_FIELD[0] == 112;
    assert AUTHOR[0] == 97;
  }

  /** The links of commit i: the root tree of its own working tree, rebuilt from
      scratch, and the commit before it. */
  ghost function ExpectedLinks(sha: Sha, history: seq<Snapshot>, commits: seq<Oid>, i: nat): CommitLinks
    requires i < |history| && i <= |commits|
  {
    CommitLinks(RootId(sha, history[i]), if i == 0 then None else Some(commits[i-1]))
  }

  function CommitRecord(links: CommitLinks, n: nat): Bytes {
    Record(COMMIT, CommitBody(links, CommitText(n)))
  }

  // ---- Collision-free stores --------------------------------------------------------

  ghost predicate CollisionFree(sha: Sha, kept: set<Bytes>) {
    forall a, b | a in kept && b in kept && sha(a) == sha(b) :: a == b
  }

  /** Every record offered is stored, and every stored record was offered. */
  ghost predicate Addressed(sha: Sha, store: Store, kept: set<Bytes>) {
    && (forall id | id in store :: store[id] in kept && sha(store[id]) == id)
    && (forall raw | raw in kept :: sha(raw) in store)
  }

  lemma KeptIsHeld(sha: Sha, store: Store, kept: set<Bytes>, raw: Bytes)
    requires Addressed(sha, store, kept) && CollisionFree(sha, kept) && raw in kept
    ensures Holds(sha, store, raw)
  {}

  ghost predicate KeptBlobs(kept: set<Bytes>, work: Snapshot) {
    forall d, n | d in work && n in work[d] :: Record(BLOB, work[d][n]) in kept
  }

  ghost predicate KeptDirectories(sha: Sha, kept: set<Bytes>, work: Snapshot) {
    forall d | d in work :: DirectoryRecord(sha, work[d]) in kept
  }

  ghost predicate KeptSnapshot(sha: Sha, kept: set<Bytes>, work: Snapshot) {
    RootRecord(sha, work) in kept && KeptDirectories(sha, kept, work) && KeptBlobs(kept, work)
  }

  /** Commit i is the record of working tree i on top of commit i - 1. */
  ghost predicate CommitKept(sha: Sha, kept: set<Bytes>, links: CommitLinks, id: Oid, i: nat) {
    id == sha(CommitRecord(links, i)) && CommitRecord(links, i) in kept
  }

  ghost predicate EntryKept(sha: Sha, kept: set<Bytes>, history: seq<Snapshot>, commits: seq<Oid>, i: nat)
    requires i < |history| == |commits|
  {
    && LegalSnapshot(history[i])
    && KeptSnapshot(sha, kept, history[i])
    && CommitKept(sha, kept, ExpectedLinks(sha, history, commits, i), commits[i], i)
  }

  ghost predicate KeptHistory(sha: Sha, kept: set<Bytes>, history: seq<Snapshot>, commits: seq<Oid>) {
    |commits| == |history| && forall i | 0 <= i < |history| :: EntryKept(sha, kept, history, commits, i)
  }

  lemma CommitReads(sha: Sha, store: Store, kept: set<Bytes>, links: CommitLinks, id: Oid, i: nat)
    requires Addressed(sha, store, kept) && CollisionFree(sha, kept)
    requires CommitKept(sha, kept, links, id, i)
    ensures LinksOf(store, id) == Some(links)
  {
    var body := CommitBody(links, CommitText(i));
    CommitTextIsNoParent(i);
    CommitRoundTrip(links, CommitText(i));
    KeptIsHeld(sha, store, kept, Record(COMMIT, body));
    ReadHeld(sha, store, COMMIT, body);
  }

  ghost predicate Links(links: Oid -> Option<CommitLinks>, id: Oid, parent: Option<Oid>) {
    links(id).Some? && links(id).value.parent == parent
  }

  lemma {:induction false} ChainIsLog(links: Oid -> Option<CommitLinks>, ids: seq<Oid>)
    requires ids != []
    requires Links(links, ids[0], None)
    requires forall i | 0 < i < |ids| :: Links(links, ids[i], Some(ids[i-1]))
    ensures IsLog(links, Reverse(ids))
  {
    var n := |ids| - 1;
    if n > 0 {
      ChainIsLog(links, ids[..n]);
      assert Reverse(ids)[1..] == Reverse(ids[..n]);
      assert Reverse(ids[..n])[0] == ids[..n][n-1] == ids[n-1];
      assert Links(links, ids[n], Some(ids[n-1]));
    } else {
      assert Reverse(ids[..0]) == [];
    }
  }

  lemma SnapshotReads(sha: Sha, store: Store, kept: set<Bytes>, work: Snapshot)
    requires Addressed(sha, store, kept) && CollisionFree(sha, kept)
    requires LegalSnapshot(work) && KeptSnapshot(sha, kept, work)
    ensures Checkout(store, RootId(sha, work)) == Some(work)
  {
    assert HoldsSnapshot(sha, store, work);
    CheckoutCorrect(sha, store, work);
  }

  /** What reading commit i back from the store gives: its own tree and parent. */
  ghost predicate ReadsBack(store: Store, history: seq<Snapshot>, commits: seq<Oid>, i: nat)
    requires i < |history| == |commits|
  {
    && Links(LinkMap(store), commits[i], if i == 0 then None else Some(commits[i-1]))
    && Checkout(store, LinkMap(store)(commits[i]).value.tree) == Some(history[i])
  }

  lemma HistoryReadsBackAt(sha: Sha, store: Store, kept: set<Bytes>, history: seq<Snapshot>, commits: seq<Oid>, i: nat)
    requires Addressed(sha, store, kept) && CollisionFree(sha, kept)
    requires KeptHistory(sha, kept, history, commits) && i < |history|
    ensures ReadsBack(store, history, commits, i)
  {
    assert EntryKept(sha, kept, history, commits, i);
    CommitReads(sha, store, kept, ExpectedLinks(sha, history, commits, i), commits[i], i);
    SnapshotReads(sha, store, kept, history[i]);
  }

  /** Following parents from the last commit visits every commit once, newest first,
      and each one's tree gives back exactly its working tree. */
  lemma HistoryReadsBack(sha: Sha, store: Store, kept: set<Bytes>, history: seq<Snapshot>, commits: seq<Oid>)
    requires Addressed(sha, store, kept) && CollisionFree(sha, kept)
    requires KeptHistory(sha, kept, history, commits) && history != []
    ensures IsLog(LinkMap(store), Reverse(commits)) && Distinct(Reverse(commits))
    ensures forall i | 0 <= i < |history| :: ReadsBack(store, history, commits, i)
  {
    AllReadBack(sha, store, kept, history, commits);
    assert ReadsBack(store, history, commits, 0);
    ReadBackLinks(store, history, commits);
    ChainIsLog(LinkMap(store), commits);
    LogHasNoRepeats(LinkMap(store), Reverse(commits));
  }

  lemma AllReadBack(sha: Sha, store: Store, kept: set<Bytes>, history: seq<Snapshot>, commits: seq<Oid>)
    requires Addressed(sha, store, kept) && CollisionFree(sha, kept)
    requires KeptHistory(sha, kept, history, commits)
    ensures forall i | 0 <= i < |history| :: ReadsBack(store, history, commits, i)
  {
    forall i | 0 <= i < |history|
      ensures ReadsBack(store, history, commits, i)
    {
      HistoryReadsBackAt(sha, store, kept, history, commits, i);
    }
  }

  lemma ReadBackLinks(store: Store, history: seq<Snapshot>, commits: seq<Oid>)
    requires |history| == |commits|
    requires forall i | 0 <= i < |history| :: ReadsBack(store, history, commits, i)
    ensures forall i | 0 < i < |commits| :: Links(LinkMap(store), commits[i], Some(commits[i-1]))
  {
    forall i | 0 < i < |commits|
      ensures Links(LinkMap(store), commits[i], Some(commits[i-1]))
    {
      assert ReadsBack(store, history, commits, i);
    }
  }

  // ---- The builder --------------------------------------------------------------------

  function KeyOf(m: map<Name, Entry>, n: Name): Bytes {
    if n in m then SortKey(n, m[n]) else n
  }

  function ByKey(m: map<Name, Entry>): (Name, Name) -> bool {
    (a: Name, b: Name) => Leq(KeyOf(m, a), KeyOf(m, b))
  }

  lemma ByKeyIsOrder(m: map<Name, Entry>)
    ensures TotalPreorder(ByKey(m))
  {
    LeqIsTotalOrder();
  }

  lemma SortedIsOrdered(m: map<Name, Entry>, names: seq<Name>)
    requires LegalNames(m) && Enumerates(names, m)
    ensures Sort(names, ByKey(m)) == Ordered(m)
  {
    var s := Sort(names, ByKey(m));
    ByKeyIsOrder(m);
    SortSorts(names, ByKey(m));
    SortElements(names, ByKey(m));
    SortKeepsDistinct(names, ByKey(m));
    SortedGivesInOrder(m, s);
    SortedEnumerationIsUnique(s, Ordered(m), m);
  }

  lemma SortedGivesInOrder(m: map<Name, Entry>, s: seq<Name>)
    requires Sorted(s, ByKey(m)) && forall n | n in s :: n in m
    ensures InOrder(s, m)
  {
    forall i, j | 0 <= i < j < |s|
      ensures KeyLeq(m, s[i], s[j])
    {
      assert ByKey(m)(s[i], s[j]);
      assert s[i] in s && s[j] in s;
    }
  }

  /** The object directory: ids to records, written once and never replaced. */
  class ObjectStore {
    const sha: Sha
    var objects: Store
    ghost var kept: set<Bytes>

    ghost predicate Valid()
      reads this
    {
      Addressed(sha, objects, kept)
    }

    constructor (sha: Sha)
      ensures Valid() && this.sha == sha && objects == map[] && kept == {}
    {
      this.sha, objects, kept := sha, map[], {};
    }

    /** Stores the record unless its id is already there. */
    method Keep(kind: Bytes, body: Bytes) returns (id: Oid)
      requires Valid()
      modifies this
      ensures Valid()
      ensures id == sha(Record(kind, body))
      ensures kept == old(kept) + {Record(kind, body)}
      ensures objects == (if id in old(objects) then old(objects) else old(objects)[id := Record(kind, body)])
    {
      var raw := Record(kind, body);
      id := sha(raw);
      if id !in objects {
        objects := objects[id := raw];
      }
      kept := kept + {raw};
    }

    /** Writes the tree of a directory. Whatever order the names are enumerated in,
        the record written is the canonical one. */
    method TreeOf(entries: map<Name, Entry>) returns (id: Oid)
      requires Valid() && LegalNames(entries)
      modifies this
      ensures Valid()
      ensures id == sha(Record(TREE, TreeBody(entries))) && CanonicalTree(TreeBody(entries), entries)
      ensures kept == old(kept) + {Record(TREE, TreeBody(entries))}
      ensures Grew(old(objects), objects)
    {
      var order := SortedNames(entries);
      var body := ListingText(order, entries);
      id := Keep(TREE, body);
      TreeBodyIsCanonical(entries);
    }
  }

  /** Nothing stored is lost or replaced. */
  ghost predicate Grew(before: Store, after: Store) {
    before.Keys <= after.Keys && forall id | id in before :: after[id] == before[id]
  }

  lemma GrewOn(a: Store, b: Store, c: Store)
    requires Grew(a, b) && Grew(b, c)
    ensures Grew(a, c)
  {}

  /** sorted(entries, key=...), from whatever order the dictionary yields. */
  method SortedNames(entries: map<Name, Entry>) returns (order: seq<Name>)
    requires LegalNames(entries)
    ensures order == Ordered(entries)
  {
    var names := Enumerate(entries);
    order := Sort(names, ByKey(entries));
    SortedIsOrdered(entries, names);
  }

  method ListingText(order: seq<Name>, entries: map<Name, Entry>) returns (body: Bytes)
    requires forall n | n in order :: n in entries
    ensures body == Listing(order, entries)
  {
    body := [];
    var i := 0;
    while i < |order|
      invariant 0 <= i <= |order|
      invariant body == Listing(order[..i], entries)
    {
      ListingSnoc(order[..i], order[i], entries);
      assert order[..i+1] == order[..i] + [order[i]];
      body := body + TreeLineBytes(ModeText(entries[order[i]].mode), order[i], entries[order[i]].id);
      i := i + 1;
    }
    assert order[..i] == order;
  }

  // ---- The whole build ------------------------------------------------------------------

  /** The directory dictionaries a working tree should have. */
  function DirectoryEntries(sha: Sha, work: Snapshot): map<Name, map<Name, Entry>> {
    map d | d in work :: BlobEntries(sha, work[d])
  }

  lemma EntriesAfterWrite(sha: Sha, work: Snapshot, e: Edit)
    ensures DirectoryEntries(sha, Write(work, e))
         == DirectoryEntries(sha, work)[e.where :=
              (if e.where in work then BlobEntries(sha, work[e.where]) else map[])
                [e.name := Entry(File, sha(Record(BLOB, e.body)))]]
  {
    var files := if e.where in work then work[e.where] else map[];
    assert BlobEntries(sha, files[e.name := e.body])
        == BlobEntries(sha, files)[e.name := Entry(File, sha(Record(BLOB, e.body)))];
  }

  lemma RootAfterWrite(sha: Sha, work: Snapshot, e: Edit)
    ensures var after := Write(work, e);
            RootEntries(sha, after)
              == RootEntries(sha, work)[e.where := Entry(Directory, sha(DirectoryRecord(sha, after[e.where])))]
  {}

  /** Writes one file into the working tree, its blob into the store and its id into
      the directory's dictionary. */
  method WriteFile(store: ObjectStore, work: Snapshot, directories: map<Name, map<Name, Entry>>, e: Edit)
    returns (work': Snapshot, directories': map<Name, map<Name, Entry>>)
    requires store.Valid() && directories == DirectoryEntries(store.sha, work)
    modifies store
    ensures store.Valid() && Grew(old(store.objects), store.objects)
    ensures work' == Write(work, e) && directories' == DirectoryEntries(store.sha, work')
    ensures store.kept == old(store.kept) + {Record(BLOB, e.body)}
  {
    EntriesAfterWrite(store.sha, work, e);
    work' := Write(work, e);
    var id := store.Keep(BLOB, e.body);
    var entries := if e.where in directories then directories[e.where] else map[];
    directories' := directories[e.where := entries[e.name := Entry(File, id)]];
  }

  /** Rewrites one directory's tree and the root above it. */
  method UpdateTrees(store: ObjectStore, work: Snapshot, directories: map<Name, map<Name, Entry>>,
                     subtrees: map<Name, Entry>, where: Name)
    returns (subtrees': map<Name, Entry>, tree: Oid)
    requires store.Valid() && LegalSnapshot(work) && where in work
    requires directories == DirectoryEntries(store.sha, work)
    requires RootEntries(store.sha, work)
          == subtrees[where := Entry(Directory, store.sha(DirectoryRecord(store.sha, work[where])))]
    modifies store
    ensures store.Valid() && Grew(old(store.objects), store.objects)
    ensures subtrees' == RootEntries(store.sha, work) && tree == RootId(store.sha, work)
    ensures store.kept == old(store.kept) + {DirectoryRecord(store.sha, work[where]), RootRecord(store.sha, work)}
  {
    var id := store.TreeOf(directories[where]);
    subtrees' := subtrees[where := Entry(Directory, id)];
    tree := store.TreeOf(subtrees');
  }

  ghost predicate DirectoryDone(sha: Sha, kept: set<Bytes>, files: map<Name, Bytes>, e: Entry) {
    e == Entry(Directory, sha(DirectoryRecord(sha, files))) && DirectoryRecord(sha, files) in kept
  }

  ghost predicate DirectoriesDone(sha: Sha, kept: set<Bytes>, work: Snapshot, subtrees: map<Name, Entry>) {
    forall d | d in subtrees :: d in work && DirectoryDone(sha, kept, work[d], subtrees[d])
  }

  lemma DirectoryDoneNext(sha: Sha, kept: set<Bytes>, work: Snapshot, subtrees: map<Name, Entry>, d: Name)
    requires DirectoriesDone(sha, kept, work, subtrees) && d in work
    ensures var raw := DirectoryRecord(sha, work[d]);
            DirectoriesDone(sha, kept + {raw}, work, subtrees[d := Entry(Directory, sha(raw))])
  {}

  lemma AllDirectoriesDone(sha: Sha, kept: set<Bytes>, work: Snapshot, subtrees: map<Name, Entry>)
    requires subtrees.Keys == work.Keys && DirectoriesDone(sha, kept, work, subtrees)
    ensures subtrees == RootEntries(sha, work) && KeptDirectories(sha, kept, work)
  {
    forall d | d in work
      ensures DirectoryDone(sha, kept, work[d], subtrees[d])
    {}
  }

  /** Writes every directory's tree and the root, from nothing. */
  method BuildTrees(store: ObjectStore, work: Snapshot, directories: map<Name, map<Name, Entry>>)
    returns (subtrees: map<Name, Entry>, tree: Oid)
    requires store.Valid() && LegalSnapshot(work)
    requires directories == DirectoryEntries(store.sha, work)
    modifies store
    ensures store.Valid() && Grew(old(store.objects), store.objects)
    ensures subtrees == RootEntries(store.sha, work) && tree == RootId(store.sha, work)
    ensures old(store.kept) <= store.kept && RootRecord(store.sha, work) in store.kept
    ensures KeptDirectories(store.sha, store.kept, work)
  {
    subtrees := map[];
    var left := directories.Keys;
    while left != {}
      invariant left <= work.Keys && subtrees.Keys == work.Keys - left
      invariant store.Valid() && Grew(old(store.objects), store.objects) && old(store.kept) <= store.kept
      invariant DirectoriesDone(store.sha, store.kept, work, subtrees)
      decreases left
    {
      var d :| d in left;
      DirectoryDoneNext(store.sha, store.kept, work, subtrees, d);
      var id := store.TreeOf(directories[d]);
      subtrees, left := subtrees[d := Entry(Directory, id)], left - {d};
    }
    AllDirectoriesDone(store.sha, store.kept, work, subtrees);
    tree := store.TreeOf(subtrees);
  }

  /** One commit: writes its record on top of `parent`. */
  method CommitTree(store: ObjectStore, links: CommitLinks, n: nat) returns (id: Oid)
    requires store.Valid()
    modifies store
    ensures store.Valid() && Grew(old(store.objects), store.objects)
    ensures store.kept == old(store.kept) + {CommitRecord(links, n)}
    ensures CommitKept(store.sha, store.kept, links, id, n)
  {
    id := store.Keep(COMMIT, CommitBody(links, CommitText(n)));
  }

  ghost predicate IsHistory(history: seq<Snapshot>, start: Snapshot, edits: seq<Edit>) {
    |history| == |edits| + 1 && forall i | 0 <= i < |history| :: history[i] == WriteAll(start, edits[..i])
  }

  /** What the store gives back: the log from the head is the commits, newest first,
      each visited once, and every commit's tree holds its working tree. */
  ghost predicate Recovers(store: Store, history: seq<Snapshot>, commits: seq<Oid>) {
    && |history| == |commits|
    && IsLog(LinkMap(store), Reverse(commits)) && Distinct(Reverse(commits))
    && forall i | 0 <= i < |history| :: ReadsBack(store, history, commits, i)
  }

  lemma BlobsAfterWrite(kept: set<Bytes>, work: Snapshot, e: Edit)
    requires KeptBlobs(kept, work)
    ensures KeptBlobs(kept + {Record(BLOB, e.body)}, Write(work, e))
  {
    var after, kept' := Write(work, e), kept + {Record(BLOB, e.body)};
    forall d, n | d in after && n in after[d]
      ensures Record(BLOB, after[d][n]) in kept'
    {
      if !(d == e.where && n == e.name) {
        assert d in work && n in work[d] && after[d][n] == work[d][n];
      }
    }
  }

  lemma DirectoriesAfterWrite(sha: Sha, kept: set<Bytes>, work: Snapshot, e: Edit)
    requires KeptDirectories(sha, kept, work)
    ensures KeptDirectories(sha, kept + {DirectoryRecord(sha, Write(work, e)[e.where])}, Write(work, e))
  {
    forall d | d in Write(work, e)
      ensures DirectoryRecord(sha, Write(work, e)[d]) in kept + {DirectoryRecord(sha, Write(work, e)[e.where])}
    {
      if d != e.where {
        assert d in work && Write(work, e)[d] == work[d];
      }
    }
  }

  lemma SnapshotAfterWrite(sha: Sha, kept: set<Bytes>, kept': set<Bytes>, work: Snapshot, e: Edit)
    requires KeptSnapshot(sha, kept, work) && kept <= kept'
    requires Record(BLOB, e.body) in kept'
    requires DirectoryRecord(sha, Write(work, e)[e.where]) in kept'
    requires RootRecord(sha, Write(work, e)) in kept'
    ensures KeptSnapshot(sha, kept', Write(work, e))
  {
    BlobsAfterWrite(kept, work, e);
    DirectoriesAfterWrite(sha, kept, work, e);
  }

  lemma KeptHistorySnoc(sha: Sha, kept: set<Bytes>, kept': set<Bytes>,
                        history: seq<Snapshot>, commits: seq<Oid>, work: Snapshot, id: Oid)
    requires KeptHistory(sha, kept, history, commits) && kept <= kept'
    requires LegalSnapshot(work) && KeptSnapshot(sha, kept', work)
    requires CommitKept(sha, kept', CommitLinks(RootId(sha, work),
               if history == [] then None else Some(commits[|commits|-1])), id, |history|)
    ensures KeptHistory(sha, kept', history + [work], commits + [id])
  {
    var h, c := history + [work], commits + [id];
    forall i | 0 <= i < |h|
      ensures EntryKept(sha, kept', h, c, i)
    {
      if i < |history| {
        EntryStaysKept(sha, kept, kept', history, commits, work, id, i);
      }
    }
  }

  lemma EntryStaysKept(sha: Sha, kept: set<Bytes>, kept': set<Bytes>,
                       history: seq<Snapshot>, commits: seq<Oid>, work: Snapshot, id: Oid, i: nat)
    requires i < |history| == |commits| && EntryKept(sha, kept, history, commits, i) && kept <= kept'
    ensures EntryKept(sha, kept', history + [work], commits + [id], i)
  {
    assert ExpectedLinks(sha, history + [work], commits + [id], i) == ExpectedLinks(sha, history, commits, i);
  }

  lemma HistorySnoc(history: seq<Snapshot>, start: Snapshot, edits: seq<Edit>, n: nat)
    requires n < |edits| && IsHistory(history, start, edits[..n])
    ensures IsHistory(history + [WriteAll(start, edits[..n+1])], start, edits[..n+1])
    ensures WriteAll(start, edits[..n+1]) == Write(WriteAll(start, edits[..n]), edits[n])
  {
    assert edits[..n+1][..n] == edits[..n];
    var h := history + [WriteAll(start, edits[..n+1])];
    forall i | 0 <= i < |h|
      ensures h[i] == WriteAll(start, edits[..n+1][..i])
    {
      if i < |history| {
        assert edits[..n+1][..i] == edits[..n][..i];
      } else {
        assert edits[..n+1][..i] == edits[..n+1];
      }
    }
  }

  lemma PrefixLegal(start: Snapshot, edits: seq<Edit>, n: nat)
    requires n <= |edits| && LegalEdits(edits) && LegalSnapshot(start)
    ensures LegalSnapshot(WriteAll(start, edits[..n])) && start.Keys <= WriteAll(start, edits[..n]).Keys
  {
    WriteAllLegal(start, edits[..n]);
  }

  /** The initial working tree: every file written, in the order given. */
  method WriteFiles(store: ObjectStore, files: seq<Edit>)
    returns (work: Snapshot, directories: map<Name, map<Name, Entry>>)
    requires store.Valid()
    modifies store
    ensures store.Valid() && Grew(old(store.objects), store.objects)
    ensures work == WriteAll(map[], files) && directories == DirectoryEntries(store.sha, work)
    ensures KeptBlobs(store.kept, work)
  {
    work, directories := map[], map[];
    var i := 0;
    while i < |files|
      invariant 0 <= i <= |files|
      invariant store.Valid() && Grew(old(store.objects), store.objects)
      invariant work == WriteAll(map[], files[..i]) && directories == DirectoryEntries(store.sha, work)
      invariant KeptBlobs(store.kept, work)
    {
      BlobsAfterWrite(store.kept, work, files[i]);
      assert files[..i+1][..i] == files[..i];
      work, directories := WriteFile(store, work, directories, files[i]);
      i := i + 1;
    }
    assert files[..i] == files;
  }

  /** The dictionaries kept across commits are those of the current working tree. */
  ghost predicate UpToDate(sha: Sha, work: Snapshot, directories: map<Name, map<Name, Entry>>,
                           subtrees: map<Name, Entry>, tree: Oid) {
    directories == DirectoryEntries(sha, work) && subtrees == RootEntries(sha, work) && tree == RootId(sha, work)
  }

  /** Writes one edit, updates the trees above it and commits the result. */
  method CommitEdit(store: ObjectStore, work: Snapshot, directories: map<Name, map<Name, Entry>>,
                    subtrees: map<Name, Entry>, parent: Oid, e: Edit, n: nat)
    returns (work': Snapshot, directories': map<Name, map<Name, Entry>>,
             subtrees': map<Name, Entry>, tree: Oid, id: Oid)
    requires store.Valid() && UpToDate(store.sha, work, directories, subtrees, RootId(store.sha, work))
    requires LegalSnapshot(Write(work, e)) && e.where in work
    requires KeptSnapshot(store.sha, store.kept, work)
    modifies store
    ensures store.Valid() && Grew(old(store.objects), store.objects) && old(store.kept) <= store.kept
    ensures work' == Write(work, e) && UpToDate(store.sha, work', directories', subtrees', tree)
    ensures KeptSnapshot(store.sha, store.kept, work')
    ensures CommitKept(store.sha, store.kept, CommitLinks(RootId(store.sha, work'), Some(parent)), id, n)
  {
    ghost var kept := store.kept;
    work', directories' := WriteFile(store, work, directories, e);
    RootAfterWrite(store.sha, work, e);
    subtrees', tree := UpdateTrees(store, work', directories', subtrees, e.where);
    id := CommitTree(store, CommitLinks(tree, Some(parent)), n);
    SnapshotAfterWrite(store.sha, kept, store.kept, work, e);
  }

  /** Where a build stands after the edits `done`. */
  ghost predicate Progress(sha: Sha, kept: set<Bytes>, start: Snapshot, done: seq<Edit>, work: Snapshot,
                           history: seq<Snapshot>, commits: seq<Oid>, head: Oid)
  {
    && work == WriteAll(start, done) && IsHistory(history, start, done)
    && KeptHistory(sha, kept, history, commits)
    && commits[|commits|-1] == head
  }

  method FirstCommit(store: ObjectStore, files: seq<Edit>)
    returns (work: Snapshot, directories: map<Name, map<Name, Entry>>, subtrees: map<Name, Entry>, tree: Oid, head: Oid)
    requires store.Valid() && LegalEdits(files)
    modifies store
    ensures store.Valid() && Grew(old(store.objects), store.objects) && LegalSnapshot(work)
    ensures work == WriteAll(map[], files) && UpToDate(store.sha, work, directories, subtrees, tree)
    ensures Progress(store.sha, store.kept, work, [], work, [work], [head], head)
  {
    work, directories := WriteFiles(store, files);
    WriteAllLegal(map[], files);
    subtrees, tree := BuildTrees(store, work, directories);
    head := CommitTree(store, CommitLinks(tree, None), 0);
    KeptHistorySnoc(store.sha, store.kept, store.kept, [], [], work, head);
    assert [] + [work] == [work] && [] + [head] == [head];
  }

  lemma ProgressLast(sha: Sha, kept: set<Bytes>, start: Snapshot, done: seq<Edit>, work: Snapshot,
                     history: seq<Snapshot>, commits: seq<Oid>, head: Oid)
    requires Progress(sha, kept, start, done, work, history, commits, head)
    ensures KeptSnapshot(sha, kept, work)
  {
    var n := |history| - 1;
    assert EntryKept(sha, kept, history, commits, n);
    assert done[..n] == done;
  }

  method NextCommit(store: ObjectStore, work: Snapshot, directories: map<Name, map<Name, Entry>>,
                    subtrees: map<Name, Entry>, ghost root: Oid, head: Oid, edits: seq<Edit>, n: nat,
                    ghost start: Snapshot, ghost history: seq<Snapshot>, ghost commits: seq<Oid>)
    returns (work': Snapshot, directories': map<Name, map<Name, Entry>>, subtrees': map<Name, Entry>, tree: Oid,
             head': Oid, ghost history': seq<Snapshot>, ghost commits': seq<Oid>)
    requires n < |edits| && LegalEdits(edits) && LegalSnapshot(start) && edits[n].where in start
    requires store.Valid() && UpToDate(store.sha, work, directories, subtrees, root)
    requires Progress(store.sha, store.kept, start, edits[..n], work, history, commits, head)
    modifies store
    ensures store.Valid() && Grew(old(store.objects), store.objects)
    ensures UpToDate(store.sha, work', directories', subtrees', tree)
    ensures Progress(store.sha, store.kept, start, edits[..n+1], work', history', commits', head')
  {
    ghost var kept := store.kept;
    NextReady(store.sha, kept, work, head, edits, n, start, history, commits);
    work', directories', subtrees', tree, head' :=
      CommitEdit(store, work, directories, subtrees, head, edits[n], n + 1);
    ProgressStep(store.sha, kept, store.kept, start, edits, n, work, history, commits, head, head');
    history', commits' := history + [work'], commits + [head'];
  }

  lemma ProgressStep(sha: Sha, kept: set<Bytes>, kept': set<Bytes>, start: Snapshot, edits: seq<Edit>, n: nat,
                     work: Snapshot, history: seq<Snapshot>, commits: seq<Oid>, head: Oid, head': Oid)
    requires n < |edits| && kept <= kept'
    requires Progress(sha, kept, start, edits[..n], work, history, commits, head)
    requires var after := Write(work, edits[n]);
      && LegalSnapshot(after) && KeptSnapshot(sha, kept', after)
      && CommitKept(sha, kept', CommitLinks(RootId(sha, after), Some(head)), head', n + 1)
    ensures var after := Write(work, edits[n]);
      Progress(sha, kept', start, edits[..n+1], after, history + [after], commits + [head'], head')
  {
    HistorySnoc(history, start, edits, n);
    KeptHistorySnoc(sha, kept, kept', history, commits, Write(work, edits[n]), head');
  }

  lemma NextReady(sha: Sha, kept: set<Bytes>, work: Snapshot, head: Oid, edits: seq<Edit>, n: nat,
                  start: Snapshot, history: seq<Snapshot>, commits: seq<Oid>)
    requires n < |edits| && LegalEdits(edits) && LegalSnapshot(start) && edits[n].where in start
    requires Progress(sha, kept, start, edits[..n], work, history, commits, head)
    ensures LegalSnapshot(Write(work, edits[n])) && edits[n].where in work
    ensures KeptSnapshot(sha, kept, work)
  {
    PrefixLegal(start, edits, n);
    PrefixLegal(start, edits, n + 1);
    HistorySnoc(history, start, edits, n);
    ProgressLast(sha, kept, start, edits[..n], work, history, commits, head);
  }

  /** Builds the first commit from `files`, then one commit for each edit. */
  method Build(store: ObjectStore, files: seq<Edit>, edits: seq<Edit>)
    returns (work: Snapshot, tree: Oid, head: Oid, ghost history: seq<Snapshot>, ghost commits: seq<Oid>)
    requires store.Valid() && LegalEdits(files) && LegalEdits(edits)
    requires forall i | 0 <= i < |edits| :: edits[i].where in WriteAll(map[], files)
    modifies store
    ensures store.Valid() && Grew(old(store.objects), store.objects)
    ensures work == WriteAll(WriteAll(map[], files), edits)
    ensures tree == RootId(store.sha, work)
    ensures IsHistory(history, WriteAll(map[], files), edits)
    ensures KeptHistory(store.sha, store.kept, history, commits) && commits[|commits|-1] == head
    ensures CollisionFree(store.sha, store.kept) ==> Recovers(store.objects, history, commits)
  {
    var directories, subtrees, first;
    work, directories, subtrees, tree, first := FirstCommit(store, files);
    work, tree, head, history, commits := CommitAll(store, work, directories, subtrees, tree, first, edits);
    RecoversIfCollisionFree(store.sha, store.objects, store.kept, history, commits);
  }

  method CommitAll(store: ObjectStore, start: Snapshot, directories0: map<Name, map<Name, Entry>>,
                   subtrees0: map<Name, Entry>, tree0: Oid, head0: Oid, edits: seq<Edit>)
    returns (work: Snapshot, tree: Oid, head: Oid, ghost history: seq<Snapshot>, ghost commits: seq<Oid>)
    requires LegalEdits(edits) && LegalSnapshot(start)
    requires forall i | 0 <= i < |edits| :: edits[i].where in start
    requires store.Valid() && UpToDate(store.sha, start, directories0, subtrees0, tree0)
    requires Progress(store.sha, store.kept, start, [], start, [start], [head0], head0)
    modifies store
    ensures store.Valid() && Grew(old(store.objects), store.objects)
    ensures tree == RootId(store.sha, work)
    ensures Progress(store.sha, store.kept, start, edits, work, history, commits, head)
  {
    var directories, subtrees := directories0, subtrees0;
    work, tree, head := start, tree0, head0;
    history, commits := [work], [head];
    var n := 0;
    assert edits[..0] == [];
    while n < |edits|
      invariant 0 <= n <= |edits|
      invariant store.Valid() && Grew(old(store.objects), store.objects)
      invariant UpToDate(store.sha, work, directories, subtrees, tree)
      invariant Progress(store.sha, store.kept, start, edits[..n], work, history, commits, head)
    {
      ghost var before := store.objects;
      work, directories, subtrees, tree, head, history, commits :=
        NextCommit(store, work, directories, subtrees, tree, head, edits, n, start, history, commits);
      GrewOn(old(store.objects), before, store.objects);
      n := n + 1;
    }
    assert edits[..n] == edits;
  }

  lemma RecoversIfCollisionFree(sha: Sha, store: Store, kept: set<Bytes>, history: seq<Snapshot>, commits: seq<Oid>)
    requires Addressed(sha, store, kept) && KeptHistory(sha, kept, history, commits) && history != []
    ensures CollisionFree(sha, kept) ==> Recovers(store, history, commits)
  {
    if CollisionFree(sha, kept) {
      HistoryReadsBack(sha, store, kept, history, commits);
    }
  }
}

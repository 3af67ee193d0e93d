/** The index v2 file as three builders write it, and a reader for it. */
module IndexFile {
  import opened ByteStrings
  import opened GitObjects
  import opened Sorting

  /** The ten stat words (mode among them), the object id and the path. */
  datatype IndexEntry = IndexEntry(stat: seq<nat>, id: Oid, path: Bytes)

  predicate WellFormed(e: IndexEntry) {
    |e.stat| == 10 && Words(e.stat) && NUL !in e.path
  }

  /** The ten words at the front; none from fewer than forty bytes. */
  function ReadStat(b: Bytes): seq<nat> {
    match ReadWords(b, 10)
    case None => []
    case Some(r) => r.0
  }

  function Zeros(n: nat): (z: Bytes)
    ensures |z| == n && forall i | 0 <= i < n :: z[i] == NUL
  {
    if n == 0 then [] else Zeros(n - 1) + [NUL]
  }

  /** Stat words and id, the 60 bytes in front of the flags. */
  function Fixed(e: IndexEntry): (b: Bytes)
    requires WellFormed(e)
    ensures |b| == 60
  {
    WordBytes(e.stat) + e.id
  }

  /** How many NULs end an entry whose path has this length. */
  function Padding(length: nat): (n: nat)
    ensures 1 <= n <= 8 && (62 + length + n) % 8 == 0
  {
    8 - (62 + length) % 8
  }

  /** The form with a saturating length and a computed padding. */
  function EntryBytes(e: IndexEntry): Bytes
    requires WellFormed(e)
  {
    Fixed(e) + (Be16(if |e.path| < 0xfff then |e.path| else 0xfff) + (e.path + Zeros(Padding(|e.path|))))
  }

  /** The form that packs the length as it is, which struct.pack refuses past 0xffff,
      and pads in a loop. */
  method HistoricalEntry(e: IndexEntry) returns (b: Option<Bytes>)
    requires WellFormed(e)
    ensures b == Historical(e)
  {
    if |e.path| > 0xffff {
      return None;
    }
    var entry := Fixed(e) + (Be16(|e.path|) + (e.path + [NUL]));
    ghost var start := Fixed(e) + (Be16(|e.path|) + e.path);
    ghost var count := 1;
    assert Zeros(0) == [] && Zeros(1) == [NUL];
    while |entry| % 8 != 0
      invariant 1 <= count <= Padding(|e.path|) && |start| == 62 + |e.path|
      invariant entry == Fixed(e) + (Be16(|e.path|) + (e.path + Zeros(count)))
      decreases Padding(|e.path|) - count
    {
      entry := entry + [NUL];
      count := count + 1;
      assert Zeros(count) == Zeros(count - 1) + [NUL];
    }
    assert count == Padding(|e.path|);
    b := Some(entry);
  }

  function Historical(e: IndexEntry): Option<Bytes>
    requires WellFormed(e)
  {
    if |e.path| > 0xffff then None
    else Some(Fixed(e) + (Be16(|e.path|) + (e.path + Zeros(Padding(|e.path|)))))
  }

  /** The two forms write the same bytes exactly for paths of at most 0xfff bytes. */
  lemma FormsAgree(e: IndexEntry)
    requires WellFormed(e)
    ensures Historical(e) == Some(EntryBytes(e)) <==> |e.path| <= 0xfff
  {
    if 0xfff < |e.path| <= 0xffff {
      var a, b := EntryBytes(e), Historical(e).value;
      assert a[60] == 0xf && b[60] == |e.path| / 256;
    }
  }

  // ---- Reading -------------------------------------------------------------------------

  /** The path after the flags: by its length, or up to a NUL when the length is
      saturated. */
  function ReadPath(after: Bytes, length: nat): Option<Bytes> {
    if length < 0xfff then
      (if length < |after| then Some(after[..length]) else None)
    else match Cut(after, NUL)
      case None => None
      case Some(c) => Some(c.0)
  }

  /** One entry, the four flag bits above the length, and the bytes after it. */
  function ReadEntry(b: Bytes): (r: Option<(IndexEntry, nat, Bytes)>)
    ensures r.Some? ==> |r.value.2| < |b|
  {
    if |b| < 62 then None else
    var flags := FromBe16(b[60..62]);
    match ReadPath(b[62..], flags % 4096)
    case None => None
    case Some(path) => EntryWith(b, path, flags / 4096)
  }

  /** The entry with this path, if its padding is all NUL. */
  function EntryWith(b: Bytes, path: Bytes, flags: nat): (r: Option<(IndexEntry, nat, Bytes)>)
    requires |b| >= 62
    ensures r.Some? ==> |r.value.2| < |b|
  {
    var end := 62 + |path| + Padding(|path|);
    if end > |b| || b[62+|path|..end] != Zeros(Padding(|path|)) then None
    else Some((IndexEntry(ReadStat(b[..40]), b[40..60], path), flags, b[end..]))
  }

  lemma ReadPathBack(path: Bytes, pad: Bytes, rest: Bytes)
    requires NUL !in path && pad != [] && pad[0] == NUL
    ensures ReadPath(path + pad + rest, if |path| < 0xfff then |path| else 0xfff) == Some(path)
  {
    var after := path + pad + rest;
    assert after == path + [NUL] + (pad[1..] + rest);
    CutAt(path, NUL, pad[1..] + rest);
    assert after[..|path|] == path;
  }

  lemma FixedReads(e: IndexEntry, tail: Bytes)
    requires WellFormed(e)
    ensures var b := Fixed(e) + tail;
            ReadStat(b[..40]) == e.stat && b[40..60] == e.id && b[60..] == tail
  {
    var b := Fixed(e) + tail;
    WordsRoundTrip(e.stat, []);
    assert b[..40] == WordBytes(e.stat) + [];
    assert b[40..60] == e.id;
  }

  lemma EntryLayout(e: IndexEntry, rest: Bytes)
    requires WellFormed(e)
    ensures var flags := Be16(if |e.path| < 0xfff then |e.path| else 0xfff);
            var after := e.path + Zeros(Padding(|e.path|)) + rest;
            EntryBytes(e) + rest == Fixed(e) + (flags + after)
  {
    var flags := Be16(if |e.path| < 0xfff then |e.path| else 0xfff);
    Assoc(flags, e.path + Zeros(Padding(|e.path|)), rest);
    Assoc(Fixed(e), flags + (e.path + Zeros(Padding(|e.path|))), rest);
  }

  lemma PaddingReads(path: Bytes, rest: Bytes)
    ensures var pad := Zeros(Padding(|path|));
            var after := path + pad + rest;
            after[|path|..|path|+|pad|] == pad && after[|path|+|pad|..] == rest
  {}

  lemma ReadEntryFrom(b: Bytes, length: nat, e: IndexEntry, rest: Bytes)
    requires |b| >= 62 && length < 4096 && b[60..62] == Be16(length)
    requires ReadPath(b[62..], length) == Some(e.path)
    requires var end := 62 + |e.path| + Padding(|e.path|);
      end <= |b| && b[62+|e.path|..end] == Zeros(Padding(|e.path|)) && b[end..] == rest
    requires ReadStat(b[..40]) == e.stat && b[40..60] == e.id
    ensures ReadEntry(b) == Some((e, 0, rest))
  {
    assert FromBe16(Be16(length)) == length;
  }

  /** An entry reads back whatever follows it, even when its length is saturated. */
  lemma EntryRoundTrip(e: IndexEntry, rest: Bytes)
    requires WellFormed(e)
    ensures ReadEntry(EntryBytes(e) + rest) == Some((e, 0, rest))
  {
    var b := EntryBytes(e) + rest;
    var length := if |e.path| < 0xfff then |e.path| else 0xfff;
    var pad := Zeros(Padding(|e.path|));
    var after := e.path + pad + rest;
    EntryLayout(e, rest);
    FixedReads(e, Be16(length) + after);
    ReadPathBack(e.path, pad, rest);
    PaddingReads(e.path, rest);
    SliceLayout(b, Fixed(e), Be16(length), after, |e.path|, |pad|);
    ReadEntryFrom(b, length, e, rest);
  }

  lemma SliceLayout(b: Bytes, fixed: Bytes, flags: Bytes, after: Bytes, path: nat, pad: nat)
    requires |fixed| == 60 && |flags| == 2 && b == fixed + (flags + after) && path + pad <= |after|
    ensures b[60..62] == flags && b[62..] == after
    ensures b[62+path..62+path+pad] == after[path..path+pad] && b[62+path+pad..] == after[path+pad..]
  {}

  /** The historical form reads back as itself exactly for paths of at most 0xfff bytes:
      past that the length runs into the flag bits. */
  lemma HistoricalRoundTrip(e: IndexEntry, rest: Bytes)
    requires WellFormed(e) && |e.path| <= 0xffff
    ensures ReadEntry(Historical(e).value + rest) == Some((e, 0, rest)) <==> |e.path| <= 0xfff
  {
    FormsAgree(e);
    if |e.path| <= 0xfff {
      EntryRoundTrip(e, rest);
    } else {
      var b := Historical(e).value + rest;
      assert b[60..62] == Be16(|e.path|);
    }
  }

  // ---- Whole files -----------------------------------------------------------------------

  const DIRC: Bytes := [68, 73, 82, 67]

  function EntriesBytes(entries: seq<IndexEntry>): Bytes
    requires forall i | 0 <= i < |entries| :: WellFormed(entries[i])
  {
    if entries == [] then [] else EntryBytes(entries[0]) + EntriesBytes(entries[1..])
  }

  function FileBytes(sha: Sha, entries: seq<IndexEntry>): Bytes
    requires |entries| < 0x1_0000_0000 && forall i | 0 <= i < |entries| :: WellFormed(entries[i])
  {
    FileOf(sha, |entries|, EntriesBytes(entries))
  }

  /** Magic, version, count, the entries' text, and the hash of all of it. */
  function FileOf(sha: Sha, count: Word, text: Bytes): Bytes {
    var body := DIRC + (Be32(2) + (Be32(count) + text));
    body + sha(body)
  }

  function ReadEntries(b: Bytes, count: nat): Option<(seq<IndexEntry>, Bytes)> {
    if count == 0 then Some(([], b)) else
    match ReadEntry(b)
    case None => None
    case Some(e) =>
      if e.1 != 0 then None else
      match ReadEntries(e.2, count - 1)
      case None => None
      case Some(r) => Some(([e.0] + r.0, r.1))
  }

  /** Magic, version, count, that many entries, and a trailer over all of it. */
  function ReadFile(sha: Sha, b: Bytes): Option<seq<IndexEntry>> {
    if |b| < 32 || b[..4] != DIRC || FromBe32(b[4..8]) != 2 then None else
    match ReadEntries(b[12..], FromBe32(b[8..12]))
    case None => None
    case Some(r) => if |r.1| == 20 && sha(b[..|b|-20]) == r.1 then Some(r.0) else None
  }

  lemma {:induction false} EntriesRoundTrip(entries: seq<IndexEntry>, rest: Bytes)
    requires forall i | 0 <= i < |entries| :: WellFormed(entries[i])
    ensures ReadEntries(EntriesBytes(entries) + rest, |entries|) == Some((entries, rest))
  {
    if entries == [] {
      assert EntriesBytes(entries) + rest == rest;
    } else {
      var tail := EntriesBytes(entries[1..]) + rest;
      EntriesRoundTrip(entries[1..], rest);
      EntryRoundTrip(entries[0], tail);
      Assoc(EntryBytes(entries[0]), EntriesBytes(entries[1..]), rest);
      assert entries == [entries[0]] + entries[1..];
    }
  }

  /** Any list of NUL-free paths comes back from the file, in the order written. */
  lemma FileRoundTrip(sha: Sha, entries: seq<IndexEntry>)
    requires |entries| < 0x1_0000_0000 && forall i | 0 <= i < |entries| :: WellFormed(entries[i])
    ensures ReadFile(sha, FileBytes(sha, entries)) == Some(entries)
  {
    var text := EntriesBytes(entries);
    var trailer := sha(DIRC + (Be32(2) + (Be32(|entries|) + text)));
    EntriesRoundTrip(entries, trailer);
    FileReads(sha, |entries|, text);
  }

  /** A file reads as its text and trailer do. */
  lemma FileReads(sha: Sha, count: Word, text: Bytes)
    ensures var trailer := sha(DIRC + (Be32(2) + (Be32(count) + text)));
      ReadFile(sha, FileOf(sha, count, text))
      == match ReadEntries(text + trailer, count)
         case None => None
         case Some(r) => if r.1 == trailer then Some(r.0) else None
  {
    FileLayout(count, text, sha(DIRC + (Be32(2) + (Be32(count) + text))));
  }

  lemma FileLayout(count: Word, text: Bytes, trailer: Oid)
    ensures var body := DIRC + (Be32(2) + (Be32(count) + text));
      var b := body + trailer;
      && |b| >= 32 && b[..4] == DIRC && FromBe32(b[4..8]) == 2 && FromBe32(b[8..12]) == count
      && b[12..] == text + trailer && b[..|b|-20] == body
  {
    var b := DIRC + (Be32(2) + (Be32(count) + text)) + trailer;
    assert b[4..8] == Be32(2) && b[8..12] == Be32(count);
  }

  function ByPath(): (IndexEntry, IndexEntry) -> bool {
    (a: IndexEntry, b: IndexEntry) => Leq(a.path, b.path)
  }

  lemma ByPathIsOrder()
    ensures TotalPreorder(ByPath())
  {
    LeqIsTotalOrder();
  }

  lemma {:induction false} EntriesSnoc(entries: seq<IndexEntry>, e: IndexEntry)
    requires (forall i | 0 <= i < |entries| :: WellFormed(entries[i])) && WellFormed(e)
    ensures EntriesBytes(entries + [e]) == EntriesBytes(entries) + EntryBytes(e)
  {
    if entries == [] {
      assert [e][1..] == [];
    } else {
      calc {
        EntriesBytes(entries + [e]);
        { assert (entries + [e])[1..] == entries[1..] + [e]; }
        EntryBytes(entries[0]) + EntriesBytes(entries[1..] + [e]);
        { EntriesSnoc(entries[1..], e); }
        EntryBytes(entries[0]) + (EntriesBytes(entries[1..]) + EntryBytes(e));
        { Assoc(EntryBytes(entries[0]), EntriesBytes(entries[1..]), EntryBytes(e)); }
        EntriesBytes(entries) + EntryBytes(e);
      }
    }
  }

  /** The loop over the listing. */
  method WriteEntries(entries: seq<IndexEntry>) returns (b: Bytes)
    requires forall i | 0 <= i < |entries| :: WellFormed(entries[i])
    ensures b == EntriesBytes(entries)
  {
    b := [];
    var i := 0;
    while i < |entries|
      invariant 0 <= i <= |entries| && b == EntriesBytes(entries[..i])
    {
      EntriesSnoc(entries[..i], entries[i]);
      assert entries[..i+1] == entries[..i] + [entries[i]];
      b := b + EntryBytes(entries[i]);
      i := i + 1;
    }
    assert entries[..i] == entries;
  }

  lemma SortedListing(listing: seq<IndexEntry>)
    requires forall i | 0 <= i < |listing| :: WellFormed(listing[i])
    ensures var ordered := Sort(listing, ByPath());
      && Sorted(ordered, ByPath()) && multiset(ordered) == multiset(listing) && |ordered| == |listing|
      && forall i | 0 <= i < |ordered| :: WellFormed(ordered[i])
  {
    var ordered := Sort(listing, ByPath());
    ByPathIsOrder();
    SortSorts(listing, ByPath());
    SortElements(listing, ByPath());
    forall i | 0 <= i < |ordered|
      ensures WellFormed(ordered[i])
    {
      assert ordered[i] in listing;
    }
  }

  /** Sorts the listing by path and writes it; what a reader gets back is that sorted
      listing. */
  method WriteIndex(sha: Sha, listing: seq<IndexEntry>) returns (b: Bytes, ordered: seq<IndexEntry>)
    requires |listing| < 0x1_0000_0000 && forall i | 0 <= i < |listing| :: WellFormed(listing[i])
    ensures forall i, j | 0 <= i < j < |ordered| :: Leq(ordered[i].path, ordered[j].path)
    ensures multiset(ordered) == multiset(listing) && |ordered| == |listing|
    ensures forall i | 0 <= i < |ordered| :: WellFormed(ordered[i])
    ensures b == FileBytes(sha, ordered) && ReadFile(sha, b) == Some(ordered)
    ensures |b| >= 32 && b[..4] == [68, 73, 82, 67] && b[|b|-20..] == sha(b[..|b|-20])
    ensures FromBe32(b[4..8]) == 2 && FromBe32(b[8..12]) == |listing|
  {
    ordered := Sort(listing, ByPath());
    SortedListing(listing);
    forall i, j | 0 <= i < j < |ordered|
      ensures Leq(ordered[i].path, ordered[j].path)
    {
      assert ByPath()(ordered[i], ordered[j]);
    }
    var entries := WriteEntries(ordered);
    b := DIRC + (Be32(2) + (Be32(|ordered|) + entries));
    b := b + sha(b);
    assert b == FileOf(sha, |ordered|, entries);
    FileLayout(|ordered|, entries, sha(DIRC + (Be32(2) + (Be32(|ordered|) + entries))));
    FileRoundTrip(sha, ordered);
  }

  // ---- The other writer ------------------------------------------------------------------

  /** Every length fits the two bytes of the flags. */
  predicate Packable(entries: seq<IndexEntry>) {
    forall i | 0 <= i < |entries| :: |entries[i].path| <= 0xffff
  }

  predicate Short(entries: seq<IndexEntry>) {
    forall i | 0 <= i < |entries| :: |entries[i].path| <= 0xfff
  }

  function HistoricalText(entries: seq<IndexEntry>): Bytes
    requires (forall i | 0 <= i < |entries| :: WellFormed(entries[i])) && Packable(entries)
  {
    if entries == [] then [] else Historical(entries[0]).value + HistoricalText(entries[1..])
  }

  lemma {:induction false} HistoricalSnoc(entries: seq<IndexEntry>, e: IndexEntry)
    requires (forall i | 0 <= i < |entries| :: WellFormed(entries[i])) && WellFormed(e)
    requires Packable(entries) && |e.path| <= 0xffff
    ensures HistoricalText(entries + [e]) == HistoricalText(entries) + Historical(e).value
  {
    if entries == [] {
      assert [e][1..] == [];
    } else {
      HistoricalSnoc(entries[1..], e);
      assert (entries + [e])[1..] == entries[1..] + [e];
      Assoc(Historical(entries[0]).value, HistoricalText(entries[1..]), Historical(e).value);
    }
  }

  /** A length past 0xfff runs into the flag bits, which a reader refuses. */
  lemma LongIsRefused(e: IndexEntry, rest: Bytes, count: nat)
    requires WellFormed(e) && 0xfff < |e.path| <= 0xffff && count > 0
    ensures ReadEntries(Historical(e).value + rest, count) == None
  {
    var b := Historical(e).value + rest;
    assert b[60..62] == Be16(|e.path|);
  }

  lemma {:induction false} HistoricalReads(entries: seq<IndexEntry>, rest: Bytes)
    requires (forall i | 0 <= i < |entries| :: WellFormed(entries[i])) && Packable(entries)
    ensures ReadEntries(HistoricalText(entries) + rest, |entries|)
         == if Short(entries) then Some((entries, rest)) else None
  {
    if entries == [] {
      assert HistoricalText(entries) + rest == rest;
    } else {
      HistoricalReads(entries[1..], rest);
      FirstReads(entries[0], HistoricalText(entries[1..]), rest, |entries| - 1);
      ShortCons(entries);
      assert entries == [entries[0]] + entries[1..];
    }
  }

  /** One entry in front of the text of others. */
  lemma FirstReads(e: IndexEntry, text: Bytes, rest: Bytes, count: nat)
    requires WellFormed(e) && |e.path| <= 0xffff
    ensures ReadEntries(Historical(e).value + text + rest, count + 1)
         == if |e.path| > 0xfff then None
            else match ReadEntries(text + rest, count)
              case None => None
              case Some(r) => Some(([e] + r.0, r.1))
  {
    Assoc(Historical(e).value, text, rest);
    if |e.path| <= 0xfff {
      HistoricalRoundTrip(e, text + rest);
      ReadNext(Historical(e).value, e, text + rest, count);
    } else {
      LongIsRefused(e, text + rest, count + 1);
    }
  }

  lemma ReadNext(text: Bytes, e: IndexEntry, rest: Bytes, count: nat)
    requires ReadEntry(text + rest) == Some((e, 0, rest))
    ensures ReadEntries(text + rest, count + 1)
         == match ReadEntries(rest, count)
            case None => None
            case Some(r) => Some(([e] + r.0, r.1))
  {}

  lemma ShortCons(entries: seq<IndexEntry>)
    requires entries != []
    ensures Short(entries) <==> |entries[0].path| <= 0xfff && Short(entries[1..])
  {
    assert entries == [entries[0]] + entries[1..];
  }

  /** What the other writer's file reads as: its entries in the order written, if and only if
      no path is longer than 0xfff. */
  lemma HistoricalFileReads(sha: Sha, entries: seq<IndexEntry>)
    requires |entries| < 0x1_0000_0000 && Packable(entries)
    requires forall i | 0 <= i < |entries| :: WellFormed(entries[i])
    ensures ReadFile(sha, FileOf(sha, |entries|, HistoricalText(entries)))
         == if Short(entries) then Some(entries) else None
  {
    var text := HistoricalText(entries);
    FileReads(sha, |entries|, text);
    HistoricalReads(entries, sha(DIRC + (Be32(2) + (Be32(|entries|) + text))));
  }

  /** The writer of the padding-loop form, in the order given; a path past 0xffff is refused. */
  method WriteHistorical(sha: Sha, entries: seq<IndexEntry>) returns (b: Option<Bytes>)
    requires |entries| < 0x1_0000_0000 && forall i | 0 <= i < |entries| :: WellFormed(entries[i])
    ensures b == if Packable(entries) then Some(FileOf(sha, |entries|, HistoricalText(entries))) else None
  {
    var text, i := [], 0;
    while i < |entries|
      invariant 0 <= i <= |entries| && Packable(entries[..i]) && text == HistoricalText(entries[..i])
    {
      var e := HistoricalEntry(entries[i]);
      if e.None? {
        return None;
      }
      HistoricalSnoc(entries[..i], entries[i]);
      assert entries[..i+1] == entries[..i] + [entries[i]];
      text := text + e.value;
      i := i + 1;
    }
    assert entries[..i] == entries;
    var body := DIRC + (Be32(2) + (Be32(|entries|) + text));
    b := Some(body + sha(body));
  }
}

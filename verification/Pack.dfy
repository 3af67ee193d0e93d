/** The pack v2 builder and its index: entry prefixes, offsets, the sorted id,
    checksum and offset columns, the fanout table, and a reader that looks an id up. */
module Pack {
  import opened ByteStrings
  import opened GitObjects
  import opened Sorting

  // ---- The type and size in front of an entry --------------------------------------

  const OBJ_BLOB := 3

  /** Seven bits a byte, least significant group first, high bit set on all but the last. */
  function Groups(size: nat): Bytes {
    if size == 0 then []
    else [size % 128 + (if size / 128 > 0 then 128 else 0)] + Groups(size / 128)
  }

  function Prefix(size: nat): Bytes {
    [OBJ_BLOB * 16 + size % 16 + (if size / 16 > 0 then 128 else 0)] + Groups(size / 16)
  }

  /** The builder's loop over the remaining size. */
  method WritePrefix(length: nat) returns (head: Bytes)
    ensures head == Prefix(length)
  {
    var size: nat := length / 16;
    head := [OBJ_BLOB * 16 + length % 16 + (if size > 0 then 128 else 0)];
    ghost var first := head;
    while size > 0
      invariant first + Groups(length / 16) == head + Groups(size)
    {
      ghost var before := head;
      head := head + [size % 128 + (if size / 128 > 0 then 128 else 0)];
      assert Groups(size) == [head[|before|]] + Groups(size / 128);
      Assoc(before, [head[|before|]], Groups(size / 128));
      size := size / 128;
    }
  }

  /** Reads continuation groups: their value and the bytes after them. */
  function ReadGroups(b: Bytes): Option<(nat, Bytes)> {
    if b == [] then None
    else if b[0] < 128 then Some((b[0], b[1..]))
    else match ReadGroups(b[1..])
      case None => None
      case Some(r) => Some((b[0] - 128 + 128 * r.0, r.1))
  }

  /** Reads an entry's type and size: (type, size, remaining bytes). */
  function ReadPrefix(b: Bytes): Option<(nat, nat, Bytes)> {
    if b == [] then None
    else if b[0] < 128 then Some((b[0] / 16, b[0] % 16, b[1..]))
    else match ReadGroups(b[1..])
      case None => None
      case Some(r) => Some(((b[0] - 128) / 16, b[0] % 16 + 16 * r.0, r.1))
  }

  lemma {:induction false} GroupsRoundTrip(size: nat, rest: Bytes)
    requires size > 0
    ensures ReadGroups(Groups(size) + rest) == Some((size, rest))
  {
    var b := Groups(size) + rest;
    if size / 128 > 0 {
      GroupsRoundTrip(size / 128, rest);
      assert b[1..] == Groups(size / 128) + rest;
    } else {
      assert b[1..] == rest;
    }
  }

  /** For every length, the prefix decodes to a blob of that length and nothing after
      the prefix is consumed. */
  lemma PrefixRoundTrip(size: nat, rest: Bytes)
    ensures ReadPrefix(Prefix(size) + rest) == Some((3, size, rest))
  {
    var b := Prefix(size) + rest;
    assert b[1..] == Groups(size / 16) + rest;
    if size / 16 > 0 {
      GroupsRoundTrip(size / 16, rest);
    }
  }

  // ---- Entries and their offsets ----------------------------------------------------

  datatype PackEntry = PackEntry(id: Oid, offset: nat, crc: Word)

  /** The hash, compressor and checksum the builder calls, and the decompressor of a reader:
      the payload in front of some bytes, and the bytes after it. */
  datatype Library = Library(sha: Sha, deflate: Bytes -> Bytes, inflate: Bytes -> Option<(Bytes, Bytes)>,
                             crc32: Bytes -> Word)

  function BlobId(lib: Library, payload: Bytes): Oid {
    lib.sha(Record(BLOB, payload))
  }

  function EntryData(lib: Library, payload: Bytes): Bytes {
    Prefix(|payload|) + lib.deflate(payload)
  }

  function Chunks(lib: Library, blobs: seq<Bytes>): (c: seq<Bytes>)
    ensures |c| == |blobs|
  {
    seq(|blobs|, i requires 0 <= i < |blobs| => EntryData(lib, blobs[i]))
  }

  /** Where entry i starts: past the header and everything before it. */
  function Offset(lib: Library, blobs: seq<Bytes>, i: nat): nat
    requires i <= |blobs|
  {
    12 + |Concat(Chunks(lib, blobs[..i]))|
  }

  function Entries(lib: Library, blobs: seq<Bytes>): (e: seq<PackEntry>)
    ensures |e| == |blobs|
  {
    seq(|blobs|, i requires 0 <= i < |blobs| =>
      PackEntry(BlobId(lib, blobs[i]), Offset(lib, blobs, i), lib.crc32(EntryData(lib, blobs[i]))))
  }

  const PACK_MAGIC: Bytes := [80, 65, 67, 75]

  function PackHeader(count: Word): (h: Bytes)
    ensures |h| == 12
  {
    PACK_MAGIC + Be32(2) + Be32(count)
  }

  lemma HeaderReads(count: Word, rest: Bytes)
    ensures var b := PackHeader(count) + rest;
      b[..4] == [80, 65, 67, 75] && FromBe32(b[4..8]) == 2 && FromBe32(b[8..12]) == count && b[12..] == rest
  {
    var b := PackHeader(count) + rest;
    assert b[4..8] == Be32(2) && b[8..12] == Be32(count);
  }

  function PackBytes(lib: Library, blobs: seq<Bytes>): Bytes
    requires |blobs| < 0x1_0000_0000
  {
    var body := PackHeader(|blobs|) + Concat(Chunks(lib, blobs));
    body + lib.sha(body)
  }

  lemma ChunksPrefix(lib: Library, blobs: seq<Bytes>, i: nat)
    requires i <= |blobs|
    ensures Chunks(lib, blobs[..i]) == Chunks(lib, blobs)[..i]
  {}

  lemma OffsetNext(lib: Library, blobs: seq<Bytes>, i: nat)
    requires i < |blobs|
    ensures Offset(lib, blobs, i + 1) == Offset(lib, blobs, i) + |EntryData(lib, blobs[i])|
  {
    assert Chunks(lib, blobs[..i+1]) == Chunks(lib, blobs[..i]) + [EntryData(lib, blobs[i])];
    ConcatSnoc(Chunks(lib, blobs[..i]), EntryData(lib, blobs[i]));
  }

  lemma SplitConcat(parts: seq<Bytes>, i: nat)
    requires i < |parts|
    ensures Concat(parts) == Concat(parts[..i]) + (parts[i] + Concat(parts[i+1..]))
  {
    assert parts == parts[..i] + parts[i..];
    ConcatAppend(parts[..i], parts[i..]);
    assert parts[i..][1..] == parts[i+1..];
  }

  lemma Regroup(header: Bytes, before: Bytes, data: Bytes, after: Bytes, trailer: Bytes)
    ensures header + (before + (data + after)) + trailer == (header + before) + (data + (after + trailer))
  {
    Assoc(data, after, trailer);
    Assoc(before, data + after, trailer);
    Assoc(header, before + (data + after), trailer);
    Assoc(header, before, data + (after + trailer));
  }

  lemma DropPrefix(a: Bytes, b: Bytes)
    ensures (a + b)[|a|..] == b
  {}

  /** Every offset is where that entry's bytes start, and reading there gives a blob of
      the right length followed by its compressed payload. */
  lemma EntryStartsAtOffset(lib: Library, blobs: seq<Bytes>, i: nat) returns (rest: Bytes)
    requires |blobs| < 0x1_0000_0000 && i < |blobs|
    ensures Offset(lib, blobs, i) <= |PackBytes(lib, blobs)|
    ensures PackBytes(lib, blobs)[Offset(lib, blobs, i)..] == EntryData(lib, blobs[i]) + rest
    ensures ReadPrefix(PackBytes(lib, blobs)[Offset(lib, blobs, i)..])
         == Some((3, |blobs[i]|, lib.deflate(blobs[i]) + rest))
  {
    var header, chunks := PackHeader(|blobs|), Chunks(lib, blobs);
    var before, after := Concat(chunks[..i]), Concat(chunks[i+1..]);
    var trailer := lib.sha(header + Concat(chunks));
    var data := EntryData(lib, blobs[i]);
    rest := after + trailer;
    SplitConcat(chunks, i);
    ChunksPrefix(lib, blobs, i);
    Regroup(header, before, data, after, trailer);
    DropPrefix(header + before, data + rest);
    Assoc(Prefix(|blobs[i]|), lib.deflate(blobs[i]), rest);
    PrefixRoundTrip(|blobs[i]|, lib.deflate(blobs[i]) + rest);
  }

  /** The builder's first loop: entries, their bytes and the running offset. */
  method WriteEntries(lib: Library, blobs: seq<Bytes>) returns (entries: seq<PackEntry>, chunks: seq<Bytes>)
    ensures entries == Entries(lib, blobs) && chunks == Chunks(lib, blobs)
  {
    entries, chunks := [], [];
    var offset, i := 12, 0;
    assert Chunks(lib, blobs[..0]) == [];
    while i < |blobs|
      invariant 0 <= i <= |blobs| && offset == Offset(lib, blobs, i)
      invariant entries == Entries(lib, blobs)[..i] && chunks == Chunks(lib, blobs)[..i]
    {
      var head := WritePrefix(|blobs[i]|);
      var data := head + lib.deflate(blobs[i]);
      OffsetNext(lib, blobs, i);
      entries := entries + [PackEntry(lib.sha(Record(BLOB, blobs[i])), offset, lib.crc32(data))];
      chunks := chunks + [data];
      offset := offset + |data|;
      i := i + 1;
    }
  }

  // ---- The fanout table ---------------------------------------------------------------

  function CountByte(ids: seq<Oid>, b: int): nat {
    if ids == [] then 0
    else CountByte(ids[..|ids|-1], b) + (if ids[|ids|-1][0] == b then 1 else 0)
  }

  /** How many ids start with a byte of at most b. */
  function CountAtMost(ids: seq<Oid>, b: int): (k: nat)
    ensures k <= |ids|
  {
    if ids == [] then 0
    else CountAtMost(ids[..|ids|-1], b) + (if ids[|ids|-1][0] <= b then 1 else 0)
  }

  lemma {:induction false} CountStep(ids: seq<Oid>, b: int)
    ensures CountAtMost(ids, b) == CountAtMost(ids, b - 1) + CountByte(ids, b)
    ensures CountAtMost(ids, -1) == 0
    ensures CountAtMost(ids, 255) == |ids|
  {
    if ids != [] {
      CountStep(ids[..|ids|-1], b);
    }
  }

  predicate IdLeq(a: Oid, b: Oid) {
    Leq(a, b)
  }

  ghost predicate SortedIds(ids: seq<Oid>) {
    forall i, j | 0 <= i < j < |ids| :: IdLeq(ids[i], ids[j])
  }

  lemma LeqFirstByte(a: Oid, b: Oid)
    requires IdLeq(a, b)
    ensures a[0] <= b[0]
  {}

  /** In a sorted list the ids of bucket b and below are exactly the first ones. */
  lemma {:induction false} BucketIsPrefix(ids: seq<Oid>, b: int, i: nat)
    requires SortedIds(ids) && i < |ids|
    ensures ids[i][0] <= b <==> i < CountAtMost(ids, b)
  {
    var n := |ids| - 1;
    if ids[n][0] <= b {
      CountAllAtMost(ids, b);
      if i < n {
        LeqFirstByte(ids[i], ids[n]);
      }
    } else if i < n {
      BucketIsPrefix(ids[..n], b, i);
    }
  }

  lemma {:induction false} CountAllAtMost(ids: seq<Oid>, b: int)
    requires SortedIds(ids) && ids != [] && ids[|ids|-1][0] <= b
    ensures CountAtMost(ids, b) == |ids|
  {
    var n := |ids| - 1;
    if n > 0 {
      LeqFirstByte(ids[n-1], ids[n]);
      CountAllAtMost(ids[..n], b);
    }
  }

  function Fanout(ids: seq<Oid>): (f: seq<nat>)
    ensures |f| == 256
  {
    seq(256, b requires 0 <= b < 256 => CountAtMost(ids, b))
  }

  /** Counts first bytes, then accumulates the counts. */
  method CountFanout(ids: seq<Oid>) returns (cumulative: seq<nat>)
    ensures cumulative == Fanout(ids)
  {
    var counts := new nat[256](_ => 0);
    var i := 0;
    while i < |ids|
      invariant 0 <= i <= |ids|
      invariant forall b | 0 <= b < 256 :: counts[b] == CountByte(ids[..i], b)
    {
      assert ids[..i+1][..i] == ids[..i];
      counts[ids[i][0]] := counts[ids[i][0]] + 1;
      i := i + 1;
    }
    assert ids[..i] == ids;
    cumulative := [];
    var total, c := 0, 0;
    CountStep(ids, 0);
    while c < 256
      invariant 0 <= c <= 256 && total == CountAtMost(ids, c - 1)
      invariant forall b | 0 <= b < 256 :: counts[b] == CountByte(ids, b)
      invariant cumulative == Fanout(ids)[..c]
    {
      CountStep(ids, c);
      total := total + counts[c];
      cumulative := cumulative + [total];
      c := c + 1;
    }
  }

  // ---- The index file -----------------------------------------------------------------

  /** The decoded columns of an index. */
  datatype Index = Index(fanout: seq<nat>, ids: seq<Oid>, crcs: seq<nat>, offsets: seq<nat>)

  const IDX_MAGIC: Bytes := [255, 116, 79, 99]

  function IdBytes(ids: seq<Oid>): Bytes {
    if ids == [] then [] else ids[0] + IdBytes(ids[1..])
  }

  /** The index of sorted entries; None where struct.pack would refuse an offset. */
  function IndexBytes(lib: Library, entries: seq<PackEntry>, packTrailer: Oid): Option<Bytes> {
    var ids := Ids(entries);
    if |entries| >= 0x1_0000_0000 || !Words(Offsets(entries)) then None else
    var body := IDX_MAGIC + (Be32(2) + (WordBytes(Fanout(ids)) + (IdBytes(ids)
              + (WordBytes(Crcs(entries)) + (WordBytes(Offsets(entries)) + packTrailer)))));
    Some(body + lib.sha(body))
  }

  function Ids(entries: seq<PackEntry>): (s: seq<Oid>)
    ensures |s| == |entries|
  {
    seq(|entries|, i requires 0 <= i < |entries| => entries[i].id)
  }

  function Crcs(entries: seq<PackEntry>): (s: seq<nat>)
    ensures |s| == |entries| && Words(s)
  {
    seq(|entries|, i requires 0 <= i < |entries| => entries[i].crc)
  }

  function Offsets(entries: seq<PackEntry>): (s: seq<nat>)
    ensures |s| == |entries|
  {
    seq(|entries|, i requires 0 <= i < |entries| => entries[i].offset)
  }

  /** The columns of a list of entries. */
  function Columns(entries: seq<PackEntry>): (x: Index)
    ensures |x.fanout| == 256 && |x.offsets| == |x.ids| == |entries|
    ensures forall b | 0 <= b < 256 :: x.fanout[b] <= |x.ids|
  {
    Index(Fanout(Ids(entries)), Ids(entries), Crcs(entries), Offsets(entries))
  }

  function ReadIds(b: Bytes, count: nat): (r: Option<(seq<Oid>, Bytes)>)
    ensures r.Some? ==> |r.value.0| == count
  {
    if count == 0 then Some(([], b))
    else if |b| < 20 then None
    else match ReadIds(b[20..], count - 1)
      case None => None
      case Some(r) => Some(([b[..20]] + r.0, r.1))
  }

  /** Reads an index file: magic, version, fanout, then as many ids, checksums and
      offsets as the last fanout word says, a pack hash and the hash of all before it. */
  function ReadIndex(lib: Library, b: Bytes): Option<Index> {
    if |b| < 8 || b[..4] != IDX_MAGIC || FromBe32(b[4..8]) != 2 then None else
    match ReadWords(b[8..], 256)
    case None => None
    case Some(f) =>
      match ReadIds(f.1, f.0[255])
      case None => None
      case Some(i) =>
        match ReadWords(i.1, f.0[255])
        case None => None
        case Some(c) =>
          match ReadWords(c.1, f.0[255])
          case None => None
          case Some(o) =>
            if |o.1| == 40 && Sealed(lib, b) then Some(Index(f.0, i.0, c.0, o.0)) else None
  }

  /** The last twenty bytes are the hash of all the others. */
  predicate Sealed(lib: Library, b: Bytes) {
    |b| >= 20 && b[|b|-20..] == lib.sha(b[..|b|-20])
  }

  lemma {:induction false} IdsRoundTrip(ids: seq<Oid>, rest: Bytes)
    ensures ReadIds(IdBytes(ids) + rest, |ids|) == Some((ids, rest))
  {
    if ids == [] {
      assert IdBytes(ids) + rest == rest;
    } else {
      var b := IdBytes(ids) + rest;
      IdsRoundTrip(ids[1..], rest);
      Assoc(ids[0], IdBytes(ids[1..]), rest);
      assert ids == [ids[0]] + ids[1..];
      assert b[..20] == ids[0] && b[20..] == IdBytes(ids[1..]) + rest;
    }
  }

  lemma IndexLayout(fanout: Bytes, ids: Bytes, crcs: Bytes, offsets: Bytes, trailer: Bytes, hash: Bytes)
    ensures var b := IDX_MAGIC + (Be32(2) + (fanout + (ids + (crcs + (offsets + trailer))))) + hash;
      && |b| >= 8 && b[..4] == IDX_MAGIC && FromBe32(b[4..8]) == 2
      && b[8..] == fanout + (ids + (crcs + (offsets + (trailer + hash))))
  {
    var front := IDX_MAGIC + Be32(2);
    var t3, t2 := crcs + (offsets + trailer), ids + (crcs + (offsets + trailer));
    var b := IDX_MAGIC + (Be32(2) + (fanout + t2)) + hash;
    Assoc(offsets, trailer, hash);
    Assoc(crcs, offsets + trailer, hash);
    Assoc(ids, t3, hash);
    Assoc(fanout, t2, hash);
    Assoc(IDX_MAGIC, Be32(2), fanout + t2);
    Assoc(front, fanout + t2, hash);
    FrontOf(IDX_MAGIC, Be32(2), fanout + t2 + hash);
  }

  lemma FrontOf(a: Bytes, b: Bytes, rest: Bytes)
    requires |a| == 4 && |b| == 4
    ensures var s := a + b + rest;
      s[..4] == a && s[4..8] == b && s[8..] == rest
  {}

  lemma ReadIndexFrom(lib: Library, b: Bytes, x: Index, t1: Bytes, t2: Bytes, t3: Bytes, t4: Bytes, t5: Bytes)
    requires |b| >= 8 && b[..4] == IDX_MAGIC && FromBe32(b[4..8]) == 2 && b[8..] == t1
    requires |x.fanout| == 256 && ReadWords(t1, 256) == Some((x.fanout, t2))
    requires ReadIds(t2, x.fanout[255]) == Some((x.ids, t3))
    requires ReadWords(t3, x.fanout[255]) == Some((x.crcs, t4)) && ReadWords(t4, x.fanout[255]) == Some((x.offsets, t5))
    requires |t5| == 40 && Sealed(lib, b)
    ensures ReadIndex(lib, b) == Some(x)
  {}

  /** Reading an index back gives the columns of the entries, still aligned. */
  lemma IndexRoundTrip(lib: Library, entries: seq<PackEntry>, packTrailer: Oid)
    requires IndexBytes(lib, entries, packTrailer).Some?
    ensures ReadIndex(lib, IndexBytes(lib, entries, packTrailer).value) == Some(Columns(entries))
  {
    var b, x := IndexBytes(lib, entries, packTrailer).value, Columns(entries);
    var hash := b[|b|-20..];
    CountStep(x.ids, 255);
    assert Words(x.fanout);
    var fanout, ids := WordBytes(x.fanout), IdBytes(x.ids);
    var crcs, offsets := WordBytes(x.crcs), WordBytes(x.offsets);
    IndexHash(lib, entries, packTrailer);
    IndexLayout(fanout, ids, crcs, offsets, packTrailer, hash);
    var t5 := packTrailer + hash;
    var t4 := offsets + t5;
    var t3 := crcs + t4;
    var t2 := ids + t3;
    WordsRoundTrip(x.fanout, t2);
    IdsRoundTrip(x.ids, t3);
    WordsRoundTrip(x.crcs, t4);
    WordsRoundTrip(x.offsets, t5);
    ReadIndexFrom(lib, b, x, fanout + t2, t2, t3, t4, t5);
  }

  lemma IndexHash(lib: Library, entries: seq<PackEntry>, packTrailer: Oid)
    requires IndexBytes(lib, entries, packTrailer).Some?
    ensures var b, x := IndexBytes(lib, entries, packTrailer).value, Columns(entries);
      && Sealed(lib, b) && Words(x.fanout) && Words(x.crcs) && Words(x.offsets)
      && b == IDX_MAGIC + (Be32(2) + (WordBytes(x.fanout) + (IdBytes(x.ids)
              + (WordBytes(x.crcs) + (WordBytes(x.offsets) + packTrailer))))) + b[|b|-20..]
  {
    var x := Columns(entries);
    var body := IDX_MAGIC + (Be32(2) + (WordBytes(x.fanout) + (IdBytes(x.ids)
              + (WordBytes(x.crcs) + (WordBytes(x.offsets) + packTrailer)))));
    SealSeals(lib, body);
  }

  lemma SealSeals(lib: Library, body: Bytes)
    ensures var b := body + lib.sha(body);
      Sealed(lib, b) && b[..|b|-20] == body && b[|b|-20..] == lib.sha(body)
  {}

  lemma EndsStill(front: Bytes, s: Bytes, end: Oid)
    requires |s| >= 20 && s[|s|-20..] == end
    ensures |front + s| >= 20 && (front + s)[|front + s|-20..] == end
  {}

  lemma TrailerLast(magic: Bytes, version: Bytes, fanout: Bytes, ids: Bytes, crcs: Bytes, offsets: Bytes,
                    trailer: Oid, hash: Oid)
    ensures var b := magic + (version + (fanout + (ids + (crcs + (offsets + trailer))))) + hash;
      |b| >= 40 && b[|b|-40..|b|-20] == trailer
  {
    var t4 := offsets + trailer;
    var t3 := crcs + t4;
    var t2 := ids + t3;
    var t1 := fanout + t2;
    EndsStill(crcs, t4, trailer);
    EndsStill(ids, t3, trailer);
    EndsStill(fanout, t2, trailer);
    EndsStill(version, t1, trailer);
    EndsStill(magic, version + t1, trailer);
    BeforeHash(magic + (version + t1), trailer, hash);
  }

  lemma BeforeHash(body: Bytes, trailer: Oid, hash: Oid)
    requires |body| >= 20 && body[|body|-20..] == trailer
    ensures var b := body + hash;
      |b| >= 40 && b[|b|-40..|b|-20] == trailer
  {}

  lemma IndexNamesPack(lib: Library, entries: seq<PackEntry>, packTrailer: Oid)
    requires IndexBytes(lib, entries, packTrailer).Some?
    ensures var b := IndexBytes(lib, entries, packTrailer).value;
      |b| >= 40 && b[|b|-40..|b|-20] == packTrailer
  {
    var b, x := IndexBytes(lib, entries, packTrailer).value, Columns(entries);
    IndexHash(lib, entries, packTrailer);
    TrailerLast(IDX_MAGIC, Be32(2), WordBytes(x.fanout), IdBytes(x.ids), WordBytes(x.crcs),
                WordBytes(x.offsets), packTrailer, b[|b|-20..]);
  }

  lemma {:induction false} IdBytesLength(ids: seq<Oid>)
    ensures |IdBytes(ids)| == 20 * |ids|
  {
    if ids != [] {
      IdBytesLength(ids[1..]);
    }
  }

  lemma {:induction false} IdAt(ids: seq<Oid>, k: nat)
    requires k < |ids|
    ensures Has(IdBytes(ids), 20 * k, ids[k])
  {
    if k > 0 {
      IdAt(ids[1..], k - 1);
      HasAfter(ids[0], IdBytes(ids[1..]), 20 * (k - 1), ids[k]);
    }
  }

  /** Four parts one after the other, from `at` on. */
  lemma PartsAt(b: Bytes, at: nat, p1: Bytes, p2: Bytes, p3: Bytes, p4: Bytes, rest: Bytes)
    requires at <= |b| && b[at..] == p1 + (p2 + (p3 + (p4 + rest)))
    ensures |b| == at + |p1| + |p2| + |p3| + |p4| + |rest|
    ensures Has(b, at, p1) && Has(b, at + |p1|, p2) && Has(b, at + |p1| + |p2|, p3)
    ensures Has(b, at + |p1| + |p2| + |p3|, p4)
  {
    DropMore(b, at, p1, p2 + (p3 + (p4 + rest)));
    DropMore(b, at + |p1|, p2, p3 + (p4 + rest));
    DropMore(b, at + |p1| + |p2|, p3, p4 + rest);
    DropMore(b, at + |p1| + |p2| + |p3|, p4, rest);
  }

  lemma DropMore(b: Bytes, at: nat, front: Bytes, rest: Bytes)
    requires at <= |b| && b[at..] == front + rest
    ensures |b| == at + |front| + |rest| && b[at + |front|..] == rest && Has(b, at, front)
  {
    assert b[at + |front|..] == b[at..][|front|..];
    assert b[at..at + |front|] == b[at..][..|front|];
  }

  /** An index of n entries starts with its magic and version; its columns start at 8, 1032,
      1032 + 20n and 1032 + 24n, and forty bytes follow them. */
  ghost predicate LaidOut(b: Bytes, x: Index) {
    var n := |x.ids|;
    && |b| == 1072 + 28 * n && Has(b, 0, [255, 116, 79, 99, 0, 0, 0, 2])
    && |x.fanout| == 256 && |x.crcs| == |x.offsets| == n && Words(x.fanout) && Words(x.crcs) && Words(x.offsets)
    && Has(b, 8, WordBytes(x.fanout)) && Has(b, 1032, IdBytes(x.ids))
    && Has(b, 1032 + 20 * n, WordBytes(x.crcs)) && Has(b, 1032 + 24 * n, WordBytes(x.offsets))
  }

  lemma IndexIsLaidOut(lib: Library, entries: seq<PackEntry>, packTrailer: Oid)
    requires IndexBytes(lib, entries, packTrailer).Some?
    ensures LaidOut(IndexBytes(lib, entries, packTrailer).value, Columns(entries))
  {
    var b, x := IndexBytes(lib, entries, packTrailer).value, Columns(entries);
    IndexHash(lib, entries, packTrailer);
    var hash := b[|b|-20..];
    var fanout, ids := WordBytes(x.fanout), IdBytes(x.ids);
    var crcs, offsets := WordBytes(x.crcs), WordBytes(x.offsets);
    IndexLayout(fanout, ids, crcs, offsets, packTrailer, hash);
    IdBytesLength(x.ids);
    PartsAt(b, 8, fanout, ids, crcs, offsets, packTrailer + hash);
    MagicAndVersion(b);
  }

  lemma MagicAndVersion(b: Bytes)
    requires |b| >= 8 && b[..4] == IDX_MAGIC && FromBe32(b[4..8]) == 2
    ensures Has(b, 0, [255, 116, 79, 99, 0, 0, 0, 2])
  {
    BigEndian(b[4..8]);
    assert b[..8] == b[..4] + b[4..8];
  }

  lemma InColumns(b: Bytes, n: nat, k: nat, ids: Bytes, crcs: Bytes, offsets: Bytes,
                  id: Bytes, crc: Bytes, offset: Bytes)
    requires Has(b, 1032, ids) && Has(b, 1032 + 20 * n, crcs) && Has(b, 1032 + 24 * n, offsets)
    requires Has(ids, 20 * k, id) && Has(crcs, 4 * k, crc) && Has(offsets, 4 * k, offset)
    ensures Has(b, 1032 + 20 * k, id)
    ensures Has(b, 1032 + 20 * n + 4 * k, crc) && Has(b, 1032 + 24 * n + 4 * k, offset)
  {
    HasWithin(b, 1032, ids, 20 * k, id);
    HasWithin(b, 1032 + 20 * n, crcs, 4 * k, crc);
    HasWithin(b, 1032 + 24 * n, offsets, 4 * k, offset);
  }

  /** In an index so laid out, row k of n has its id at 1032 + 20k, its checksum at
      1032 + 20n + 4k and its offset at 1032 + 24n + 4k. */
  lemma RowAt(b: Bytes, n: nat, ids: seq<Oid>, crcs: seq<nat>, offsets: seq<nat>, k: nat)
    requires k < |ids| == |crcs| == |offsets| && Words(crcs) && Words(offsets)
    requires Has(b, 1032, IdBytes(ids)) && Has(b, 1032 + 20 * n, WordBytes(crcs))
    requires Has(b, 1032 + 24 * n, WordBytes(offsets))
    ensures Has(b, 1032 + 20 * k, ids[k])
    ensures Has(b, 1032 + 20 * n + 4 * k, Be32(crcs[k])) && Has(b, 1032 + 24 * n + 4 * k, Be32(offsets[k]))
  {
    IdAt(ids, k);
    WordAt(crcs, k);
    WordAt(offsets, k);
    InColumns(b, n, k, IdBytes(ids), WordBytes(crcs), WordBytes(offsets), ids[k], Be32(crcs[k]), Be32(offsets[k]));
  }

  /** The fanout word of byte v is at 8 + 4v. */
  lemma FanoutAt(b: Bytes, x: Index, v: byte)
    requires LaidOut(b, x)
    ensures Has(b, 8 + 4 * v, Be32(x.fanout[v]))
  {
    WordAt(x.fanout, v);
    HasWithin(b, 8, WordBytes(x.fanout), 4 * v, Be32(x.fanout[v]));
  }

  // ---- Looking an id up ---------------------------------------------------------------

  datatype Lookup = Missing | At(offset: nat) | Large(slot: nat)

  /** The format reads a word with the top bit set as a slot of the 64-bit table. */
  function OffsetWord(w: nat): Lookup {
    if w < 0x8000_0000 then At(w) else Large(w - 0x8000_0000)
  }

  function Search(ids: seq<Oid>, id: Oid, lo: nat, hi: nat): Option<nat>
    requires hi <= |ids|
    decreases hi - lo
  {
    if lo >= hi then None else
    var mid := (lo + hi) / 2;
    if ids[mid] == id then Some(mid)
    else if Less(ids[mid], id) then Search(ids, id, mid + 1, hi)
    else Search(ids, id, lo, mid)
  }

  /** Fanout, then binary search in the bucket. */
  function Find(x: Index, id: Oid): Lookup
    requires |x.fanout| == 256 && |x.offsets| == |x.ids|
    requires forall b | 0 <= b < 256 :: x.fanout[b] <= |x.ids|
  {
    var b := id[0];
    var lo := if b == 0 then 0 else x.fanout[b-1];
    match Search(x.ids, id, lo, x.fanout[b])
    case None => Missing
    case Some(i) => if i < |x.offsets| then OffsetWord(x.offsets[i]) else Missing
  }

  lemma {:induction false} SearchFinds(ids: seq<Oid>, id: Oid, lo: nat, hi: nat)
    requires SortedIds(ids) && hi <= |ids|
    ensures match Search(ids, id, lo, hi)
            case Some(i) => lo <= i < hi && ids[i] == id
            case None => forall i | lo <= i < hi :: ids[i] != id
    decreases hi - lo
  {
    if lo < hi {
      var mid := (lo + hi) / 2;
      LessTrichotomy(ids[mid], id);
      if ids[mid] == id {
      } else if Less(ids[mid], id) {
        SearchFinds(ids, id, mid + 1, hi);
        NotBelow(ids, id, mid);
      } else {
        SearchFinds(ids, id, lo, mid);
        NotAbove(ids, id, mid);
      }
    }
  }

  lemma NotBelow(ids: seq<Oid>, id: Oid, mid: nat)
    requires SortedIds(ids) && mid < |ids| && Less(ids[mid], id)
    ensures forall i | 0 <= i <= mid :: ids[i] != id
  {
    forall i | 0 <= i <= mid
      ensures ids[i] != id
    {
      assert i < mid ==> IdLeq(ids[i], ids[mid]);
      LessTrichotomy(ids[mid], id);
    }
  }

  lemma NotAbove(ids: seq<Oid>, id: Oid, mid: nat)
    requires SortedIds(ids) && mid < |ids| && Less(id, ids[mid])
    ensures forall i | mid <= i < |ids| :: ids[i] != id
  {
    forall i | mid <= i < |ids|
      ensures ids[i] != id
    {
      assert mid < i ==> IdLeq(ids[mid], ids[i]);
      LessTrichotomy(id, ids[mid]);
    }
  }

  lemma InBucket(ids: seq<Oid>, b: int, i: nat)
    requires SortedIds(ids) && i < |ids| && ids[i][0] == b
    ensures CountAtMost(ids, b - 1) <= i < CountAtMost(ids, b)
  {
    BucketIsPrefix(ids, b, i);
    BucketIsPrefix(ids, b - 1, i);
  }

  /** Fanout plus binary search finds an id exactly when it is in the list. */
  lemma FindFinds(x: Index, id: Oid)
    requires SortedIds(x.ids) && x.fanout == Fanout(x.ids) && |x.offsets| == |x.ids|
    ensures match Find(x, id)
            case Missing => id !in x.ids
            case r => exists i | 0 <= i < |x.ids| :: x.ids[i] == id && r == OffsetWord(x.offsets[i])
  {
    var b := id[0];
    var lo := if b == 0 then 0 else x.fanout[b-1];
    SearchFinds(x.ids, id, lo, x.fanout[b]);
    BucketHolds(x.ids, id);
  }

  /** An id of the list lies in the bucket of its first byte. */
  lemma BucketHolds(ids: seq<Oid>, id: Oid)
    requires SortedIds(ids)
    ensures var b := id[0];
      var lo := if b == 0 then 0 else Fanout(ids)[b-1];
      id in ids ==> exists i | lo <= i < Fanout(ids)[b] :: ids[i] == id
  {
    if id in ids {
      var k :| 0 <= k < |ids| && ids[k] == id;
      InBucket(ids, id[0], k);
    }
  }

  // ---- The builder and its reader together ----------------------------------------------

  function ById(): (PackEntry, PackEntry) -> bool {
    (a: PackEntry, b: PackEntry) => Leq(a.id, b.id)
  }

  lemma ByIdIsOrder()
    ensures TotalPreorder(ById())
  {
    LeqIsTotalOrder();
  }

  function SortedEntries(lib: Library, blobs: seq<Bytes>): seq<PackEntry> {
    Sort(Entries(lib, blobs), ById())
  }

  /** Pack and index of a list of blobs. */
  method BuildPack(lib: Library, blobs: seq<Bytes>) returns (pack: Bytes, idx: Option<Bytes>)
    requires |blobs| < 0x1_0000_0000
    ensures pack == PackBytes(lib, blobs)
    ensures idx == IndexBytes(lib, SortedEntries(lib, blobs), pack[|pack|-20..])
    ensures |pack| >= 32 && pack[|pack|-20..] == lib.sha(pack[..|pack|-20])
    ensures pack[..4] == [80, 65, 67, 75] && FromBe32(pack[4..8]) == 2 && FromBe32(pack[8..12]) == |blobs|
    ensures idx.Some? ==> var b := idx.value;
      |b| >= 40 && b[|b|-20..] == lib.sha(b[..|b|-20]) && b[|b|-40..|b|-20] == pack[|pack|-20..]
    ensures idx.Some? ==> LaidOut(idx.value, Columns(SortedEntries(lib, blobs)))
  {
    var entries, chunks := WriteEntries(lib, blobs);
    pack := PackHeader(|blobs|) + Concat(chunks);
    var trailer := lib.sha(pack);
    SealSeals(lib, pack);
    Assoc(PackHeader(|blobs|), Concat(chunks), trailer);
    HeaderReads(|blobs|, Concat(chunks) + trailer);
    pack := pack + trailer;
    entries := Sort(entries, ById());
    SortElements(Entries(lib, blobs), ById());
    var ids := Ids(entries);
    var fanout := CountFanout(ids);
    if Words(Offsets(entries)) {
      assert Words(fanout);
      var body := IDX_MAGIC + (Be32(2) + (WordBytes(fanout) + (IdBytes(ids)
                + (WordBytes(Crcs(entries)) + (WordBytes(Offsets(entries)) + trailer)))));
      SealSeals(lib, body);
      TrailerLast(IDX_MAGIC, Be32(2), WordBytes(fanout), IdBytes(ids), WordBytes(Crcs(entries)),
                  WordBytes(Offsets(entries)), trailer, lib.sha(body));
      idx := Some(body + lib.sha(body));
      IndexIsLaidOut(lib, entries, trailer);
    } else {
      idx := None;
    }
  }

  lemma SortedEntryIsEntry(lib: Library, blobs: seq<Bytes>, e: PackEntry)
    ensures e in SortedEntries(lib, blobs)
       <==> exists i | 0 <= i < |blobs| :: e == Entries(lib, blobs)[i]
  {
    SortElements(Entries(lib, blobs), ById());
  }

  lemma SortedEntriesSorted(lib: Library, blobs: seq<Bytes>)
    ensures SortedIds(Ids(SortedEntries(lib, blobs)))
  {
    ByIdIsOrder();
    SortSorts(Entries(lib, blobs), ById());
    var s := SortedEntries(lib, blobs);
    forall i, j | 0 <= i < j < |s|
      ensures IdLeq(Ids(s)[i], Ids(s)[j])
    {
      assert ById()(s[i], s[j]);
    }
  }

  /** The index finds the ids of the blobs and no others; what it finds is the offset word
      of a blob with that id. */
  lemma FindLocates(lib: Library, blobs: seq<Bytes>, id: Oid)
    ensures var found := Find(Columns(SortedEntries(lib, blobs)), id);
      if found.Missing? then forall i | 0 <= i < |blobs| :: BlobId(lib, blobs[i]) != id
      else exists i | 0 <= i < |blobs| :: BlobId(lib, blobs[i]) == id && found == OffsetWord(Offset(lib, blobs, i))
  {
    var s := SortedEntries(lib, blobs);
    var x := Columns(s);
    SortedEntriesSorted(lib, blobs);
    FindFinds(x, id);
    if Find(x, id).Missing? {
      forall i | 0 <= i < |blobs|
        ensures BlobId(lib, blobs[i]) != id
      {
        SortedEntryIsEntry(lib, blobs, Entries(lib, blobs)[i]);
        EntryIdListed(s, Entries(lib, blobs)[i]);
      }
    } else {
      var k :| 0 <= k < |x.ids| && x.ids[k] == id && Find(x, id) == OffsetWord(x.offsets[k]);
      SortedEntryIsEntry(lib, blobs, s[k]);
      var i :| 0 <= i < |blobs| && s[k] == Entries(lib, blobs)[i];
      assert BlobId(lib, blobs[i]) == id;
    }
  }

  lemma EntryIdListed(s: seq<PackEntry>, e: PackEntry)
    requires e in s
    ensures e.id in Ids(s)
  {
    var k :| 0 <= k < |s| && s[k] == e;
    assert Ids(s)[k] == e.id;
  }

  /** When blobs have distinct ids the index gives an entry's own offset back exactly
      when that offset is below 2^31; above, the written word means something else. */
  lemma LookupGivesOffset(lib: Library, blobs: seq<Bytes>, i: nat)
    requires i < |blobs|
    requires forall j, k | 0 <= j < k < |blobs| :: BlobId(lib, blobs[j]) != BlobId(lib, blobs[k])
    ensures Find(Columns(SortedEntries(lib, blobs)), BlobId(lib, blobs[i])) == At(Offset(lib, blobs, i))
       <==> Offset(lib, blobs, i) < 0x8000_0000
  {
    FindLocates(lib, blobs, BlobId(lib, blobs[i]));
  }

  /** Row k of the index, whichever entry was sorted there, holds the id of one blob, the
      offset of its bytes in the pack and the checksum of exactly those bytes. */
  lemma RowsAreAligned(lib: Library, blobs: seq<Bytes>, k: nat) returns (i: nat)
    requires |blobs| < 0x1_0000_0000 && k < |SortedEntries(lib, blobs)|
    ensures i < |blobs| && Offset(lib, blobs, i) <= Offset(lib, blobs, i + 1) <= |PackBytes(lib, blobs)|
    ensures var x := Columns(SortedEntries(lib, blobs));
      && x.ids[k] == BlobId(lib, blobs[i]) && x.offsets[k] == Offset(lib, blobs, i)
      && x.crcs[k] == lib.crc32(PackBytes(lib, blobs)[Offset(lib, blobs, i)..Offset(lib, blobs, i + 1)])
  {
    var e := SortedEntries(lib, blobs)[k];
    SortedEntryIsEntry(lib, blobs, e);
    i :| 0 <= i < |blobs| && e == Entries(lib, blobs)[i];
    EntryBytesAt(lib, blobs, i);
  }

  lemma EntryBytesAt(lib: Library, blobs: seq<Bytes>, i: nat)
    requires |blobs| < 0x1_0000_0000 && i < |blobs|
    ensures Offset(lib, blobs, i) <= Offset(lib, blobs, i + 1) <= |PackBytes(lib, blobs)|
    ensures PackBytes(lib, blobs)[Offset(lib, blobs, i)..Offset(lib, blobs, i + 1)] == EntryData(lib, blobs[i])
  {
    var rest := EntryStartsAtOffset(lib, blobs, i);
    OffsetNext(lib, blobs, i);
    TakeFront(PackBytes(lib, blobs), Offset(lib, blobs, i), EntryData(lib, blobs[i]), rest);
  }

  lemma TakeFront(b: Bytes, at: nat, data: Bytes, rest: Bytes)
    requires at <= |b| && b[at..] == data + rest
    ensures at + |data| <= |b| && b[at..at+|data|] == data
  {
    assert b[at..][..|data|] == data;
  }
}

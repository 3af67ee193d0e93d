/** Reading a pack from its bytes alone, and finding an object through the index file: both
    give what the builder was given. */
module PackReader {
  import opened ByteStrings
  import opened GitObjects
  import opened Pack

  /** An object found in a pack. */
  datatype Located = Located(id: Oid, offset: nat, payload: Bytes)

  /** Decompression undoes compression and stops where the compressed bytes end. */
  ghost predicate Inflates(lib: Library) {
    forall x, rest :: lib.inflate(lib.deflate(x) + rest) == Some((x, rest))
  }

  /** One blob at the front of s: its payload, and the bytes after the entry. */
  function ReadBlob(lib: Library, s: Bytes): (r: Option<(Bytes, Bytes)>)
    ensures r.Some? ==> |r.value.1| < |s|
  {
    match ReadPrefix(s)
    case None => None
    case Some(p) =>
      if p.0 != OBJ_BLOB then None else
      match lib.inflate(p.2)
      case None => None
      case Some(e) => if |e.0| == p.1 && |e.1| < |s| then Some(e) else None
  }

  /** Takes an object off the front of some bytes. */
  type Reader = Bytes -> Option<(Bytes, Bytes)>

  function BlobReader(lib: Library): Reader {
    (s: Bytes) => ReadBlob(lib, s)
  }

  /** The next `count` entries of a file whose bytes from `at` on are s. */
  function ScanEntries(lib: Library, read: Reader, s: Bytes, at: nat, count: nat): Option<(seq<Located>, Bytes)>
    decreases count
  {
    if count == 0 then Some(([], s)) else
    match read(s)
    case None => None
    case Some(e) =>
      if |e.1| > |s| then None else
      match ScanEntries(lib, read, e.1, at + |s| - |e.1|, count - 1)
      case None => None
      case Some(r) => Some(([Located(BlobId(lib, e.0), at, e.0)] + r.0, r.1))
  }

  /** Header, as many entries as it says, and the hash of all of it. */
  function ScanPack(lib: Library, b: Bytes): Option<seq<Located>> {
    if |b| < 32 || b[..4] != PACK_MAGIC || FromBe32(b[4..8]) != 2 then None else
    match ScanEntries(lib, BlobReader(lib), b[12..], 12, FromBe32(b[8..12]))
    case None => None
    case Some(r) => if r.1 == lib.sha(b[..|b|-20]) then Some(r.0) else None
  }

  // ---- Scanning what was packed -----------------------------------------------------------

  lemma ReadBlobBack(lib: Library, payload: Bytes, rest: Bytes)
    requires Inflates(lib)
    ensures ReadBlob(lib, EntryData(lib, payload) + rest) == Some((payload, rest))
  {
    Assoc(Prefix(|payload|), lib.deflate(payload), rest);
    PrefixRoundTrip(|payload|, lib.deflate(payload) + rest);
    assert |Prefix(|payload|)| > 0;
  }

  /** Objects stored one after the other from `at` on, in these chunks. */
  function Placed(lib: Library, chunks: seq<Bytes>, payloads: seq<Bytes>, at: nat): (r: seq<Located>)
    requires |chunks| == |payloads|
    ensures |r| == |payloads|
  {
    if chunks == [] then []
    else [Located(BlobId(lib, payloads[0]), at, payloads[0])]
         + Placed(lib, chunks[1..], payloads[1..], at + |chunks[0]|)
  }

  /** In front of anything, each chunk is read as its payload. */
  ghost predicate ReadsChunks(read: Reader, chunks: seq<Bytes>, payloads: seq<Bytes>)
    requires |chunks| == |payloads|
  {
    forall i, rest | 0 <= i < |chunks| :: read(chunks[i] + rest) == Some((payloads[i], rest))
  }

  lemma ScanNext(lib: Library, read: Reader, chunk: Bytes, payload: Bytes, rest: Bytes, at: nat, count: nat,
                 listed: seq<Located>, tail: Bytes)
    requires read(chunk + rest) == Some((payload, rest))
    requires ScanEntries(lib, read, rest, at + |chunk|, count) == Some((listed, tail))
    ensures ScanEntries(lib, read, chunk + rest, at, count + 1)
         == Some(([Located(BlobId(lib, payload), at, payload)] + listed, tail))
  {}

  lemma {:induction false} ScanChunks(lib: Library, read: Reader, chunks: seq<Bytes>, payloads: seq<Bytes>,
                                      tail: Bytes, at: nat)
    requires |chunks| == |payloads| && ReadsChunks(read, chunks, payloads)
    ensures ScanEntries(lib, read, Concat(chunks) + tail, at, |chunks|)
         == Some((Placed(lib, chunks, payloads, at), tail))
    decreases |chunks|
  {
    if chunks == [] {
      assert Concat(chunks) + tail == tail;
    } else {
      var more := Concat(chunks[1..]) + tail;
      ScanChunks(lib, read, chunks[1..], payloads[1..], tail, at + |chunks[0]|);
      ScanNext(lib, read, chunks[0], payloads[0], more, at, |chunks| - 1,
               Placed(lib, chunks[1..], payloads[1..], at + |chunks[0]|), tail);
      Assoc(chunks[0], Concat(chunks[1..]), tail);
    }
  }

  lemma {:induction false} PlacedAt(lib: Library, chunks: seq<Bytes>, payloads: seq<Bytes>, at: nat, i: nat)
    requires |chunks| == |payloads| && i < |chunks|
    ensures Placed(lib, chunks, payloads, at)[i]
         == Located(BlobId(lib, payloads[i]), at + |Concat(chunks[..i])|, payloads[i])
    decreases i
  {
    if i > 0 {
      PlacedAt(lib, chunks[1..], payloads[1..], at + |chunks[0]|, i - 1);
      assert chunks[..i][1..] == chunks[1..][..i-1];
    }
  }

  lemma ScanIsPlaced(lib: Library, blobs: seq<Bytes>)
    requires Inflates(lib) && |blobs| < 0x1_0000_0000
    ensures ScanPack(lib, PackBytes(lib, blobs)) == Some(Placed(lib, Chunks(lib, blobs), blobs, 12))
  {
    var data := Concat(Chunks(lib, blobs));
    var trailer := lib.sha(PackHeader(|blobs|) + data);
    var chunks := Chunks(lib, blobs);
    forall i, rest | 0 <= i < |chunks|
      ensures BlobReader(lib)(chunks[i] + rest) == Some((blobs[i], rest))
    {
      ReadBlobBack(lib, blobs[i], rest);
    }
    ScanChunks(lib, BlobReader(lib), chunks, blobs, trailer, 12);
    ScanWhole(lib, |blobs|, data, Placed(lib, chunks, blobs, 12));
  }

  lemma ScanWhole(lib: Library, count: Word, data: Bytes, listed: seq<Located>)
    requires var trailer := lib.sha(PackHeader(count) + data);
      ScanEntries(lib, BlobReader(lib), data + trailer, 12, count) == Some((listed, trailer))
    ensures var body := PackHeader(count) + data;
      ScanPack(lib, body + lib.sha(body)) == Some(listed)
  {
    var header := PackHeader(count);
    var trailer := lib.sha(header + data);
    var b := header + data + trailer;
    Assoc(header, data, trailer);
    HeaderReads(count, data + trailer);
    assert b[..|b|-20] == header + data;
  }

  /** Scanning the pack's bytes gives exactly the blobs packed, in order, each with its id
      and the offset the builder recorded for it. */
  lemma ScanGivesBlobs(lib: Library, blobs: seq<Bytes>)
    requires Inflates(lib) && |blobs| < 0x1_0000_0000
    ensures var listed := ScanPack(lib, PackBytes(lib, blobs));
      && listed.Some? && |listed.value| == |blobs|
      && forall i | 0 <= i < |blobs| ::
           listed.value[i] == Located(BlobId(lib, blobs[i]), Offset(lib, blobs, i), blobs[i])
  {
    ScanIsPlaced(lib, blobs);
    forall i | 0 <= i < |blobs|
      ensures Placed(lib, Chunks(lib, blobs), blobs, 12)[i]
           == Located(BlobId(lib, blobs[i]), Offset(lib, blobs, i), blobs[i])
    {
      PlacedAt(lib, Chunks(lib, blobs), blobs, 12, i);
      ChunksPrefix(lib, blobs, i);
    }
  }

  // ---- The index against the scan ------------------------------------------------------------

  /** The two files of a list of blobs. */
  ghost predicate Built(lib: Library, blobs: seq<Bytes>, pack: Bytes, idx: Bytes) {
    && |blobs| < 0x1_0000_0000 && pack == PackBytes(lib, blobs)
    && IndexBytes(lib, SortedEntries(lib, blobs), pack[|pack|-20..]) == Some(idx)
  }

  /** The index file's answer; None when the bytes are no index. */
  function LookUp(lib: Library, idx: Bytes, id: Oid): Option<Lookup> {
    match ReadIndex(lib, idx)
    case None => None
    case Some(x) => if Usable(x) then Some(Find(x, id)) else None
  }

  predicate Usable(x: Index) {
    |x.fanout| == 256 && |x.offsets| == |x.ids| && forall b | 0 <= b < 256 :: x.fanout[b] <= |x.ids|
  }

  lemma LookUpIsFind(lib: Library, blobs: seq<Bytes>, pack: Bytes, idx: Bytes, id: Oid)
    requires Built(lib, blobs, pack, idx)
    ensures LookUp(lib, idx, id) == Some(Find(Columns(SortedEntries(lib, blobs)), id))
  {
    IndexRoundTrip(lib, SortedEntries(lib, blobs), pack[|pack|-20..]);
  }

  /** From the bytes of the two files alone: the index finds an id exactly when a linear scan
      of the pack meets it, and answers the offset word of an entry the scan met. */
  lemma LookupAgreesWithScan(lib: Library, blobs: seq<Bytes>, pack: Bytes, idx: Bytes, id: Oid)
    requires Inflates(lib) && Built(lib, blobs, pack, idx)
    ensures var found, listed := LookUp(lib, idx, id), ScanPack(lib, pack);
      && found.Some? && listed.Some?
      && if found.value.Missing? then forall i | 0 <= i < |listed.value| :: listed.value[i].id != id
         else exists i | 0 <= i < |listed.value| ::
           listed.value[i].id == id && found.value == OffsetWord(listed.value[i].offset)
  {
    LookUpIsFind(lib, blobs, pack, idx, id);
    ScanGivesBlobs(lib, blobs);
    FindLocates(lib, blobs, id);
    var listed := ScanPack(lib, pack).value;
    if !LookUp(lib, idx, id).value.Missing? {
      var i :| 0 <= i < |blobs| && BlobId(lib, blobs[i]) == id
        && LookUp(lib, idx, id).value == OffsetWord(Offset(lib, blobs, i));
      assert listed[i].id == id;
    }
  }

  // ---- Fetching an object ----------------------------------------------------------------------

  /** The index ends with the hash of the pack it belongs to, then its own. */
  predicate NamesPack(idx: Bytes, pack: Bytes) {
    |idx| >= 40 && |pack| >= 20 && idx[|idx|-40..|idx|-20] == pack[|pack|-20..]
  }

  /** The object behind an id: through the pack's own index to an offset, and from there its
      payload. */
  function Fetch(lib: Library, pack: Bytes, idx: Bytes, id: Oid): Option<Bytes> {
    if !NamesPack(idx, pack) then None else
    match LookUp(lib, idx, id)
    case Some(At(offset)) =>
      if offset > |pack| then None else
      (match ReadBlob(lib, pack[offset..])
       case None => None
       case Some(e) => Some(e.0))
    case _ => None
  }

  lemma BuiltNamesPack(lib: Library, blobs: seq<Bytes>, pack: Bytes, idx: Bytes)
    requires Built(lib, blobs, pack, idx)
    ensures NamesPack(idx, pack)
  {
    IndexNamesPack(lib, SortedEntries(lib, blobs), pack[|pack|-20..]);
  }

  /** Damage is refused: a file whose hash does not fit is no index, and an index of another
      pack leads to nothing. */
  lemma DamageIsRefused(lib: Library, pack: Bytes, idx: Bytes, id: Oid)
    requires |idx| >= 40 && |pack| >= 20
    ensures idx[|idx|-20..] != lib.sha(idx[..|idx|-20]) ==> LookUp(lib, idx, id) == None
    ensures idx[|idx|-40..|idx|-20] != pack[|pack|-20..] ==> Fetch(lib, pack, idx, id) == None
  {
    assert idx[|idx|-20..] != lib.sha(idx[..|idx|-20]) ==> !Sealed(lib, idx);
  }

  lemma BlobAtOffset(lib: Library, blobs: seq<Bytes>, i: nat)
    requires Inflates(lib) && |blobs| < 0x1_0000_0000 && i < |blobs|
    ensures Offset(lib, blobs, i) <= |PackBytes(lib, blobs)|
    ensures var r := ReadBlob(lib, PackBytes(lib, blobs)[Offset(lib, blobs, i)..]);
      r.Some? && r.value.0 == blobs[i]
  {
    var rest := EntryStartsAtOffset(lib, blobs, i);
    ReadBlobBack(lib, blobs[i], rest);
  }

  lemma FetchAt(lib: Library, blobs: seq<Bytes>, pack: Bytes, idx: Bytes, id: Oid, i: nat)
    requires Inflates(lib) && |blobs| < 0x1_0000_0000 && i < |blobs| && pack == PackBytes(lib, blobs)
    requires NamesPack(idx, pack) && LookUp(lib, idx, id) == Some(OffsetWord(Offset(lib, blobs, i)))
    ensures Fetch(lib, pack, idx, id) == if Offset(lib, blobs, i) < 0x8000_0000 then Some(blobs[i]) else None
  {
    BlobAtOffset(lib, blobs, i);
  }

  /** Fetching returns the very payload of an object a scan of the pack meets under that id,
      or nothing: when the scan meets none, or its offset has the word's top bit. */
  lemma FetchGivesPayload(lib: Library, blobs: seq<Bytes>, pack: Bytes, idx: Bytes, id: Oid)
    requires Inflates(lib) && Built(lib, blobs, pack, idx)
    ensures var listed := ScanPack(lib, pack);
      listed.Some? &&
      if forall i | 0 <= i < |listed.value| :: listed.value[i].id != id then Fetch(lib, pack, idx, id) == None
      else exists i | 0 <= i < |listed.value| ::
        && listed.value[i].id == id
        && Fetch(lib, pack, idx, id)
           == if listed.value[i].offset < 0x8000_0000 then Some(listed.value[i].payload) else None
  {
    LookupAgreesWithScan(lib, blobs, pack, idx, id);
    BuiltNamesPack(lib, blobs, pack, idx);
    ScanGivesBlobs(lib, blobs);
    var listed, found := ScanPack(lib, pack).value, LookUp(lib, idx, id).value;
    if !found.Missing? {
      var i :| 0 <= i < |listed| && listed[i].id == id && found == OffsetWord(listed[i].offset);
      FetchAt(lib, blobs, pack, idx, id, i);
      assert listed[i].payload == blobs[i];
    }
  }
}

# bash-os benchmark harness: verified model

bash-os compares its shell builtins with host tools. The benchmark side of the repository
builds fixtures byte by byte, reads results back, decides which implementation may receive a
timing, publishes measurements and regenerates a document from them. This project models the
parts of that code whose correctness the measurements rest on, and proves what they promise.

The modules, by component:

- **Git fixtures.** `GitObjects` defines records, trees, commits and a reader for them.
  `GitBuild` is the incremental repository builder with its object store. `Pack` is the pack
  and `.idx` writer with an index reader, `PackReader` the reader of a pack's bytes.
  `IndexFile` is the index version 2 writer in its two forms. `BatchReader` is the reader of
  `cat-file --batch` output.
- **Highlighting.** `Highlight` resolves overlapping captures to one owner per byte.
  `Rendering` forms runs, the span listing and the coloured output, and defines a terminal.
- **Measurement to catalog.** `Normalize` holds the ways outputs are compared, `Validate` is the
  per-case verdict and timing loop, `Rotation`
  its order of launches, `Statistics` its figures, `Publish` the guarded merge into result
  files, `Pipeline` the argument that joins them, `Sections` the document regenerator and
  `Regeneration` what it does to arbitrary documents.
- **Text and wire formats.** `Clip` compares line-list pastes with text insertion. `Framing`
  holds pkt-line, side-band and HTTP chunked framing. `Checksum` is the IPv4 header checksum.
- **Small state machines.** `Alloc` is the bootstrap allocator, `Relay` the lossy UDP relay.
- **Shared.** `ByteStrings`, `Sequences` and `Sorting`.

## What is a parameter

- SHA-1, SHA-256, Base64, zlib and CRC-32 are function parameters. Where a result needs
  distinct records to have distinct ids, it assumes so for the records kept in that store and
  no others. Of zlib it is assumed that decompressing undoes compressing and stops where the
  compressed bytes end.
- A launched program is its outcome: wall time and captured output, a timeout, or a failure.
  Times are `real`. `Plan` holds all outcomes one case can ask for.
- The normalizer of a case is an arbitrary function on captured bytes where verdicts are
  concerned; `Normalize` has the four that exist.
- Received datagrams, capture lists, stat fields and the answers of the C library are inputs.

## Findings

Each is a lemma: the property as one would expect it fails, and the exact condition is given.

- The batch reader takes headers apart with `split()` and `int()`. It therefore accepts more
  than git prints, for instance a size of `-1` for an empty blob. On answers whose headers are
  plain it accepts exactly git's stream (`BatchReader.AcceptsPlainStreams`,
  `BatchReader.AcceptsNegativeSize`).
- The two index writers agree exactly for paths of at most 4095 bytes; beyond that the form
  without the cap writes a flags field a reader misunderstands (`IndexFile.FormsAgree`,
  `IndexFile.HistoricalRoundTrip`).
- A pack offset is recovered from the index exactly when it is below 2^31
  (`Pack.LookupGivesOffset`).
- Side-band framing delivers the pack exactly when a full data frame stays within the longest
  line the receiver takes: 65520 bytes for one that keeps to the pkt-line format, 65535 for one
  that takes any four digits (`Framing.SideBandDelivers`).
- Rendered output shows its data exactly when no stretch of one code contains a colour
  escape of its own (`Rendering.RenderingShowsOwners`, `Rendering.StripRendering`).
- The guard deciding whether a clip case is compared with `head` is wrong exactly when the
  text ends in a newline and the region reaches past the last line. Its comment states the
  right rule; the model follows the code (`Clip.GuardIsExact`, `Clip.GuardFails`).
- The comment on the timing rotation says drift does not land on one side. That holds for an
  odd number of labels. With an even number no label ever leaves the positions of its own
  parity, and with two the order never changes (`Rotation.OddIsBalanced`,
  `Rotation.EvenKeepsParity`, `Rotation.TwoNeverChange`).
- Regenerating a section twice gives the same document exactly when its content holds none of
  its own markers (`Sections.ReplaceTwice`).
- After one section is replaced another can still be replaced exactly when the body replaced
  held neither of its markers, so a nested section is lost (`Regeneration.NestedIsLost`,
  `Regeneration.NestedExample`). The check after a write succeeds exactly when every section's
  markers survived the write (`Regeneration.CheckAfterWrite`), that is, when no section lies in
  one updated after it (`Regeneration.CheckBeforeWrite`).
- Resolving the C library's functions returns exactly when every calloc made meanwhile fits the
  bootstrap buffer; otherwise `resolve` enters itself without end (`Alloc.ResolveReturns`). The
  capacity test is fooled exactly when its sum wraps around (`Alloc.FitsIsExact`).
- A case that ends before its passes are calibrated is published without them, and the
  catalog's loop then fails (`Pipeline.FileAccepted`, `Pipeline.PassesAreCalibrated`,
  `Pipeline.UncalibratedIsRefused`).
- A batch in which later invocations print nothing passes validation exactly when its mode cannot
  tell fewer copies of the output from more: an empty output, a blank one under `fields`, and under
  `digest` a single unterminated line that holds whitespace (`Normalize.CopiesDetected`,
  `Normalize.SilentInvocationsDetected`, `Normalize.DigestMisses`).

## Model

| member | source | states |
|---|---|---|
| `ByteStrings.LessAtFirstDifference` | bench/git-scale.py:57-58 | byte strings compare by their first difference, a proper prefix first |
| `ByteStrings.DecLeads` | bench/git-scale.py:46 | in a decimal numeral the first digit weighs most |
| `ByteStrings.HexOfBytesAt` | bench/git-scale.py:91-93 | two hexadecimal digits for each byte of an id, the high one first |
| `ByteStrings.HexLeads` | bench/loadables.py:1559-1560 | in a hexadecimal length the first digit weighs most |
| `ByteStrings.BigEndian` | bench/loadables.py:2037-2041 | four-byte words have their most significant byte first |
| `GitObjects.RecordRoundTrip` | bench/git-scale.py:45-46 | an object record reads back as its kind and body, for any body |
| `GitObjects.SortKeyInjective` | bench/git-scale.py:57-58 | no two names of a directory share a sort key, although a directory's key ends in a slash |
| `GitObjects.SortedEnumerationIsUnique` | bench/git-scale.py:57-58 | a directory has one canonical order of entries, so its tree does not depend on insertion order |
| `GitObjects.ListingRoundTrip` | bench/git-scale.py:55-60 | a tree body decodes to its mode, name and id lines, in order |
| `GitObjects.TreeBodyIsCanonical` | bench/git-scale.py:55-60 | read from its bytes, a tree has one line for each entry, mode 100644 for a file and 40000 for a directory, and everything under an earlier line has a smaller full path than everything under a later one |
| `GitObjects.CheckoutCorrect` | bench/git-scale.py:55-61 | a store holding a working tree's records yields exactly that path-to-contents map from the root id |
| `GitObjects.ModesNameKinds` | bench/git-scale.py:55-78 | a 40000 line of the root names a stored tree, each line of that is 100644 and names the blob of its file |
| `GitObjects.WalkInPathOrder` | bench/git-scale.py:55-107 | walking a stored working tree meets its files in the order of full paths, the order the index lists them in |
| `GitObjects.CommitRoundTrip` | bench/git-scale.py:91-96 | a commit body reads back as its tree and optional parent |
| `GitObjects.LogIsUnique` | bench/git-scale.py:91-97 | following parents from a commit visits one determined list of commits |
| `GitObjects.LogHasNoRepeats` | bench/git-scale.py:91-97 | a log that ends at a parentless root visits no commit twice |
| `GitBuild.ObjectStore.Keep` | bench/git-scale.py:45-53 | the id is the record's hash, a present object is never replaced, every key is its record's hash |
| `GitBuild.ObjectStore.TreeOf` | bench/git-scale.py:55-61 | the tree kept lists each entry once with its mode, in the order of full paths; the id is its hash and the store only grows |
| `GitBuild.SortedIsOrdered` | bench/git-scale.py:57-58 | sorting names in whatever order the dictionary yields them gives the canonical order |
| `GitBuild.WriteFiles` | bench/git-scale.py:69-75 | the directory dictionaries are those of the working tree written, and every blob is kept |
| `GitBuild.LastWriteWins` | bench/git-scale.py:69-87 | a file has the bytes of the last write to it |
| `GitBuild.UntouchedStays` | bench/git-scale.py:69-87 | a file no write touches is as it was, and a directory is there if it was or was written to |
| `GitBuild.BuildTrees` | bench/git-scale.py:76-78 | one pass over the directories gives the root id of the whole working tree |
| `GitBuild.UpdateTrees` | bench/git-scale.py:88-89 | rewriting one directory and the root gives the id a rebuild of every directory would give |
| `GitBuild.CommitTree` | bench/git-scale.py:90-97 | the record kept names the given tree and parent |
| `GitBuild.CommitTimes` | bench/git-scale.py:90-96 | author and committer times read back as equal, n minutes after the first commit |
| `GitBuild.CommitEdit` | bench/git-scale.py:82-97 | after a commit the kept dictionaries and root id are those of the edited working tree, all of whose records are kept |
| `GitBuild.HistoryReadsBack` | bench/git-scale.py:80-100 | when kept records do not collide, the parents from the newest commit visit every commit once, newest first, and each commit's tree checks out to its own working tree |
| `GitBuild.Build` | bench/git-scale.py:69-97 | for any files and edits, every commit's root id is the one rebuilt from scratch, the store only grows, and a store without collisions gives the whole history back |
| `Pack.WritePrefix` | bench/loadables.py:2017-2022 | the shifting loop writes the type and size in base-128 groups |
| `Pack.PrefixRoundTrip` | bench/loadables.py:2017-2022 | for every length the prefix decodes to blob and that length and consumes its own bytes only |
| `Pack.WriteEntries` | bench/loadables.py:2013-2026 | ids, checksums and running offsets of all entries |
| `Pack.EntryStartsAtOffset` | bench/loadables.py:2023-2028 | each recorded offset is where that entry's bytes start in the finished pack |
| `Pack.BucketIsPrefix` | bench/loadables.py:2029-2036 | among sorted ids those of bucket b and below are exactly the first ones the fanout counts |
| `Pack.CountFanout` | bench/loadables.py:2030-2036 | counting first bytes and accumulating gives, for each byte, how many ids start at or below it |
| `Pack.IndexRoundTrip` | bench/loadables.py:2037-2043 | the index decodes to aligned columns of the sorted entries |
| `Pack.IndexIsLaidOut` | bench/loadables.py:2037-2043 | magic, version and the four columns lie at fixed places, forty bytes follow them |
| `Pack.RowAt` | bench/loadables.py:2039-2041 | id, checksum and offset of row k of n at 1032 + 20k, 1032 + 20n + 4k and 1032 + 24n + 4k |
| `Pack.FanoutAt` | bench/loadables.py:2038 | the fanout word of byte v at 8 + 4v |
| `Pack.SearchFinds` | bench/loadables.py:2029-2036 | binary search returns a position of the id, or there is none in the range |
| `Pack.FindFinds` | bench/loadables.py:2029-2041 | fanout plus binary search finds an id exactly when the index lists it, with that entry's own offset word |
| `Pack.BuildPack` | bench/loadables.py:2013-2043 | pack and index of any blob list: each ends with the hash of all before it, the index after the hash of its pack; columns in their places; no index where an offset does not fit its word |
| `Pack.FindLocates` | bench/loadables.py:2029-2041 | the index finds the ids of the blobs packed and no others, with the offset word of such a blob |
| `Pack.LookupGivesOffset` | bench/loadables.py:2041 | with distinct ids an entry's own offset comes back if and only if it is below 2^31 |
| `Pack.RowsAreAligned` | bench/loadables.py:2029-2041 | each row of the sorted index holds one blob's id, its offset, and the checksum of exactly its bytes in the pack |
| `PackReader.ScanGivesBlobs` | bench/loadables.py:2013-2028 | reading the pack's bytes from header to trailer gives exactly the blobs packed, each with its id and the recorded offset |
| `PackReader.LookupAgreesWithScan` | bench/loadables.py:2013-2043 | from the bytes of the two files, the index finds an id exactly when a linear scan of the pack meets it, and answers the offset of an entry the scan met |
| `PackReader.DamageIsRefused` | bench/loadables.py:2042-2043 | a file whose last twenty bytes are not the hash of the others is no index, and an index that ends with another pack's hash leads to no object |
| `PackReader.FetchGivesPayload` | bench/loadables.py:2013-2043 | through the index and the pack an id leads to the very payload the scan meets under it, if and only if there is one and its offset is below 2^31 |
| `IndexFile.HistoricalEntry` | bench/sol-index.py:82-85 | the padding loop ends with one to eight NULs at a multiple of eight bytes |
| `IndexFile.FormsAgree` | bench/loadables.py:2067-2070 | the padding loop and the computed padding write the same bytes if and only if the path has at most 4095 bytes |
| `IndexFile.EntryRoundTrip` | bench/git-scale.py:111-118 | an entry reads back whatever follows it, also when its length field is saturated |
| `IndexFile.HistoricalRoundTrip` | bench/sol-index.py:82-85 | the uncapped form reads back if and only if the path has at most 4095 bytes |
| `IndexFile.EntriesRoundTrip` | bench/git-scale.py:109-119 | a run of entries reads back in the order written |
| `IndexFile.FileRoundTrip` | bench/git-scale.py:108-120 | header, entries and trailer read back, for any NUL-free paths in any order |
| `IndexFile.WriteIndex` | bench/git-scale.py:105-121 | the file starts with DIRC, version and count and ends with its hash; a reader gets back the listing in order of path, nothing added or lost |
| `IndexFile.HistoricalFileReads` | bench/sol-index.py:82-90 | the other writer's file reads back as its entries, in the order written, if and only if no path is longer than 4095 bytes, and otherwise not at all |
| `IndexFile.WriteHistorical` | bench/loadables.py:2061-2072 | the loop writes that file, or refuses exactly when a path is longer than 65535 bytes |
| `BatchReader.ObjectOracle` | bench/sol-git.py:165-178 | the loop over offsets decides acceptance and ends on every input |
| `BatchReader.ReaderIsPlain` | bench/sol-git.py:168-178 | on plain headers the reader by offsets does what a reader of successive records does |
| `BatchReader.AcceptsPlainStreams` | bench/sol-git.py:160-178 | an answer with plain headers is accepted if and only if it is the concatenation of the expected records in listed order, contents arbitrary |
| `BatchReader.AcceptsNegativeSize` | bench/sol-git.py:170-178 | an answer that is not git's stream and is accepted |
| `Highlight.PaintSlice` | bench/opus-ts.py:69 | exactly the covered bytes change owner |
| `Highlight.OracleOwner` | bench/opus-ts.py:61-70 | the owner of a byte is a capture around it than which none is shorter, none as short was declared earlier, and none of those starts earlier; no owner exactly where no capture is |
| `Highlight.OwnerIsUnique` | bench/opus-ts.py:68-69 | that owner is determined, whatever the order and repetition of reported captures |
| `Rendering.RunsOf` | bench/opus-ts.py:73-80 | the nested loops produce the maximal runs |
| `Rendering.RunsPartition` | bench/opus-ts.py:73-80 | runs cover the input back to back, each of one owner, neighbours different |
| `Rendering.SpansRebuild` | bench/opus-ts.py:83-84 | the owned runs rebuild the owner map, each with its owner's code |
| `Rendering.SpanTextRoundTrip` | bench/opus-ts.py:83-84 | the span listing reads back as its spans |
| `Rendering.OracleRender` | bench/opus-ts.py:87-100 | one pass over the runs equals rendering byte by byte, with escapes only where the code changes |
| `Rendering.EnterWrites` | bench/opus-ts.py:91-99 | the bytes written where a code starts, ends or changes, and none where it stays |
| `Rendering.RunIsBare` | bench/opus-ts.py:89-97 | inside a run of one owner there is nothing but the data |
| `Rendering.RenderingShowsOwners` | bench/opus-ts.py:87-100 | a terminal shows every byte in its owner's code and ends reset, if and only if the data is clear |
| `Rendering.StripRendering` | bench/opus-ts.py:87-100 | stripping escapes gives the data back if and only if the data is clear |
| `Rendering.NoEscapeIsClear` | bench/opus-ts.py:87-100 | data without an escape byte is clear, whatever its owners |
| `Rendering.RenderCaptures` | bench/opus-ts.py:117-122 | from captures to the screen: clear data appears in the codes of the winning captures |
| `Clip.JoinSplit` | bench/sol-clip.py:84 | splitting a text and joining it changes nothing |
| `Clip.SplitJoin` | bench/sol-clip.py:84 | joining and splitting a non-empty list of newline-free lines changes nothing |
| `Clip.PasteIsInsertion` | bench/sol-clip.py:135-138 | one column paste on lines is one insertion into the text |
| `Clip.PasteColumn` | bench/sol-clip.py:131-138 | repeated column pastes equal one insertion of the repeated entry, and keep lines newline-free |
| `Clip.PasteAppend` | bench/sol-clip.py:127 | appending copies of an entry's lines appends a newline and the entry each time |
| `Clip.HeadMatches` | bench/sol-clip.py:87-88 | an entry's bytes are what `head` prints if and only if the region stops short of the last line |
| `Clip.GuardIsExact` | bench/sol-clip.py:100 | the guard is right about that if and only if the text lacks a final newline or the region stops short |
| `Clip.GuardFails` | bench/sol-clip.py:99-100 | a text on which the guard admits a comparison that cannot match |
| `Framing.PktRoundTrip` | bench/loadables.py:1559-1560 | a pkt-line within the receiver's limit reads back and is never taken for a flush |
| `Framing.WriteSideBand` | bench/loadables.py:1581-1587 | the loop over offsets frames the pack piece by piece |
| `Framing.SideBandDelivers` | bench/loadables.py:1581-1587 | a receiver gets exactly the pack, control and progress frames adding nothing, if and only if a full frame stays within its limit, whatever limit up to 65535 it has |
| `Framing.ChunkedDelivers` | bench/loadables.py:2294-2297 | for every body and step the chunks carry exactly the body |
| `Checksum.Fold` | bench/loadables.py:1648-1649 | the loop ends with a 16-bit value congruent to the sum modulo 65535, zero only for zero |
| `Checksum.FoldIsUnique` | bench/loadables.py:1648-1649 | that value is determined by the sum |
| `Checksum.VerifyingFields` | bench/loadables.py:1650 | a field value verifies if and only if it is the complement, or both spellings of zero meet |
| `Checksum.SetChecksum` | bench/loadables.py:1647-1650 | the header with the complement inserted folds to 0xffff and is otherwise unchanged |
| `Checksum.SingleWordDetected` | bench/loadables.py:1647-1650 | two verifying headers that differ in one word differ by the two spellings of zero |
| `Rotation.OrderAt` | bench/loadables.py:2682-2684 | rotation and reversal in closed form |
| `Rotation.OrderIsPermutation` | bench/loadables.py:2682-2684 | every round times every label exactly once |
| `Rotation.EvenKeepsParity` | bench/opus-vi.py:214-220 | with an even number of labels no label leaves positions of its own parity |
| `Rotation.TwoNeverChange` | bench/opus-vi.py:214-220 | with two labels the order never changes |
| `Rotation.OddIsBalanced` | bench/opus-vi.py:214-220 | with an odd number n, any 2n consecutive rounds put each label in each position exactly twice |
| `Relay.LossRelay.Serve` | bench/sol-cluster.py:52-68 | the counters, the error and the datagrams sent are those of the step relation |
| `Relay.DropsEveryFourth` | bench/sol-cluster.py:58-66 | in every run drops is requests divided by four, and every request not dropped and every reply is sent on |
| `Relay.OnlyPings` | bench/sol-cluster.py:58-66 | the next datagram fails an assertion if and only if it is no ping of 1212 bytes with 4 at offset 8, or comes from the target before any request |
| `Relay.RelayNeverFails` | bench/sol-cluster.py:58-66 | if the target answers no more than was forwarded to it, neither assertion fails and replies never exceed requests less drops |
| `Relay.RepliesReachLastForwarded` | bench/sol-cluster.py:58-66 | a reply goes to the sender of the last request that was forwarded; a dropped one does not divert it |
| `Relay.SequentialPings` | bench/sol-cluster.py:233-245 | n answered pings end at n requests, n/4 drops and the rest replies, with the exact datagrams exchanged |
| `Alloc.FitsIsExact` | bench/opus-bc-alloc.c:51 | the capacity test is the intended one if and only if its sum does not wrap around |
| `Alloc.Shim.constructor` | bench/opus-bc-alloc.c:18-26 | the static state a process starts with |
| `Alloc.Shim.Bootstrap` | bench/opus-bc-alloc.c:51-55 | a block in bounds, 16-aligned, disjoint from earlier ones and zero, if and only if there is room |
| `Alloc.ResolveReturns` | bench/opus-bc-alloc.c:28-57 | resolve returns if and only if every calloc made while looking a symbol up fits; otherwise no depth of re-entry is enough |
| `Alloc.Shim.Resolve` | bench/opus-bc-alloc.c:28-36 | the callocs made while calloc is looked up are served from the buffer and those made by the later lookups counted and forwarded, none once resolved; the call returns if and only if the first ones all fit |
| `Alloc.Shim.Malloc` | bench/opus-bc-alloc.c:38-45 | counts and forwards, if resolving returns |
| `Alloc.Shim.Calloc` | bench/opus-bc-alloc.c:47-61 | a zeroed block of the buffer if and only if unresolved and there is room, otherwise counted and forwarded if resolving returns |
| `Alloc.Shim.Realloc` | bench/opus-bc-alloc.c:63-70 | counts and forwards, if resolving returns |
| `Alloc.Shim.Free` | bench/opus-bc-alloc.c:72-79 | a pointer into the buffer never reaches the C library, every other one does |
| `Alloc.Shim.Write` | bench/opus-bc-alloc.c:24-26 | a write into one block changes no other block and leaves unserved space zero |
| `Alloc.Play` | bench/opus-bc-alloc.c:28-79 | over every sequence of calls and writes: blocks aligned, disjoint and zero when handed out, no buffer pointer after one from the C library or passed to its free, and the run ends early exactly at the first call that never returns |
| `Publish.CleanIsClean` | bench/publish.py:66-73 | an ok result keeps its status and three figures and must have them; any other keeps exactly the fields that are neither `data` nor name a time, unchanged, and `error` for a missing status |
| `Publish.HasMsMeans` | bench/publish.py:71 | a field names a time exactly when `ms` occurs in its name |
| `Publish.KeepCases` | bench/publish.py:128-145 | the loop keeps the cases not omitted, or meets one whose timing is missing |
| `Publish.CarryRows` | bench/publish.py:166 | the earlier rows by id, omitted ones left out |
| `Publish.List` | bench/publish.py:168-170 | each row of the dictionary once, in strictly increasing order of id |
| `Publish.PublishReport` | bench/publish.py:93-173 | the first check that fails is the error; otherwise header, fixtures and rows of the file written |
| `Publish.AcceptedWhen` | bench/publish.py:93-165 | a report is accepted if and only if it is complete, its ids unique, its omissions explained and known, its ok results have figures, and a merge has a file of the same environment and shared fixtures |
| `Publish.ReportIsPublished` | bench/publish.py:128-170 | every case not omitted appears, over any earlier row, field by field as measured; confirmed exactly when the builtin is ok and its performance is claimed |
| `Publish.MergeKeeps` | bench/publish.py:166-168 | a merge keeps every earlier row neither omitted nor measured again |
| `Publish.RowOrigin` | bench/publish.py:166-170 | there is no row but the report's and the merged file's |
| `Publish.PublicationIsSound` | bench/publish.py:147-170 | publishing keeps the invariant: sorted unique ids, none of them omitted, every row measured in the header's environment on the recorded fixture, no timing in a result that is not ok |
| `Publish.RunIsSound` | bench/publish.py:93-173 | in every run of publications, onto any files, every file is sound after every step |
| `Publish.PublishAll` | bench/publish.py:93-173 | a loop of invocations is such a run |
| `Statistics.MedianBetween` | bench/loadables.py:2693-2694 | minimum, median and maximum are in order, before and after rounding |
| `Statistics.MedianHalves` | bench/loadables.py:2693 | in any ascending order of the samples at least half are on either side of the median, which is midway between the two middle ones |
| `Statistics.RoundIsNearest` | bench/loadables.py:2693-2695 | the rounded figure is a nearest thousandth, the even one of two |
| `Normalize.CopiesDetected` | bench/loadables.py:2482-2492 | for each mode, the exact condition under which fewer copies of an output are normalized differently from more |
| `Normalize.LinesIgnoreOrder` | bench/loadables.py:2485-2486 | two outputs are the same under `lines` if and only if they have the same lines, each as often |
| `Normalize.LinesOfText` | bench/loadables.py:2486 | the lines of a text are the first, up to an LF, a CR or both, and those of what follows |
| `Normalize.FieldsOfText` | bench/loadables.py:2483-2484 | the fields of a text are the first, between whitespace, and those of what follows |
| `Normalize.DigestOfText` | bench/loadables.py:2487-2491 | a digest is the first field of each line, empty for a blank one |
| `Normalize.SilentInvocationsDetected` | bench/loadables.py:2664-2673 | a batch whose later invocations printed nothing fails validation if and only if its mode meets that condition |
| `Normalize.DigestMisses` | bench/loadables.py:2487-2491 | an output whose copies the digest mode cannot count |
| `Validate.CheckFirst` | bench/loadables.py:2643-2654 | accepted are exactly the launched implementations whose first output matches; every other one has its verdict, digests and samples included |
| `Validate.CheckBatches` | bench/loadables.py:2666-2678 | of those stay exactly the ones whose full batch matches; the others get their verdict, sizes and digests included |
| `Validate.TimesCount` | bench/loadables.py:2690-2692 | there are as many samples as rounds if and only if every timed launch succeeded |
| `Validate.PassesFill75Ms` | bench/loadables.py:2660 | a calibrated batch is the least number of invocations that takes 75 ms, cut off at the case's limit, never fewer than three |
| `Validate.NoReference` | bench/loadables.py:2633-2637 | without an expected output every implementation has a verdict and none is ok |
| `Validate.TimeRounds` | bench/loadables.py:2679-2690 | every accepted label is launched once in each round, and failures and samples are recorded |
| `Validate.Conclude` | bench/loadables.py:2691-2695 | exactly the labels with a sample from every round get their figures |
| `Validate.RunCase` | bench/loadables.py:2598-2696 | the reference is the builtin for a self-referenced case, else the host tool, else BusyBox if only it ran; an ok implementation gave the same first output as the reference; past calibration each has exactly one verdict, ok with its figures if and only if first output, batch and timed runs all succeeded |
| `Validate.OkMeans` | bench/loadables.py:2628-2696 | stated on the launches alone: a result is ok if and only if the first output equals the reference's, the batch gave it that many times or left it in the file, and no timed run failed |
| `Validate.NothingToCompare` | bench/loadables.py:2633-2659 | without a reference, or when the probe fails, nothing is ok and nothing is timed |
| `Validate.FirstFailureIs` | bench/loadables.py:2643-2652 | an implementation not launched, or whose first launch failed or differed, ends with the verdict on that |
| `Validate.FirstVerdictSays` | bench/loadables.py:2601-2652 | that verdict: unavailable or not applicable, timeout, error with its return code, or a mismatch with both digests |
| `Validate.BatchFailureIs` | bench/loadables.py:2666-2678 | one whose batch alone differed ends with the mismatch of the wanted and the actual bytes |
| `Validate.BatchMismatchSays` | bench/loadables.py:2674-2678 | that mismatch has the sizes and the digests of the wanted and the actual bytes |
| `Validate.OkFigures` | bench/loadables.py:2690-2695 | the figures of an ok result are those of all its timed runs, in the order they ran, and it has no other fields |
| `Pipeline.TimingsAccepted` | bench/catalog.py:155-157 | cleaned figures meet the catalog's assertion if and only if the rounded minimum is positive |
| `Pipeline.FailureAccepted` | bench/catalog.py:158-159 | a cleaned failure always meets it |
| `Pipeline.MeasuredRowAccepted` | bench/catalog.py:154-159 | every measured row meets the catalog's assertions, if timings round above zero |
| `Pipeline.NoTimingWithoutValidation` | bench/publish.py:66-73 | in every run of publications, a timing in any file comes from a report of that file's environment in whose own launches, under the case's own normalizer, that implementation was validated, and shows the figures of those launches |
| `Pipeline.FileAccepted` | bench/catalog.py:150-160 | in every run of publications the catalog's loop accepts a file if and only if every row has its builtin and fixture listed, was calibrated, and has no timing of zero |
| `Pipeline.UncalibratedIsRefused` | bench/catalog.py:154 | a report with one case whose probe timed out: the publisher accepts it and the catalog's loop fails on the file |
| `Pipeline.PassesAreCalibrated` | bench/loadables.py:2633-2661 | a case records its passes if and only if it had a reference and its probe succeeded |
| `Sections.CountAround` | bench/catalog.py:94 | marker occurrences never straddle another marker |
| `Sections.ReplaceInShape` | bench/catalog.py:92-98 | where there is one section of that name its body alone is replaced |
| `Sections.ReplaceHasShape` | bench/catalog.py:92-98 | conversely every document accepted has that shape |
| `Sections.ReplaceTwice` | bench/catalog.py:92-98 | a second replacement changes nothing if and only if the content holds none of the section's markers |
| `Sections.ReplaceSetsBody` | bench/catalog.py:92-98 | in a document of sections side by side exactly one body changes |
| `Sections.RegenerateSets` | bench/catalog.py:343-449 | the chain of replacements succeeds and sets exactly the bodies it names |
| `Sections.FlatCheckAfterWrite` | bench/catalog.py:457-463 | regenerating a document of sections side by side just after writing it returns it, however often a section is updated |
| `Sections.FlatReplacementsCommute` | bench/catalog.py:343-449 | replacements of different sections side by side both succeed and commute |
| `Regeneration.NestedIsLost` | bench/catalog.py:92-98 | after one section is replaced another can still be replaced if and only if neither of its markers was in the body replaced |
| `Regeneration.NestedExample` | bench/catalog.py:92-98 | a section inside another: each can be replaced, but the inner one not after the outer |
| `Regeneration.ReplacementsCommute` | bench/catalog.py:343-449 | in any document, two replacements that succeed in both orders give the same |
| `Regeneration.ChainSets` | bench/catalog.py:343-449 | in the document written, every section whose markers are still there has the content given for it |
| `Regeneration.CheckAfterWrite` | bench/catalog.py:457-463 | for any document, regenerating what was just written returns it if and only if every section updated still has both markers in it |
| `Regeneration.CheckBeforeWrite` | bench/catalog.py:343-463 | if every section is there once and regenerating succeeds, the check after the write succeeds if and only if no section lies in one that is updated after it |

## Left out

- Launching processes, terminals, sockets, temporary directories and clocks: their results are inputs.
- The C loadables and the drivers that compare one command's output with a stored oracle: no logic of their own here.
- The case table, fixture constants, recorded hashes, CSV columns and Markdown wording: fixed data and presentation.
- `tool_inventory`, load averages and the catalog hash of a published file: copied without being used.
- Alloc.Shim.Calloc: a product or sum that wraps around `size_t` is outside the precondition; `Alloc.FitsIsExact` says what the test then does.
- Alloc.Shim.Bootstrap: a size whose sum wraps around is outside the precondition, as for calloc.
- Alloc.Play: runs with a wrapping calloc or a realloc of a buffer pointer are outside the precondition, as for those calls; the counters are unbounded, not 64 bits wide.
- Alloc.Shim.Realloc: a pointer into the buffer is outside the precondition, the source does not handle it.
- Alloc.Shim.Write: the list of served blocks, and the restriction of writes to them, belong to the model; the source keeps no such list.
- Validate.RunCase: the result of the calibration probe is one input, not tied to the label probed.
- Publish.PublishReport: malformed JSON and missing header fields, which raise in the source, are not represented.
- Pack.BuildPack: lists of 2^32 blobs or more, where packing the count raises, are outside the precondition.
- IndexFile.WriteHistorical: the variant that sorts entries first is modelled by sorting the listing, not separately.
- Rendering.OracleRender: an empty capture name or code, which the source treats as none, is outside the precondition.
- Rotation.OrderAt: the skipping of failed labels in bench/opus-vi.py is not modelled, only the order.
- GitBuild.Build: file contents and edit positions are arbitrary inputs, not the generator's; writing the files of the working directory is left out.
- Highlight.OracleOwner: captures that reach past the data, which would lengthen the owner list in the source, are outside the precondition.
- Rendering.RenderingShowsOwners: codes are non-empty SGR parameters other than a plain reset, as in the source's table; the terminal knows SGR sequences only.

/** Wire framings of the fixtures: side-band pkt-lines and HTTP chunks, and readers that
    take them apart. */
module Framing {
  import opened ByteStrings

  /** data[0:step], data[step:2*step], ... */
  function Pieces(data: Bytes, step: nat): (p: seq<Bytes>)
    requires step > 0
    ensures data != [] ==> p != [] && p[0] == data[..if |data| <= step then |data| else step]
    decreases |data|
  {
    if data == [] then []
    else if |data| <= step then [data]
    else [data[..step]] + Pieces(data[step..], step)
  }

  lemma {:induction false} PiecesConcat(data: Bytes, step: nat)
    requires step > 0
    ensures Concat(Pieces(data, step)) == data
    ensures forall i | 0 <= i < |Pieces(data, step)| :: 0 < |Pieces(data, step)[i]| <= step
    ensures forall i | 0 <= i < |Pieces(data, step)| :: |Pieces(data, step)[i]| <= |data|
    decreases |data|
  {
    if |data| > step {
      PiecesConcat(data[step..], step);
      assert Pieces(data, step)[1..] == Pieces(data[step..], step);
    } else if data != [] {
      assert Concat([data]) == data + Concat([]);
    }
  }

  // ---- pkt-lines -----------------------------------------------------------------------

  /** '%04x' % n */
  function Hex4(n: nat): (h: Bytes)
    ensures AllHex(h)
  {
    HexRoundTrip(n);
    if |Hex(n)| >= 4 then Hex(n) else ZeroDigits(4 - |Hex(n)|) + Hex(n)
  }

  function ZeroDigits(k: nat): (z: Bytes)
    ensures |z| == k && AllHex(z)
  {
    if k == 0 then [] else [48] + ZeroDigits(k - 1)
  }

  function PktLine(payload: Bytes): Bytes {
    Hex4(|payload| + 4) + payload
  }

  const FLUSH: Bytes := [48, 48, 48, 48]
  const NAK: Bytes := Ascii("NAK\n")
  const PROGRESS: Bytes := Ascii("progress: done\n")

  datatype Pkt = Flush(rest: Bytes) | Line(payload: Bytes, rest: Bytes) | Bad

  /** The longest line a receiver takes. The format allows 65520; four digits can say 65535. */
  type Limit = n: int | 20 <= n <= 0xffff witness PKT_MAX

  const PKT_MAX := 65520

  /** The next pkt-line: four digits of length, which counts itself; 0000 is a flush. */
  function ReadPkt(b: Bytes, limit: Limit): (r: Pkt)
    ensures r.Line? ==> |r.rest| < |b|
  {
    if |b| < 4 || !AllHex(b[..4]) then Bad else
    var n := HexValue(b[..4]);
    if n == 0 then Flush(b[4..])
    else if n < 4 || n > limit || n > |b| then Bad
    else Line(b[4..n], b[n..])
  }

  lemma {:induction false} HexLength(n: nat, k: nat)
    requires k >= 1
    ensures |Hex(n)| >= 1 && (|Hex(n)| <= k <==> n < Power(16, k))
  {
    if n >= 16 {
      HexLength(n / 16, if k == 1 then 1 else k - 1);
    }
  }

  lemma HexLengths(n: nat)
    ensures |Hex(n)| >= 1 && (|Hex(n)| <= 4 <==> n < 0x1_0000)
  {
    HexLength(n, 4);
    assert Power(16, 1) == 16 && Power(16, 2) == 256 && Power(16, 3) == 4096 && Power(16, 4) == 0x1_0000;
  }

  lemma {:induction false} LeadingZeros(k: nat, h: Bytes)
    requires AllHex(h)
    ensures AllHex(ZeroDigits(k) + h) && HexValue(ZeroDigits(k) + h) == HexValue(h)
    decreases k, |h|
  {
    var s := ZeroDigits(k) + h;
    if h != [] {
      LeadingZeros(k, h[..|h|-1]);
      assert s[..|s|-1] == ZeroDigits(k) + h[..|h|-1];
    } else if k > 0 {
      LeadingZeros(k - 1, []);
      assert s == ZeroDigits(k);
      ZerosAreZero(k);
    }
  }

  lemma {:induction false} ZerosAreZero(k: nat)
    ensures HexValue(ZeroDigits(k)) == 0
    ensures k > 0 ==> ZeroDigits(k)[..k-1] == ZeroDigits(k - 1) && ZeroDigits(k)[k-1] == 48
  {
    if k > 0 {
      ZerosAreZero(k - 1);
      if k > 1 {
        assert ZeroDigits(k)[..k-1] == [48] + ZeroDigits(k - 1)[..k-2];
      }
    }
  }

  lemma Hex4Value(n: nat)
    requires n < 0x1_0000
    ensures |Hex4(n)| == 4 && HexValue(Hex4(n)) == n
  {
    HexLengths(n);
    HexRoundTrip(n);
    LeadingZeros(4 - |Hex(n)|, Hex(n));
    assert ZeroDigits(0) + Hex(n) == Hex(n);
  }

  /** A line whose length is within the limit reads back, and is never taken for a flush. */
  lemma PktRoundTrip(payload: Bytes, rest: Bytes, limit: Limit)
    requires |payload| + 4 <= limit
    ensures ReadPkt(PktLine(payload) + rest, limit) == Line(payload, rest)
  {
    var b, n := PktLine(payload) + rest, |payload| + 4;
    Hex4Value(n);
    assert b[..4] == Hex4(n) && b[4..n] == payload && b[n..] == rest;
  }

  // ---- Side-band ---------------------------------------------------------------------------

  function DataFrames(pieces: seq<Bytes>): Bytes {
    if pieces == [] then [] else PktLine([1] + pieces[0]) + DataFrames(pieces[1..])
  }

  /** A NAK, the pack in channel-1 frames, a channel-2 progress line and a flush. */
  function SideBand(pack: Bytes, step: nat): Bytes
    requires step > 0
  {
    PktLine(NAK) + (DataFrames(Pieces(pack, step)) + (PktLine([2] + PROGRESS) + FLUSH))
  }

  lemma {:induction false} DataFramesSnoc(pieces: seq<Bytes>, p: Bytes)
    ensures DataFrames(pieces + [p]) == DataFrames(pieces) + PktLine([1] + p)
  {
    if pieces == [] {
      assert [p][1..] == [];
    } else {
      var first := PktLine([1] + pieces[0]);
      calc {
        DataFrames(pieces + [p]);
        { assert (pieces + [p])[1..] == pieces[1..] + [p]; }
        first + DataFrames(pieces[1..] + [p]);
        { DataFramesSnoc(pieces[1..], p); }
        first + (DataFrames(pieces[1..]) + PktLine([1] + p));
        { Assoc(first, DataFrames(pieces[1..]), PktLine([1] + p)); }
        DataFrames(pieces) + PktLine([1] + p);
      }
    }
  }

  /** The builder's loop over offsets. */
  method WriteSideBand(pack: Bytes, step: nat) returns (band: Bytes)
    requires step > 0
    ensures band == SideBand(pack, step)
  {
    var frames: Bytes, off := [], 0;
    ghost var done: seq<Bytes> := [];
    assert pack[0..] == pack;
    while off < |pack|
      invariant 0 <= off && done + Pieces(pack[if off < |pack| then off else |pack|..], step) == Pieces(pack, step)
      invariant frames == DataFrames(done)
    {
      var end := if off + step < |pack| then off + step else |pack|;
      var piece := pack[off..end];
      DataFramesSnoc(done, piece);
      PiecesStep(pack, off, step);
      Assoc(done, [piece], Pieces(pack[end..], step));
      frames := frames + PktLine([1] + piece);
      done := done + [piece];
      off := off + step;
    }
    assert done + [] == done;
    band := PktLine(NAK) + (frames + (PktLine([2] + PROGRESS) + FLUSH));
  }

  lemma PiecesStep(data: Bytes, off: nat, step: nat)
    requires step > 0 && off < |data|
    ensures var end := if off + step < |data| then off + step else |data|;
      Pieces(data[off..], step) == [data[off..end]] + Pieces(data[end..], step)
  {
    var rest := data[off..];
    if off + step < |data| {
      assert rest[step..] == data[off+step..] && rest[..step] == data[off..off+step];
    } else {
      assert data[|data|..] == [];
      assert rest == data[off..|data|];
    }
  }

  /** Channel 1 carries the pack, channel 2 is shown to the user, anything else is an
      error; a flush ends the stream. */
  function Demux(b: Bytes, limit: Limit): Option<Bytes>
    decreases |b|
  {
    match ReadPkt(b, limit)
    case Bad => None
    case Flush(rest) => if rest == [] then Some([]) else None
    case Line(p, rest) =>
      if p == [] then None
      else if p[0] == 1 then
        (match Demux(rest, limit)
         case None => None
         case Some(pack) => Some(p[1..] + pack))
      else if p[0] == 2 then Demux(rest, limit)
      else None
  }

  function Receive(b: Bytes, limit: Limit): Option<Bytes> {
    match ReadPkt(b, limit)
    case Line(p, rest) => if p == NAK then Demux(rest, limit) else None
    case _ => None
  }

  lemma {:induction false} DemuxFrames(pieces: seq<Bytes>, tail: Bytes, last: Bytes, limit: Limit)
    requires forall i | 0 <= i < |pieces| :: |pieces[i]| + 5 <= limit
    requires Demux(tail, limit) == Some(last)
    ensures Demux(DataFrames(pieces) + tail, limit) == Some(Concat(pieces) + last)
  {
    if pieces == [] {
      assert [] + tail == tail && [] + last == last;
    } else {
      var p, rest := [1] + pieces[0], DataFrames(pieces[1..]) + tail;
      DemuxFrames(pieces[1..], tail, last, limit);
      PktRoundTrip(p, rest, limit);
      Assoc(PktLine(p), DataFrames(pieces[1..]), tail);
      assert p[1..] == pieces[0];
      Assoc(pieces[0], Concat(pieces[1..]), last);
    }
  }

  lemma DemuxTail(limit: Limit)
    ensures Demux(PktLine([2] + PROGRESS) + FLUSH, limit) == Some([])
  {
    PktRoundTrip([2] + PROGRESS, FLUSH, limit);
    FlushReads(limit);
  }

  lemma FlushReads(limit: Limit)
    ensures ReadPkt(FLUSH, limit) == Flush([])
  {
    FlushIsZeros();
    ZerosAreZero(4);
    assert FLUSH[..4] == FLUSH && FLUSH[4..] == [];
  }

  lemma FlushIsZeros()
    ensures FLUSH == ZeroDigits(4)
  {
    assert ZeroDigits(4) == [48] + ZeroDigits(3);
    assert ZeroDigits(3) == [48] + ZeroDigits(2);
    assert ZeroDigits(2) == [48] + ZeroDigits(1);
    assert ZeroDigits(1) == [48] + ZeroDigits(0);
  }

  /** A frame past the limit is refused; one too long for four digits is read, at best, as a
      shorter one whose channel is a digit. */
  lemma LongFrameIsRefused(piece: Bytes, tail: Bytes, limit: Limit)
    requires |piece| + 5 > limit
    ensures Demux(PktLine([1] + piece) + tail, limit) == None
  {
    var n := |piece| + 5;
    if n < 0x1_0000 {
      Hex4Value(n);
      assert (PktLine([1] + piece) + tail)[..4] == Hex4(n);
    } else {
      TooManyDigits(piece, tail, limit);
    }
  }

  lemma TooManyDigits(piece: Bytes, tail: Bytes, limit: Limit)
    requires |piece| + 5 >= 0x1_0000
    ensures Demux(PktLine([1] + piece) + tail, limit) == None
  {
    var n := |piece| + 5;
    var b, h := PktLine([1] + piece) + tail, Hex(n);
    HexLengths(n);
    HexRoundTrip(n);
    assert b[..4] == h[..4] && b[4] == h[4];
    FourDigits(h[..4]);
    DigitChannel(b, limit);
  }

  lemma DigitChannel(b: Bytes, limit: Limit)
    requires |b| > 4 && AllHex(b[..4]) && HexValue(b[..4]) > 4 && b[4] > 2
    ensures Demux(b, limit) == None
  {
    var v := HexValue(b[..4]);
    if v <= limit && v <= |b| {
      assert b[4..v][0] == b[4];
    }
  }

  lemma FourDigits(h: Bytes)
    requires AllHex(h) && |h| == 4 && h[0] != 48
    ensures 4096 <= HexValue(h) < 0x1_0000
  {
    var a, b, c := h[..3], h[..2], h[..1];
    assert a[..2] == b && b[..1] == c && c[..0] == [];
    assert HexValue(c) == HexDigitValue(h[0]) >= 1;
    assert HexValue(b) == HexValue(c) * 16 + HexDigitValue(h[1]);
    assert HexValue(a) == HexValue(b) * 16 + HexDigitValue(h[2]);
    assert HexValue(h) == HexValue(a) * 16 + HexDigitValue(h[3]);
  }

  /** A receiver with that limit gets exactly the pack, if and only if a full frame, its
      length and channel included, stays within it. */
  lemma SideBandDelivers(pack: Bytes, step: nat, limit: Limit)
    requires step > 0
    ensures Receive(SideBand(pack, step), limit) == Some(pack)
       <==> (if step < |pack| then step else |pack|) + 5 <= limit
  {
    var pieces := Pieces(pack, step);
    var tail := PktLine([2] + PROGRESS) + FLUSH;
    PktRoundTrip(NAK, DataFrames(pieces) + tail, limit);
    PiecesConcat(pack, step);
    if (if step < |pack| then step else |pack|) + 5 <= limit {
      DemuxTail(limit);
      DemuxFrames(pieces, tail, [], limit);
      assert pack + [] == pack;
    } else {
      Assoc(PktLine([1] + pieces[0]), DataFrames(pieces[1..]), tail);
      LongFrameIsRefused(pieces[0], DataFrames(pieces[1..]) + tail, limit);
    }
  }

  // ---- HTTP chunks ---------------------------------------------------------------------------

  const CRLF: Bytes := [CR, LF]

  function Chunk(piece: Bytes): Bytes {
    Hex(|piece|) + CRLF + (piece + CRLF)
  }

  function ChunkFrames(pieces: seq<Bytes>): Bytes {
    if pieces == [] then [] else Chunk(pieces[0]) + ChunkFrames(pieces[1..])
  }

  const LAST_CHUNK: Bytes := [48, CR, LF, CR, LF]

  function Chunked(body: Bytes, step: nat): Bytes
    requires step > 0
  {
    ChunkFrames(Pieces(body, step)) + LAST_CHUNK
  }

  /** Size line, data, CRLF, until a size of zero and its own CRLF. */
  function ReadChunks(b: Bytes): Option<Bytes>
    decreases |b|
  {
    match Cut(b, CR)
    case None => None
    case Some(c) =>
      if c.0 == [] || !AllHex(c.0) || c.1 == [] || c.1[0] != LF then None else
      var n, rest := HexValue(c.0), c.1[1..];
      if n == 0 then (if rest == CRLF then Some([]) else None)
      else if |rest| < n + 2 || rest[n..n+2] != CRLF then None
      else match ReadChunks(rest[n+2..])
        case None => None
        case Some(more) => Some(rest[..n] + more)
  }

  lemma HexHasNoCr(n: nat)
    ensures CR !in Hex(n) && Hex(n) != [] && AllHex(Hex(n)) && HexValue(Hex(n)) == n
  {
    HexRoundTrip(n);
  }

  lemma ChunkReads(piece: Bytes, tail: Bytes, more: Bytes)
    requires piece != [] && ReadChunks(tail) == Some(more)
    ensures ReadChunks(Chunk(piece) + tail) == Some(piece + more)
  {
    var n := |piece|;
    var rest := piece + CRLF + tail;
    HexHasNoCr(n);
    CutAt(Hex(n), CR, [LF] + rest);
    ChunkLayout(Hex(n), piece, tail);
    assert ([LF] + rest)[1..] == rest;
  }

  lemma ChunkLayout(size: Bytes, piece: Bytes, tail: Bytes)
    ensures var rest, n := piece + CRLF + tail, |piece|;
      && size + CRLF + (piece + CRLF) + tail == size + [CR] + ([LF] + rest)
      && rest[..n] == piece && rest[n..n+2] == CRLF && rest[n+2..] == tail
  {
    Assoc(size + CRLF, piece + CRLF, tail);
    assert size + CRLF == size + [CR] + [LF];
    Assoc(size + [CR], [LF], piece + CRLF + tail);
  }

  lemma {:induction false} ChunksRead(pieces: seq<Bytes>)
    requires forall i | 0 <= i < |pieces| :: pieces[i] != []
    ensures ReadChunks(ChunkFrames(pieces) + LAST_CHUNK) == Some(Concat(pieces))
  {
    if pieces == [] {
      assert [] + LAST_CHUNK == LAST_CHUNK;
      CutAt([48], CR, [LF, CR, LF]);
      assert [48] + [CR] + [LF, CR, LF] == LAST_CHUNK;
      assert [48][..0] == [];
      assert HexValue([48]) == 0;
      assert [LF, CR, LF][1..] == CRLF;
    } else {
      ChunksRead(pieces[1..]);
      Assoc(Chunk(pieces[0]), ChunkFrames(pieces[1..]), LAST_CHUNK);
      ChunkReads(pieces[0], ChunkFrames(pieces[1..]) + LAST_CHUNK, Concat(pieces[1..]));
    }
  }

  /** For every body and step the chunks carry exactly the body. */
  lemma ChunkedDelivers(body: Bytes, step: nat)
    requires step > 0
    ensures ReadChunks(Chunked(body, step)) == Some(body)
  {
    PiecesConcat(body, step);
    ChunksRead(Pieces(body, step));
  }
}

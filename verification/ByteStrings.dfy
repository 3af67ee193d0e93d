/** Byte strings, the numerals and fixed-width integers the fixtures write into them,
    and the order in which Python compares them. */
module ByteStrings {

  type byte = x: int | 0 <= x < 256
  type Bytes = seq<byte>

  datatype Option<+T> = None | Some(value: T)

  const NUL: byte := 0
  const LF: byte := 10
  const CR: byte := 13
  const SP: byte := 32
  const SLASH: byte := 47
  const GT: byte := 62

  /** The bytes of an ASCII literal. */
  function Ascii(s: string): Bytes
    requires forall i | 0 <= i < |s| :: s[i] < 128 as char
  {
    seq(|s|, i requires 0 <= i < |s| => s[i] as int)
  }

  lemma Assoc<T>(a: seq<T>, b: seq<T>, c: seq<T>)
    ensures (a + b) + c == a + (b + c)
  {}

  /** Concatenation of a list of byte strings, Python's b''.join. */
  function Concat(parts: seq<Bytes>): Bytes {
    if parts == [] then [] else parts[0] + Concat(parts[1..])
  }

  lemma {:induction false} ConcatAppend(a: seq<Bytes>, b: seq<Bytes>)
    ensures Concat(a + b) == Concat(a) + Concat(b)
  {
    if a == [] {
      assert a + b == b;
    } else {
      var rest := a[1..];
      calc {
        Concat(a + b);
        { assert (a + b)[1..] == rest + b; }
        a[0] + Concat(rest + b);
        { ConcatAppend(rest, b); }
        a[0] + (Concat(rest) + Concat(b));
        { Assoc(a[0], Concat(rest), Concat(b)); }
        Concat(a) + Concat(b);
      }
    }
  }

  lemma ConcatSnoc(a: seq<Bytes>, x: Bytes)
    ensures Concat(a + [x]) == Concat(a) + x
  {
    ConcatAppend(a, [x]);
    assert Concat([x]) == x + Concat([]);
  }

  /** Python's `s * count`. */
  function Repeat(s: Bytes, count: nat): Bytes {
    if count == 0 then [] else s + Repeat(s, count - 1)
  }

  lemma {:induction false} RepeatSnoc(s: Bytes, count: nat)
    ensures Repeat(s, count) + s == Repeat(s, count + 1)
  {
    if count > 0 {
      RepeatSnoc(s, count - 1);
      Assoc(s, Repeat(s, count - 1), s);
    } else {
      assert [] + s == s + [];
    }
  }

  /** Python's partition at the first `b`; None when `b` does not occur. */
  function Cut(s: Bytes, b: byte): (r: Option<(Bytes, Bytes)>)
    ensures r.Some? ==> |s| == |r.value.0| + 1 + |r.value.1|
  {
    if s == [] then None
    else if s[0] == b then Some(([], s[1..]))
    else match Cut(s[1..], b)
      case None => None
      case Some(r) => Some(([s[0]] + r.0, r.1))
  }

  lemma {:induction false} CutAt(head: Bytes, b: byte, tail: Bytes)
    requires b !in head
    ensures Cut(head + [b] + tail, b) == Some((head, tail))
  {
    var s := head + [b] + tail;
    if head == [] {
      assert s[1..] == tail;
    } else {
      CutAt(head[1..], b, tail);
      assert s[1..] == head[1..] + [b] + tail;
      assert head == [head[0]] + head[1..];
    }
  }

  /** Cut undoes itself: what it returns is the only split at a first `b`. */
  lemma {:induction false} CutParts(s: Bytes, b: byte)
    ensures Cut(s, b).None? <==> b !in s
    ensures Cut(s, b).Some? ==> b !in Cut(s, b).value.0 && s == Cut(s, b).value.0 + [b] + Cut(s, b).value.1
  {
    if s != [] {
      CutParts(s[1..], b);
      assert s == [s[0]] + s[1..];
    }
  }

  // ---- Order -----------------------------------------------------------------

  /** Python's `a < b` on bytes: lexicographic, a proper prefix first. */
  predicate Less(a: Bytes, b: Bytes) {
    b != [] && (a == [] || a[0] < b[0] || (a[0] == b[0] && Less(a[1..], b[1..])))
  }

  predicate Leq(a: Bytes, b: Bytes) {
    a == b || Less(a, b)
  }

  lemma {:induction false} LessTrichotomy(a: Bytes, b: Bytes)
    ensures Less(a, b) || a == b || Less(b, a)
    ensures !(Less(a, b) && Less(b, a))
    ensures !Less(a, a)
  {
    if a != [] && b != [] {
      LessTrichotomy(a[1..], b[1..]);
      LessTrichotomy(a[1..], a[1..]);
      assert a == [a[0]] + a[1..] && b == [b[0]] + b[1..];
    } else if a != [] {
      LessTrichotomy(a[1..], a[1..]);
    }
  }

  lemma {:induction false} LessTransitive(a: Bytes, b: Bytes, c: Bytes)
    requires Less(a, b) && Less(b, c)
    ensures Less(a, c)
  {
    if a != [] && a[0] == b[0] && b[0] == c[0] {
      LessTransitive(a[1..], b[1..], c[1..]);
    }
  }

  /** Strings compare by their first difference: past a common start of k bytes the smaller
      has ended or has the smaller byte. */
  lemma {:induction false} LessAtFirstDifference(a: Bytes, b: Bytes)
    ensures Less(a, b)
       <==> exists k :: 0 <= k <= |a| && k < |b| && a[..k] == b[..k] && (k == |a| || a[k] < b[k])
  {
    if Less(a, b) {
      if a == [] || a[0] < b[0] {
        assert a[..0] == b[..0];
      } else {
        LessAtFirstDifference(a[1..], b[1..]);
        var k :| 0 <= k <= |a[1..]| && k < |b[1..]| && a[1..][..k] == b[1..][..k]
              && (k == |a[1..]| || a[1..][k] < b[1..][k]);
        assert a[..k + 1] == [a[0]] + a[1..][..k] && b[..k + 1] == [b[0]] + b[1..][..k];
      }
    }
    forall k | 0 <= k <= |a| && k < |b| && a[..k] == b[..k] && (k == |a| || a[k] < b[k])
      ensures Less(a, b)
    {
      DifferenceDecides(a, b, k);
    }
  }

  lemma {:induction false} DifferenceDecides(a: Bytes, b: Bytes, k: nat)
    requires k <= |a| && k < |b| && a[..k] == b[..k] && (k == |a| || a[k] < b[k])
    ensures Less(a, b)
  {
    if k > 0 {
      assert a[0] == a[..k][0] && b[0] == b[..k][0];
      assert a[1..][..k - 1] == a[..k][1..] && b[1..][..k - 1] == b[..k][1..];
      DifferenceDecides(a[1..], b[1..], k - 1);
    }
  }

  /** More bytes on the larger side change nothing; on the smaller side they change nothing
      either, unless it is a prefix of the larger. */
  lemma {:induction false} LessExtends(a: Bytes, b: Bytes, x: Bytes, y: Bytes)
    requires Less(a, b) && (x == [] || !(a <= b))
    ensures Less(a + x, b + y)
  {
    assert (b + y)[0] == b[0];
    if a == [] {
      assert a + x == x;
    } else {
      assert (a + x)[0] == a[0];
      if a[0] == b[0] {
        assert a[1..] <= b[1..] ==> a <= b;
        LessExtends(a[1..], b[1..], x, y);
        assert (a + x)[1..] == a[1..] + x && (b + y)[1..] == b[1..] + y;
      }
    }
  }

  /** A common front does not change the order. */
  lemma {:induction false} LessBehind(front: Bytes, a: Bytes, b: Bytes)
    requires Less(a, b)
    ensures Less(front + a, front + b)
  {
    if front == [] {
      assert front + a == a && front + b == b;
    } else {
      LessBehind(front[1..], a, b);
      assert (front + a)[1..] == front[1..] + a && (front + b)[1..] == front[1..] + b;
    }
  }

  lemma LeqIsTotalOrder()
    ensures forall a: Bytes, b: Bytes :: Leq(a, b) || Leq(b, a)
    ensures forall a: Bytes, b: Bytes :: Leq(a, b) && Leq(b, a) ==> a == b
    ensures forall a: Bytes, b: Bytes, c: Bytes :: Leq(a, b) && Leq(b, c) ==> Leq(a, c)
  {
    forall a: Bytes, b: Bytes
      ensures Leq(a, b) || Leq(b, a)
      ensures Leq(a, b) && Leq(b, a) ==> a == b
    {
      LessTrichotomy(a, b);
    }
    forall a: Bytes, b: Bytes, c: Bytes | Leq(a, b) && Leq(b, c)
      ensures Leq(a, c)
    {
      if Less(a, b) && Less(b, c) {
        LessTransitive(a, b, c);
      }
    }
  }

  // ---- Decimal ---------------------------------------------------------------

  predicate IsDigit(b: byte) {
    48 <= b <= 57
  }

  predicate AllDigits(s: Bytes) {
    forall i | 0 <= i < |s| :: IsDigit(s[i])
  }

  /** str(n).encode() */
  function Dec(n: nat): Bytes {
    if n < 10 then [48 + n] else Dec(n / 10) + [48 + n % 10]
  }

  function DecValue(s: Bytes): nat
    requires AllDigits(s)
  {
    if s == [] then 0 else DecValue(s[..|s|-1]) * 10 + (s[|s|-1] - 48)
  }

  /** The numerals Dec writes: no leading zero, never empty. */
  predicate IsNumeral(s: Bytes) {
    AllDigits(s) && s != [] && (|s| == 1 || s[0] != 48)
  }

  lemma {:induction false} DecRoundTrip(n: nat)
    ensures IsNumeral(Dec(n)) && DecValue(Dec(n)) == n
    ensures n > 0 ==> Dec(n)[0] != 48
  {
    if n >= 10 {
      DecRoundTrip(n / 10);
      assert Dec(n)[..|Dec(n)|-1] == Dec(n / 10);
    } else {
      assert DecValue([]) == 0;
      assert Dec(n)[..0] == [];
    }
  }

  lemma {:induction false} NumeralRoundTrip(s: Bytes)
    requires IsNumeral(s)
    ensures Dec(DecValue(s)) == s
    ensures |s| > 1 ==> DecValue(s) >= 10
    ensures s[0] != 48 ==> DecValue(s) > 0
  {
    var t := s[..|s|-1];
    assert s == t + [s[|s|-1]];
    if |s| > 1 {
      NumeralRoundTrip(t);
    } else {
      assert t == [];
    }
  }

  function Power(base: nat, k: nat): (p: nat)
    ensures base > 0 ==> p > 0
  {
    if k == 0 then 1 else base * Power(base, k - 1)
  }

  lemma Horner(base: nat, first: int, weight: nat, rest: int, last: int)
    ensures (first * weight + rest) * base + last == first * (base * weight) + (rest * base + last)
  {}

  /** The first digit weighs most. */
  lemma {:induction false} DecLeads(s: Bytes)
    requires AllDigits(s) && s != []
    ensures DecValue(s) == (s[0] - 48) * Power(10, |s| - 1) + DecValue(s[1..])
  {
    var n, last: int := |s| - 1, s[|s|-1] - 48;
    if n > 0 {
      var first: int, rest := s[0] - 48, DecValue(s[1..n]);
      DecLeads(s[..n]);
      assert s[..n][1..] == s[1..n] && s[1..][..n-1] == s[1..n];
      Horner(10, first, Power(10, n - 1), rest, last);
    } else {
      assert s[..0] == [] && s[1..] == [];
    }
  }

  // ---- Hexadecimal -------------------------------------------------------------

  predicate IsHexDigit(b: byte) {
    48 <= b <= 57 || 97 <= b <= 102
  }

  function HexDigit(d: int): (b: byte)
    requires 0 <= d < 16
    ensures IsHexDigit(b) && HexDigitValue(b) == d
  {
    if d < 10 then 48 + d else 87 + d
  }

  function HexDigitValue(b: byte): (d: int)
    requires IsHexDigit(b)
    ensures 0 <= d < 16
  {
    if b <= 57 then b - 48 else b - 87
  }

  predicate AllHex(s: Bytes) {
    forall i | 0 <= i < |s| :: IsHexDigit(s[i])
  }

  /** '%x' % n */
  function Hex(n: nat): Bytes {
    if n < 16 then [HexDigit(n)] else Hex(n / 16) + [HexDigit(n % 16)]
  }

  function HexValue(s: Bytes): nat
    requires AllHex(s)
  {
    if s == [] then 0 else HexValue(s[..|s|-1]) * 16 + HexDigitValue(s[|s|-1])
  }

  lemma {:induction false} HexRoundTrip(n: nat)
    ensures Hex(n) != [] && AllHex(Hex(n)) && HexValue(Hex(n)) == n
    ensures n > 0 ==> Hex(n)[0] != 48
  {
    if n >= 16 {
      HexRoundTrip(n / 16);
      assert Hex(n)[..|Hex(n)|-1] == Hex(n / 16);
    } else {
      assert HexValue([]) == 0;
      assert Hex(n)[..0] == [];
    }
  }

  /** bytes.hex(): two digits a byte. */
  function HexOfBytes(s: Bytes): (h: Bytes)
    ensures |h| == 2 * |s| && AllHex(h)
  {
    if s == [] then [] else [HexDigit(s[0] / 16), HexDigit(s[0] % 16)] + HexOfBytes(s[1..])
  }

  /** bytes.fromhex() on an even number of digits. */
  function BytesOfHex(h: Bytes): (s: Bytes)
    requires AllHex(h) && |h| % 2 == 0
    ensures 2 * |s| == |h|
  {
    if h == [] then []
    else [HexDigitValue(h[0]) * 16 + HexDigitValue(h[1])] + BytesOfHex(h[2..])
  }

  lemma {:induction false} HexOfBytesRoundTrip(s: Bytes)
    ensures BytesOfHex(HexOfBytes(s)) == s
  {
    if s != [] {
      HexOfBytesRoundTrip(s[1..]);
      assert HexOfBytes(s)[2..] == HexOfBytes(s[1..]);
    }
  }

  /** Two lower-case digits for each byte, the high one first. */
  lemma {:induction false} HexOfBytesAt(s: Bytes, i: nat)
    requires i < |s|
    ensures HexValue(HexOfBytes(s)[2 * i..2 * i + 2]) == s[i]
    decreases i
  {
    var h := HexOfBytes(s);
    if i > 0 {
      HexOfBytesAt(s[1..], i - 1);
      assert h[2..] == HexOfBytes(s[1..]);
      assert h[2 * i..2 * i + 2] == h[2..][2 * (i - 1)..2 * (i - 1) + 2];
    } else {
      HexPair(h[0], h[1]);
      assert h[..2] == [h[0], h[1]];
    }
  }

  lemma HexPair(a: byte, b: byte)
    requires IsHexDigit(a) && IsHexDigit(b)
    ensures HexValue([a, b]) == HexDigitValue(a) * 16 + HexDigitValue(b)
  {
    assert [a, b][..1] == [a] && [a][..0] == [];
    assert HexValue([a]) == HexDigitValue(a);
  }

  /** The first digit weighs most. */
  lemma {:induction false} HexLeads(s: Bytes)
    requires AllHex(s) && s != []
    ensures HexValue(s) == HexDigitValue(s[0]) * Power(16, |s| - 1) + HexValue(s[1..])
  {
    var n, last := |s| - 1, HexDigitValue(s[|s|-1]);
    if n > 0 {
      var first, rest := HexDigitValue(s[0]), HexValue(s[1..n]);
      HexLeads(s[..n]);
      assert s[..n][1..] == s[1..n] && s[1..][..n-1] == s[1..n];
      Horner(16, first, Power(16, n - 1), rest, last);
    } else {
      assert s[..0] == [] && s[1..] == [];
    }
  }

  // ---- Big-endian words --------------------------------------------------------

  /** struct.pack('>H', n) */
  function Be16(n: int): (b: Bytes)
    requires 0 <= n < 0x1_0000
    ensures |b| == 2
  {
    [n / 256, n % 256]
  }

  function FromBe16(b: Bytes): (n: int)
    requires |b| == 2
    ensures 0 <= n < 0x1_0000
  {
    var high: int, low: int := b[0], b[1];
    high * 256 + low
  }

  /** struct.pack('>I', n) */
  function Be32(n: int): (b: Bytes)
    requires 0 <= n < 0x1_0000_0000
    ensures |b| == 4 && FromBe32(b) == n
  {
    Be16(n / 0x1_0000) + Be16(n % 0x1_0000)
  }

  function FromBe32(b: Bytes): (n: int)
    requires |b| == 4
    ensures 0 <= n < 0x1_0000_0000
  {
    FromBe16(b[..2]) * 0x1_0000 + FromBe16(b[2..])
  }

  type Word = x: int | 0 <= x < 0x1_0000_0000

  predicate Words(ws: seq<nat>) {
    forall i | 0 <= i < |ws| :: ws[i] < 0x1_0000_0000
  }

  /** Words one after the other, each in four bytes. */
  function WordBytes(ws: seq<nat>): (b: Bytes)
    requires Words(ws)
    ensures |b| == 4 * |ws|
  {
    if ws == [] then [] else Be32(ws[0]) + WordBytes(ws[1..])
  }

  /** Reads `count` words. */
  function ReadWords(b: Bytes, count: nat): (r: Option<(seq<nat>, Bytes)>)
    ensures r.Some? ==> |r.value.0| == count
  {
    if count == 0 then Some(([], b))
    else if |b| < 4 then None
    else match ReadWords(b[4..], count - 1)
      case None => None
      case Some(r) => Some(([FromBe32(b[..4])] + r.0, r.1))
  }

  lemma {:induction false} WordsRoundTrip(ws: seq<nat>, rest: Bytes)
    requires Words(ws)
    ensures ReadWords(WordBytes(ws) + rest, |ws|) == Some((ws, rest))
  {
    if ws == [] {
      assert WordBytes(ws) + rest == rest;
    } else {
      var b := WordBytes(ws) + rest;
      WordsRoundTrip(ws[1..], rest);
      Assoc(Be32(ws[0]), WordBytes(ws[1..]), rest);
      assert ws == [ws[0]] + ws[1..];
      assert b[..4] == Be32(ws[0]) && b[4..] == WordBytes(ws[1..]) + rest;
    }
  }

  /** Most significant byte first. */
  lemma BigEndian(b: Bytes)
    requires |b| == 4
    ensures var b0: int, b1: int, b2: int, b3: int := b[0], b[1], b[2], b[3];
      FromBe32(b) == b0 * 0x100_0000 + b1 * 0x1_0000 + b2 * 256 + b3
  {
    var high, low := b[..2], b[2..];
    assert low[0] == b[2] && low[1] == b[3];
  }

  /** The bytes of `part` are at `at`. */
  predicate Has(b: Bytes, at: nat, part: Bytes) {
    at + |part| <= |b| && b[at..at + |part|] == part
  }

  lemma {:induction false} WordAt(ws: seq<nat>, k: nat)
    requires Words(ws) && k < |ws|
    ensures Has(WordBytes(ws), 4 * k, Be32(ws[k]))
  {
    if k > 0 {
      WordAt(ws[1..], k - 1);
      HasAfter(Be32(ws[0]), WordBytes(ws[1..]), 4 * (k - 1), Be32(ws[k]));
    }
  }

  lemma HasAfter(front: Bytes, b: Bytes, at: nat, part: Bytes)
    requires Has(b, at, part)
    ensures Has(front + b, |front| + at, part)
  {
    assert (front + b)[|front| + at..|front| + at + |part|] == b[at..at + |part|];
  }

  lemma HasWithin(b: Bytes, at: nat, part: Bytes, i: nat, piece: Bytes)
    requires Has(b, at, part) && Has(part, i, piece)
    ensures Has(b, at + i, piece)
  {
    var s := b[at + i..at + i + |piece|];
    forall k | 0 <= k < |piece|
      ensures s[k] == piece[k]
    {
      assert part[i..i + |piece|][k] == piece[k];
      assert b[at..at + |part|][i + k] == part[i + k];
    }
  }
}

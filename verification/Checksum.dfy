/** The IPv4 header checksum loop, in one's-complement arithmetic. */
module Checksum {
  import opened ByteStrings

  predicate IsHeader(h: Bytes) {
    |h| == 20
  }

  /** Sum of the big-endian words from byte `at` on. */
  function WordSum(h: Bytes, at: nat): (s: nat)
    requires at <= |h| && |h| % 2 == 0 && at % 2 == 0
    ensures s <= (|h| - at) / 2 * 0xffff
    decreases |h| - at
  {
    if at == |h| then 0 else FromBe16(h[at..at+2]) + WordSum(h, at + 2)
  }

  /** One pass: low half plus high half. */
  function FoldOnce(x: nat): nat {
    x % 0x1_0000 + x / 0x1_0000
  }

  /** End-around-carry value: what folding until 16 bits remain must give. */
  ghost predicate IsFold(x: nat, r: int) {
    && 0 <= r <= 0xffff
    && r % 0xffff == x % 0xffff
    && (r == 0 <==> x == 0)
  }

  lemma FoldIsUnique(x: nat, a: int, b: int)
    requires IsFold(x, a) && IsFold(x, b)
    ensures a == b
  {}

  lemma FoldKeepsResidue(x: nat)
    ensures FoldOnce(x) % 0xffff == x % 0xffff
    ensures FoldOnce(x) == 0 <==> x == 0
    ensures x >= 0x1_0000 ==> FoldOnce(x) < x
  {
    var q, r := x / 0x1_0000, x % 0x1_0000;
    assert x == q * 0xffff + (q + r);
    ResidueOfSum(q, q + r);
  }

  lemma ResidueOfSum(q: nat, y: nat)
    ensures (q * 0xffff + y) % 0xffff == y % 0xffff
  {}

  /** while checksum >> 16: fold. Terminates and keeps the sum modulo 65535. */
  method Fold(sum: nat) returns (c: nat)
    ensures IsFold(sum, c)
  {
    c := sum;
    while c / 0x1_0000 != 0
      invariant c % 0xffff == sum % 0xffff && (c == 0 <==> sum == 0)
      decreases c
    {
      FoldKeepsResidue(c);
      c := c % 0x1_0000 + c / 0x1_0000;
    }
  }

  /** The header with its checksum field, bytes 10 and 11, set to `field`. */
  function WithField(h: Bytes, field: int): Bytes
    requires IsHeader(h) && 0 <= field < 0x1_0000
  {
    h[..10] + Be16(field) + h[12..]
  }

  lemma {:induction false} SumSuffix(a: Bytes, b: Bytes, at: nat)
    requires |a| == |b| && |a| % 2 == 0 && at <= |a| && at % 2 == 0
    requires forall i | at <= i < |a| :: a[i] == b[i]
    ensures WordSum(a, at) == WordSum(b, at)
    decreases |a| - at
  {
    if at < |a| {
      assert a[at..at+2] == b[at..at+2];
      SumSuffix(a, b, at + 2);
    }
  }

  /** Equal but for the word at k. */
  ghost predicate DifferAt(a: Bytes, b: Bytes, k: nat) {
    |a| == |b| && k + 2 <= |a| && forall i | 0 <= i < |a| && i != k && i != k + 1 :: a[i] == b[i]
  }

  lemma {:induction false} SumOneWord(a: Bytes, b: Bytes, at: nat, k: nat)
    requires DifferAt(a, b, k) && |a| % 2 == 0 && at % 2 == 0 && k % 2 == 0 && at <= k
    ensures WordSum(a, at) - FromBe16(a[k..k+2]) == WordSum(b, at) - FromBe16(b[k..k+2])
    decreases k - at
  {
    if at == k {
      SumSuffix(a, b, k + 2);
    } else {
      assert a[at..at+2] == b[at..at+2];
      SumOneWord(a, b, at + 2, k);
    }
  }

  lemma FieldAddsToSum(h: Bytes, field: int)
    requires IsHeader(h) && h[10] == 0 && h[11] == 0 && 0 <= field < 0x1_0000
    ensures WordSum(WithField(h, field), 0) == WordSum(h, 0) + field
  {
    var w := WithField(h, field);
    assert w[10..12] == Be16(field);
    assert DifferAt(h, w, 10);
    SumOneWord(h, w, 0, 10);
  }

  /** The receiver's test of section 1 of RFC 1071: the ten words fold to 0xffff. */
  ghost predicate Verifies(h: Bytes)
    requires IsHeader(h)
  {
    IsFold(WordSum(h, 0), 0xffff)
  }

  /** Which field values verify: the complement of the folded sum, and nothing else but
      the other spelling of zero. */
  lemma VerifyingFields(h: Bytes, c: int, field: int)
    requires IsHeader(h) && h[10] == 0 && h[11] == 0 && 0 <= field < 0x1_0000
    requires IsFold(WordSum(h, 0), c)
    ensures Verifies(WithField(h, field))
       <==> field == 0xffff - c || (c == 0xffff && field == 0xffff)
  {
    FieldAddsToSum(h, field);
    ComplementResidue(WordSum(h, 0), c, field);
  }

  lemma ComplementResidue(s: nat, c: int, field: int)
    requires IsFold(s, c) && 0 <= field < 0x1_0000
    ensures IsFold(s + field, 0xffff) <==> field == 0xffff - c || (c == 0xffff && field == 0xffff)
  {
    assert (s + field) % 0xffff == (c + field) % 0xffff by {
      SameResidueSum(s, c, field);
    }
  }

  lemma SameResidueSum(a: nat, b: nat, d: nat)
    requires a % 0xffff == b % 0xffff
    ensures (a + d) % 0xffff == (b + d) % 0xffff
  {}

  /** Computes the checksum of a header with a zero field and writes its complement there;
      the result always verifies, and is the one spelling of zero the complement gives. */
  method SetChecksum(h: Bytes) returns (r: Bytes)
    requires IsHeader(h) && h[10] == 0 && h[11] == 0
    ensures IsHeader(r) && Verifies(r) && r[..10] == h[..10] && r[12..] == h[12..]
    ensures IsFold(WordSum(h, 0), 0xffff - FromBe16(r[10..12]))
  {
    var sum, i := 0, 0;
    while i < 20
      invariant 0 <= i <= 20 && i % 2 == 0 && sum + WordSum(h, i) == WordSum(h, 0)
    {
      sum := sum + FromBe16(h[i..i+2]);
      i := i + 2;
    }
    var c := Fold(sum);
    VerifyingFields(h, c, 0xffff - c);
    r := WithField(h, 0xffff - c);
  }

  /** A change to a single word goes unnoticed only between the two spellings of zero. */
  lemma SingleWordDetected(a: Bytes, b: Bytes, k: nat)
    requires IsHeader(a) && IsHeader(b) && k % 2 == 0 && DifferAt(a, b, k)
    requires Verifies(a) && Verifies(b) && a != b
    ensures {FromBe16(a[k..k+2]), FromBe16(b[k..k+2])} == {0, 0xffff}
  {
    SumOneWord(a, b, 0, k);
    if FromBe16(a[k..k+2]) == FromBe16(b[k..k+2]) {
      SameWordSameBytes(a, b, k);
    }
    MultiplesApart(WordSum(a, 0), WordSum(b, 0), FromBe16(a[k..k+2]), FromBe16(b[k..k+2]));
  }

  lemma MultiplesApart(s: nat, t: nat, x: int, y: int)
    requires s % 0xffff == 0 && t % 0xffff == 0 && s - x == t - y && x != y
    requires 0 <= x <= 0xffff && 0 <= y <= 0xffff
    ensures (x == 0 && y == 0xffff) || (x == 0xffff && y == 0)
  {
    var m, n := s / 0xffff, t / 0xffff;
    assert x - y == (m - n) * 0xffff;
  }

  lemma SameWordSameBytes(a: Bytes, b: Bytes, k: nat)
    requires DifferAt(a, b, k) && FromBe16(a[k..k+2]) == FromBe16(b[k..k+2])
    ensures a == b
  {
    var p, q := a[k..k+2], b[k..k+2];
    assert p[0] == a[k] && p[1] == a[k+1] && q[0] == b[k] && q[1] == b[k+1];
    assert a[k] == b[k] && a[k+1] == b[k+1];
  }
}

/** The order in which implementations are timed: rotated by the round number, and
    reversed every other round. */
module Rotation {
  import opened Sequences

  /** labels[k:] + labels[:k] with k = round % n, reversed in odd rounds. */
  function Order<T>(labels: seq<T>, round: nat): (o: seq<T>)
    ensures |o| == |labels|
  {
    if labels == [] then [] else Turn(labels, round % |labels|, round % 2 == 1)
  }

  function Turn<T>(labels: seq<T>, k: nat, back: bool): (o: seq<T>)
    requires k < |labels|
    ensures |o| == |labels|
  {
    if back then Reverse(Rotate(labels, k)) else Rotate(labels, k)
  }

  function Rotate<T>(labels: seq<T>, k: nat): (r: seq<T>)
    requires k < |labels|
    ensures |r| == |labels|
  {
    labels[k..] + labels[..k]
  }

  /** x mod n for 0 <= x < 2n. */
  function Wrap(x: int, n: nat): int {
    if x >= n then x - n else x
  }

  /** Index of the label timed at position p of a round. */
  function Who(n: nat, round: nat, p: nat): (j: int)
    requires p < n
    ensures 0 <= j < n
  {
    var k := round % n;
    Wrap(if round % 2 == 1 then k + (n - 1 - p) else k + p, n)
  }

  lemma TurnAt<T>(labels: seq<T>, k: nat, back: bool, p: nat)
    requires p < |labels| && k < |labels|
    ensures Turn(labels, k, back)[p] == labels[Wrap(if back then k + (|labels| - 1 - p) else k + p, |labels|)]
  {
    if back {
      ReverseAt(Rotate(labels, k), p);
      RotateAt(labels, k, |labels| - 1 - p);
    } else {
      RotateAt(labels, k, p);
    }
  }

  lemma RotateAt<T>(labels: seq<T>, k: nat, p: nat)
    requires p < |labels| && k < |labels|
    ensures Rotate(labels, k)[p] == labels[Wrap(k + p, |labels|)]
  {}

  lemma OrderAt<T>(labels: seq<T>, round: nat, p: nat)
    requires p < |labels|
    ensures Order(labels, round)[p] == labels[Who(|labels|, round, p)]
  {
    var k, back := round % |labels|, round % 2 == 1;
    TurnAt(labels, k, back, p);
  }

  /** Every round times every label exactly once. */
  lemma OrderIsPermutation<T>(labels: seq<T>, round: nat)
    ensures multiset(Order(labels, round)) == multiset(labels)
  {
    if labels != [] {
      var k := round % |labels|;
      assert labels == labels[..k] + labels[k..];
      ReverseElements(Rotate(labels, k));
    }
  }

  // ---- Remainders ----------------------------------------------------------------------

  lemma AtLeastOnce(q: nat, q': nat, n: nat)
    ensures q < q' ==> q' * n >= q * n + n
  {
    if q < q' {
      assert q' * n == q * n + (q' - q) * n;
      assert (q' - q) * n == (q' - q - 1) * n + n;
    }
  }

  lemma QuotientIsUnique(n: nat, q: nat, r: nat, q': nat, r': nat)
    requires q * n + r == q' * n + r' && r < n && r' < n
    ensures q == q' && r == r'
  {
    AtLeastOnce(q, q', n);
    AtLeastOnce(q', q, n);
  }

  lemma RemainderIs(x: nat, n: nat, q: nat, r: nat)
    requires n > 0 && r < n && x == q * n + r
    ensures x % n == r && x / n == q
  {
    assert x == (x / n) * n + x % n;
    QuotientIsUnique(n, q, r, x / n, x % n);
  }

  lemma AddRemainder(x: nat, y: nat, n: nat)
    requires y < n
    ensures (x + y) % n == Wrap(x % n + y, n)
  {
    var q, r := x / n, x % n;
    assert x == q * n + r;
    if r + y < n {
      RemainderIs(x + y, n, q, r + y);
    } else {
      assert (q + 1) * n == q * n + n;
      RemainderIs(x + y, n, q + 1, r + y - n);
    }
  }

  /** A round's order depends on the round only modulo 2n. */
  lemma RoundModulo(round: nat, n: nat)
    requires n > 0
    ensures var c := round % (2 * n);
      c % 2 == round % 2 && round % n == Wrap(c, n)
  {
    var m := 2 * n;
    var q, c := round / m, round % m;
    assert round == q * m + c;
    assert q * m == 2 * (q * n);
    RemainderIs(round, 2, q * n + c / 2, c % 2);
    if c < n {
      assert (2 * q) * n == q * m;
      RemainderIs(round, n, 2 * q, c);
    } else {
      assert (2 * q + 1) * n == q * m + n;
      RemainderIs(round, n, 2 * q + 1, c - n);
    }
  }

  // ---- Even numbers of labels --------------------------------------------------------------

  lemma EvenModulo(x: nat, n: nat)
    requires n > 0 && n % 2 == 0
    ensures (x % n) % 2 == x % 2
  {
    var q, r, h := x / n, x % n, n / 2;
    assert x == q * n + r && n == 2 * h;
    assert q * n == 2 * (q * h);
    RemainderIs(x, 2, q * h + r / 2, r % 2);
  }

  /** With an even number of labels none ever leaves the positions of its own parity. */
  lemma EvenKeepsParity(n: nat, round: nat, p: nat)
    requires p < n && n % 2 == 0
    ensures Who(n, round, p) % 2 == p % 2
  {
    EvenModulo(round, n);
    var k := round % n;
    WrapParity(if round % 2 == 1 then k + (n - 1 - p) else k + p, n);
    SumParity(k, n, p);
  }

  lemma SumParity(k: nat, n: nat, p: nat)
    requires n % 2 == 0 && p < n
    ensures k % 2 == 0 ==> (k + p) % 2 == p % 2
    ensures k % 2 == 1 ==> (k + (n - 1 - p)) % 2 == p % 2
  {}

  lemma WrapParity(x: int, n: nat)
    requires x >= 0 && n % 2 == 0
    ensures Wrap(x, n) % 2 == x % 2
  {}

  /** With two labels the order never changes. */
  lemma TwoNeverChange<T>(labels: seq<T>, round: nat)
    requires |labels| == 2
    ensures Order(labels, round) == labels
  {
    forall p | 0 <= p < 2
      ensures Order(labels, round)[p] == labels[p]
    {
      OrderAt(labels, round, p);
      EvenKeepsParity(2, round, p);
    }
  }

  // ---- Odd numbers of labels -----------------------------------------------------------------

  /** The even and the odd residue modulo 2n at which label j is at position p. */
  function EvenSlot(n: nat, p: nat, j: nat): int {
    var c := if j >= p then j - p else j - p + n;
    if c % 2 == 0 then c else c + n
  }

  function OddSlot(n: nat, p: nat, j: nat): int {
    var d := Wrap(j + p + 1, n);
    var e := if d == n then 0 else d;
    if e % 2 == 1 then e else e + n
  }

  lemma EvenSlotIsExact(n: nat, p: nat, j: nat, c: nat)
    requires n % 2 == 1 && p < n && j < n && c < 2 * n && c % 2 == 0
    ensures 0 <= EvenSlot(n, p, j) < 2 * n && EvenSlot(n, p, j) % 2 == 0
    ensures Wrap(Wrap(c, n) + p, n) == j <==> c == EvenSlot(n, p, j)
  {}

  lemma OddSlotIsExact(n: nat, p: nat, j: nat, c: nat)
    requires n % 2 == 1 && p < n && j < n && c < 2 * n && c % 2 == 1
    ensures 0 <= OddSlot(n, p, j) < 2 * n && OddSlot(n, p, j) % 2 == 1
    ensures Wrap(Wrap(c, n) + (n - 1 - p), n) == j <==> c == OddSlot(n, p, j)
  {}

  lemma RoundOf(s: nat, m: nat, c: nat) returns (r: nat)
    requires c < m
    ensures s <= r < s + m && r % m == c
    ensures forall x: nat | s <= x < s + m && x % m == c :: x == r
  {
    var a := s % m;
    r := if c >= a then s + (c - a) else s + (c - a + m);
    AddRemainder(s, r - s, m);
    forall x: nat | s <= x < s + m && x % m == c
      ensures x == r
    {
      AddRemainder(s, x - s, m);
    }
  }

  /** With an odd number of labels, any 2n consecutive rounds put each label at each
      position exactly twice. */
  lemma OddIsBalanced(n: nat, start: nat, p: nat, j: nat) returns (a: nat, b: nat)
    requires n % 2 == 1 && p < n && j < n
    ensures start <= a < start + 2 * n && start <= b < start + 2 * n && a != b
    ensures forall r: nat | start <= r < start + 2 * n :: Who(n, r, p) == j <==> r == a || r == b
  {
    var m := 2 * n;
    EvenSlotIsExact(n, p, j, 0);
    OddSlotIsExact(n, p, j, 1);
    a := RoundOf(start, m, EvenSlot(n, p, j));
    b := RoundOf(start, m, OddSlot(n, p, j));
    forall r: nat | start <= r < start + m
      ensures Who(n, r, p) == j <==> r == a || r == b
    {
      RoundModulo(r, n);
      var c := r % m;
      if c % 2 == 0 {
        EvenSlotIsExact(n, p, j, c);
      } else {
        OddSlotIsExact(n, p, j, c);
      }
    }
  }
}

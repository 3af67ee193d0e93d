/** Which capture owns each byte: captures painted longest first over a list. */
module Highlight {
  import opened ByteStrings
  import opened Sorting

  type Name = Bytes
  datatype Capture = Capture(start: nat, end: nat, name: Name)

  /** Declaration order of the capture names of a query. */
  type Order = map<Name, nat>

  ghost predicate Injective(order: Order) {
    forall a, b | a in order && b in order && order[a] == order[b] :: a == b
  }

  // ---- Who owns a byte ----------------------------------------------------------------------

  /** Of the captures around byte i, none is shorter than c; of those as short, none was
      declared earlier; and of those declared with it, none starts earlier. */
  ghost predicate MostSpecific(order: Order, caps: seq<Capture>, i: int, c: Capture)
    requires forall d | d in caps :: d.name in order
  {
    c in caps && c.start <= i < c.end && forall d | d in caps && d.start <= i < d.end ::
      && d.end - d.start >= c.end - c.start
      && (d.end - d.start == c.end - c.start ==> order[d.name] >= order[c.name])
      && (d.end - d.start == c.end - c.start && order[d.name] == order[c.name] ==> d.start >= c.start)
  }

  /** A byte has no owner where no capture is, and elsewhere the most specific one's name. */
  ghost predicate Owners(order: Order, caps: seq<Capture>, owner: seq<Option<Name>>)
    requires forall d | d in caps :: d.name in order
  {
    forall i | 0 <= i < |owner| ::
      match owner[i]
      case None => forall c | c in caps :: !(c.start <= i < c.end)
      case Some(n) => exists c :: MostSpecific(order, caps, i, c) && c.name == n
  }

  /** The owner map does not depend on the order, or the multiplicity, in which captures
      are reported. */
  lemma OwnerIsUnique(order: Order, a: seq<Capture>, b: seq<Capture>, x: seq<Option<Name>>, y: seq<Option<Name>>)
    requires Injective(order) && |x| == |y|
    requires (forall c :: c in a <==> c in b) && forall c | c in a :: c.name in order
    requires Owners(order, a, x) && Owners(order, b, y)
    ensures x == y
  {
    forall i | 0 <= i < |x|
      ensures x[i] == y[i]
    {
      if x[i].Some? && y[i].Some? {
        var c :| MostSpecific(order, a, i, c) && c.name == x[i].value;
        var d :| MostSpecific(order, b, i, d) && d.name == y[i].value;
        assert c.end - c.start == d.end - d.start && order[c.name] == order[d.name];
      }
    }
  }

  // ---- Painting ------------------------------------------------------------------------------

  predicate Covers(c: Capture, i: int) {
    c.start <= i < c.end
  }

  function Rank(order: Order, n: Name): nat {
    if n in order then order[n] else 0
  }

  /** a is at least as specific as b: shorter, then declared earlier, then starting
      earlier. */
  predicate Beats(order: Order, a: Capture, b: Capture) {
    var la, lb := a.end - a.start, b.end - b.start;
    var ra, rb := Rank(order, a.name), Rank(order, b.name);
    la < lb || (la == lb && (ra < rb || (ra == rb && a.start <= b.start)))
  }

  /** sorted()'s key order: the most specific capture last. */
  function PaintOrder(order: Order): (Capture, Capture) -> bool {
    (a: Capture, b: Capture) => Beats(order, b, a)
  }

  ghost predicate OwnedBy(order: Order, caps: seq<Capture>, i: int, c: Capture) {
    c in caps && Covers(c, i) && forall d | d in caps && Covers(d, i) :: Beats(order, c, d)
  }

  /** Byte i belongs to the most specific capture covering it, or to none when nothing
      covers it. */
  ghost predicate ResolvesAt(order: Order, caps: seq<Capture>, i: int, owner: Option<Name>) {
    match owner
    case None => forall c | c in caps :: !Covers(c, i)
    case Some(n) => exists c :: OwnedBy(order, caps, i, c) && c.name == n
  }

  ghost predicate Resolves(order: Order, caps: seq<Capture>, owner: seq<Option<Name>>) {
    forall i | 0 <= i < |owner| :: ResolvesAt(order, caps, i, owner[i])
  }

  lemma PaintOrderIsOrder(order: Order)
    ensures TotalPreorder(PaintOrder(order))
  {}

  /** Painting a capture at least as specific as those already painted. */
  lemma PaintStep(order: Order, caps: seq<Capture>, c: Capture, i: int, before: Option<Name>, after: Option<Name>)
    requires ResolvesAt(order, caps, i, before)
    requires forall d | d in caps :: Beats(order, c, d)
    requires after == (if Covers(c, i) then Some(c.name) else before)
    ensures ResolvesAt(order, caps + [c], i, after)
  {
    if Covers(c, i) {
      assert OwnedBy(order, caps + [c], i, c);
    } else if before.Some? {
      var d :| OwnedBy(order, caps, i, d) && d.name == before.value;
      assert OwnedBy(order, caps + [c], i, d);
    }
  }

  function NonEmpty(caps: seq<Capture>): seq<Capture> {
    if caps == [] then []
    else NonEmpty(caps[..|caps|-1]) + (if caps[|caps|-1].start < caps[|caps|-1].end then [caps[|caps|-1]] else [])
  }

  lemma {:induction false} NonEmptyElements(caps: seq<Capture>)
    ensures forall c :: c in NonEmpty(caps) <==> c in caps && c.start < c.end
  {
    if caps != [] {
      NonEmptyElements(caps[..|caps|-1]);
      assert caps == caps[..|caps|-1] + [caps[|caps|-1]];
    }
  }

  lemma ResolvesNonEmpty(order: Order, caps: seq<Capture>, some: seq<Capture>, owner: seq<Option<Name>>)
    requires forall c :: c in some <==> c in caps && c.start < c.end
    requires Resolves(order, some, owner)
    ensures Resolves(order, caps, owner)
  {
    forall i | 0 <= i < |owner|
      ensures ResolvesAt(order, caps, i, owner[i])
    {
      assert ResolvesAt(order, some, i, owner[i]);
      if owner[i].Some? {
        var c :| OwnedBy(order, some, i, c) && c.name == owner[i].value;
        assert OwnedBy(order, caps, i, c);
      } else {
        forall c | c in caps
          ensures !Covers(c, i)
        {
          assert c in some ==> !Covers(c, i);
        }
      }
    }
  }

  /** Overwrites the slice of one capture in place. */
  method PaintSlice(owner: array<Option<Name>>, c: Capture)
    requires c.start <= c.end <= owner.Length
    modifies owner
    ensures forall i | 0 <= i < owner.Length ::
      owner[i] == (if Covers(c, i) then Some(c.name) else old(owner[i]))
  {
    for j := c.start to c.end
      invariant forall i | 0 <= i < owner.Length ::
        owner[i] == (if c.start <= i < j then Some(c.name) else old(owner[i]))
    {
      owner[j] := Some(c.name);
    }
  }

  lemma LaterBeats(order: Order, s: seq<Capture>, k: nat)
    requires Sorted(s, PaintOrder(order)) && k < |s|
    ensures forall d | d in s[..k] :: Beats(order, s[k], d)
  {
    forall d | d in s[..k]
      ensures Beats(order, s[k], d)
    {
      var j :| 0 <= j < k && s[..k][j] == d;
      assert PaintOrder(order)(s[j], s[k]);
    }
  }

  lemma PaintedNext(order: Order, s: seq<Capture>, k: nat, before: seq<Option<Name>>, after: seq<Option<Name>>)
    requires Sorted(s, PaintOrder(order)) && k < |s| && |before| == |after|
    requires Resolves(order, s[..k], before)
    requires forall i | 0 <= i < |after| :: after[i] == (if Covers(s[k], i) then Some(s[k].name) else before[i])
    ensures Resolves(order, s[..k+1], after)
  {
    LaterBeats(order, s, k);
    assert s[..k+1] == s[..k] + [s[k]];
    forall i | 0 <= i < |after|
      ensures ResolvesAt(order, s[..k+1], i, after[i])
    {
      PaintStep(order, s[..k], s[k], i, before[i], after[i]);
    }
  }

  /** Paints captures in the order given, each over the ones before it. */
  method PaintAll(order: Order, s: seq<Capture>, length: nat) returns (owner: seq<Option<Name>>)
    requires Sorted(s, PaintOrder(order)) && forall c | c in s :: c.start < c.end <= length
    ensures |owner| == length && Resolves(order, s, owner)
  {
    var a := new Option<Name>[length](_ => None);
    var k := 0;
    assert s[..0] == [];
    while k < |s|
      invariant 0 <= k <= |s|
      invariant Resolves(order, s[..k], a[..])
    {
      ghost var before := a[..];
      assert s[k] in s;
      PaintSlice(a, s[k]);
      PaintedNext(order, s, k, before, a[..]);
      k := k + 1;
    }
    owner := a[..];
    assert s[..k] == s;
  }

  lemma ResolvesGivesOwners(order: Order, caps: seq<Capture>, owner: seq<Option<Name>>)
    requires (forall d | d in caps :: d.name in order) && Resolves(order, caps, owner)
    ensures Owners(order, caps, owner)
  {
    forall i | 0 <= i < |owner|
      ensures match owner[i]
              case None => forall c | c in caps :: !(c.start <= i < c.end)
              case Some(n) => exists c :: MostSpecific(order, caps, i, c) && c.name == n
    {
      assert ResolvesAt(order, caps, i, owner[i]);
      if owner[i].Some? {
        var c :| OwnedBy(order, caps, i, c) && c.name == owner[i].value;
        forall d | d in caps && d.start <= i < d.end
          ensures Beats(order, c, d)
        {
          assert Covers(d, i);
        }
        assert MostSpecific(order, caps, i, c);
      } else {
        forall c | c in caps
          ensures !(c.start <= i < c.end)
        {
          assert !Covers(c, i);
        }
      }
    }
  }

  /** oracle_owner: drop empty captures, sort, paint in that order. */
  method OracleOwner(order: Order, caps: seq<Capture>, length: nat) returns (owner: seq<Option<Name>>)
    requires forall c | c in caps :: c.end <= length && c.name in order
    ensures |owner| == length && Owners(order, caps, owner)
    ensures Resolves(order, caps, owner)
  {
    var some := NonEmpty(caps);
    NonEmptyElements(caps);
    var s := Sort(some, PaintOrder(order));
    PaintOrderIsOrder(order);
    SortSorts(some, PaintOrder(order));
    SortElements(some, PaintOrder(order));
    owner := PaintAll(order, s, length);
    ResolvesNonEmpty(order, caps, s, owner);
    ResolvesGivesOwners(order, caps, owner);
  }
}

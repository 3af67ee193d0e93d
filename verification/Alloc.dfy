/** The bootstrap allocator of a malloc-counting shim: before the C library's calloc is
    known, calloc is served from a static buffer. */
module Alloc {
  import opened ByteStrings

  const SIZE := 4096
  const SIZE_MAX: nat := 0xffff_ffff_ffff_ffff

  /** A pointer: null, an offset into the static buffer, or one the C library gave. */
  datatype Pointer = Null | Boot(offset: nat) | Heap(id: nat)

  /** A block served from the buffer: offset and requested size. */
  datatype Block = Block(offset: nat, size: nat)

  function RoundUp(n: nat): (r: nat)
    ensures r % 16 == 0 && n <= r < n + 16
  {
    (n + 15) / 16 * 16
  }

  /** bootstrap_used + a * b + 16 <= sizeof bootstrap, in size_t arithmetic. */
  predicate Fits(used: nat, n: nat) {
    (used + n + 16) % (SIZE_MAX + 1) <= SIZE
  }

  /** The test is the intended one exactly when its sum does not wrap around. */
  lemma FitsIsExact(used: nat, n: nat)
    requires used <= SIZE - 16 && n <= SIZE_MAX
    ensures (Fits(used, n) <==> used + n + 16 <= SIZE) <==> used + n + 16 <= SIZE_MAX
  {
    if used + n + 16 > SIZE_MAX {
      assert (used + n + 16) % (SIZE_MAX + 1) == used + n + 16 - (SIZE_MAX + 1);
    }
  }

  ghost predicate InBounds(blocks: seq<Block>, used: nat) {
    forall i | 0 <= i < |blocks| ::
      blocks[i].offset % 16 == 0 && blocks[i].offset + blocks[i].size <= used
  }

  ghost predicate Disjoint(blocks: seq<Block>) {
    forall i, j | 0 <= i < j < |blocks| :: blocks[i].offset + blocks[i].size <= blocks[j].offset
  }

  // ---- Resolving, on values ---------------------------------------------------------------

  /** Every request finds room in turn. */
  predicate AllFit(used: nat, sizes: seq<nat>)
    decreases |sizes|
  {
    sizes == [] || (used + sizes[0] + 16 <= SIZE && AllFit(used + RoundUp(sizes[0]), sizes[1..]))
  }

  function UsedAfter(used: nat, sizes: seq<nat>): nat
    decreases |sizes|
  {
    if sizes == [] then used else UsedAfter(used + RoundUp(sizes[0]), sizes[1..])
  }

  function BlocksAfter(used: nat, sizes: seq<nat>): seq<Block>
    decreases |sizes|
  {
    if sizes == [] then [] else [Block(used, sizes[0])] + BlocksAfter(used + RoundUp(sizes[0]), sizes[1..])
  }

  lemma {:induction false} LessRoom(used: nat, used': nat, sizes: seq<nat>)
    requires used <= used' && AllFit(used', sizes)
    ensures AllFit(used, sizes)
    decreases |sizes|
  {
    if sizes != [] {
      LessRoom(used + RoundUp(sizes[0]), used' + RoundUp(sizes[0]), sizes[1..]);
    }
  }

  /** What is used once resolve() returns, when a lookup asks for `todo` and then, should a
      request not fit, resolve() is entered again and its lookup asks for `all`; None when
      that has happened `depth` times and a request still does not fit. */
  function Attempt(used: nat, todo: seq<nat>, all: seq<nat>, depth: nat): Option<nat>
    decreases depth, |todo|
  {
    if todo == [] then Some(used)
    else if used + todo[0] + 16 <= SIZE then Attempt(used + RoundUp(todo[0]), todo[1..], all, depth)
    else if depth == 0 then None
    else Attempt(used, all, all, depth - 1)
  }

  lemma {:induction false} AttemptFits(used: nat, todo: seq<nat>, all: seq<nat>, depth: nat)
    requires AllFit(used, todo)
    ensures Attempt(used, todo, all, depth) == Some(UsedAfter(used, todo))
    decreases |todo|
  {
    if todo != [] {
      AttemptFits(used + RoundUp(todo[0]), todo[1..], all, depth);
    }
  }

  lemma {:induction false} AttemptFails(used: nat, todo: seq<nat>, all: seq<nat>, depth: nat)
    requires !AllFit(used, todo) && !AllFit(used, all)
    ensures Attempt(used, todo, all, depth) == None
    decreases depth, |todo|
  {
    if used + todo[0] + 16 <= SIZE {
      var more := used + RoundUp(todo[0]);
      if AllFit(more, all) {
        LessRoom(used, more, all);
      }
      AttemptFails(more, todo[1..], all, depth);
    } else if depth > 0 {
      AttemptFails(used, all, all, depth - 1);
    }
  }

  /** resolve() returns exactly when every request of a lookup fits. Otherwise it is entered
      again and again: no number of times is enough. */
  lemma ResolveReturns(used: nat, sizes: seq<nat>, depth: nat)
    ensures Attempt(used, sizes, sizes, depth)
         == if AllFit(used, sizes) then Some(UsedAfter(used, sizes)) else None
  {
    if AllFit(used, sizes) {
      AttemptFits(used, sizes, sizes, depth);
    } else {
      AttemptFails(used, sizes, sizes, depth);
    }
  }

  // ---- Any run of calls, on values ------------------------------------------------------------

  /** What the shim's later answers depend on. */
  datatype State = State(used: nat, resolved: bool, blocks: seq<Block>)

  /** After resolve(), with the requests its lookup makes; None when it never returns. */
  function Resolved(s: State, lookups: seq<nat>): Option<State> {
    if s.resolved then Some(s)
    else if AllFit(s.used, lookups) then
      Some(State(UsedAfter(s.used, lookups), true, s.blocks + BlocksAfter(s.used, lookups)))
    else None
  }

  datatype Event =
    | CallMalloc(n: nat)
    | CallCalloc(a: nat, b: nat)
    | CallRealloc(p: Pointer, n: nat)
    | CallFree(p: Pointer)
    | ProgramWrite(block: nat, at: nat, value: int)

  predicate Allowed(e: Event) {
    match e
    case CallCalloc(a, b) => a * b + SIZE + 16 <= SIZE_MAX
    case CallRealloc(p, _) => !p.Boot?
    case CallFree(p) => p.Boot? ==> p.offset < SIZE
    case _ => true
  }

  predicate FromBuffer(s: State, n: nat) {
    !s.resolved && s.used + n + 16 <= SIZE
  }

  function Next(s: State, e: Event, lookups: seq<nat>): Option<State> {
    match e
    case CallCalloc(a, b) =>
      if FromBuffer(s, a * b)
      then Some(State(s.used + RoundUp(a * b), false, s.blocks + [Block(s.used, a * b)]))
      else Resolved(s, lookups)
    case CallFree(p) => if p.Boot? then Some(s) else Resolved(s, lookups)
    case ProgramWrite(_, _, _) => Some(s)
    case _ => Resolved(s, lookups)
  }

  /** After all of the events; None when one of the calls never returns. */
  function After(s: State, events: seq<Event>, lookups: seq<nat>): Option<State> {
    if events == [] then Some(s) else
    match After(s, events[..|events|-1], lookups)
    case None => None
    case Some(t) => Next(t, events[|events|-1], lookups)
  }

  // ---- The shim ---------------------------------------------------------------------------------

  /** The sizes of the callocs made while symbols are looked up: while calloc itself is, and
      while the three others are, when calloc is already known. */
  datatype Lookups = Lookups(first: seq<nat>, later: seq<nat>)

  predicate Reasonable(dl: Lookups) {
    forall i | 0 <= i < |dl.first| :: dl.first[i] + SIZE + 16 <= SIZE_MAX
  }

  function Sum(sizes: seq<nat>): nat {
    if sizes == [] then 0 else Sum(sizes[..|sizes|-1]) + sizes[|sizes|-1]
  }

  /** Calls and bytes counted while resolving, if that is still to be done. */
  function LaterCalls(s: State, dl: Lookups): nat {
    if s.resolved then 0 else |dl.later|
  }

  function LaterBytes(s: State, dl: Lookups): nat {
    if s.resolved then 0 else Sum(dl.later)
  }

  class Shim {
    const bootstrap: array<int>
    var used: nat
    var resolvedCalloc: bool
    var resolvedMalloc: bool
    var mallocs: nat
    var callocs: nat
    var reallocs: nat
    var frees: nat
    var bytes: nat
    /** Pointers handed to the C library's free, oldest first. */
    var freed: seq<Pointer>
    /** Ledger of the blocks served from the buffer, oldest first. */
    var blocks: seq<Block>

    /** Blocks lie in the part used so far, aligned and one after the other; the rest of
        the buffer is still zero; the C library was never asked to free one. */
    ghost predicate Valid()
      reads this, bootstrap
    {
      && bootstrap.Length == SIZE && used % 16 == 0 && used <= SIZE - 16
      && InBounds(blocks, used) && Disjoint(blocks)
      && (forall i | used <= i < SIZE :: bootstrap[i] == 0)
      && (forall i | 0 <= i < |freed| :: !freed[i].Boot?)
      && resolvedMalloc == resolvedCalloc
    }

    ghost function Now(): State
      reads this
    {
      State(used, resolvedCalloc, blocks)
    }

    constructor ()
      ensures Valid() && fresh(bootstrap) && Now() == State(0, false, []) && freed == []
      ensures mallocs == callocs == reallocs == frees == bytes == 0
    {
      bootstrap := new int[SIZE](_ => 0);
      used, resolvedCalloc, resolvedMalloc := 0, false, false;
      mallocs, callocs, reallocs, frees, bytes, freed, blocks := 0, 0, 0, 0, 0, [], [];
    }

    /** calloc while the C library's is unknown: a zeroed block from the buffer, or null
        to say it has to be resolved first. */
    method Bootstrap(n: nat) returns (p: Pointer)
      requires Valid() && !resolvedCalloc && n + SIZE + 16 <= SIZE_MAX
      modifies this`used, this`blocks
      ensures Valid()
      ensures p.Boot? <==> old(used) + n + 16 <= SIZE
      ensures !p.Boot? ==> p == Null && used == old(used) && blocks == old(blocks)
      ensures p.Boot? ==> p.offset == old(used) && used == old(used) + RoundUp(n)
      ensures p.Boot? ==> blocks == old(blocks) + [Block(p.offset, n)]
      ensures p.Boot? ==> forall i | p.offset <= i < p.offset + n :: bootstrap[i] == 0
    {
      FitsIsExact(used, n);
      if Fits(used, n) {
        p := Boot(used);
        blocks := blocks + [Block(used, n)];
        used := used + RoundUp(n);
      } else {
        p := Null;
      }
    }

    /** resolve(): looking calloc up may itself call calloc, with the sizes given, before the
        lookup has returned. One that does not fit enters resolve() again, which then never
        returns: `done` is false. Callocs made by the later lookups are forwarded. */
    method Resolve(dl: Lookups) returns (done: bool)
      requires Valid() && Reasonable(dl)
      modifies this`used, this`blocks, this`resolvedCalloc, this`resolvedMalloc, this`callocs, this`bytes
      ensures Valid() && (done <==> Resolved(old(Now()), dl.first).Some?)
      ensures done ==> Now() == Resolved(old(Now()), dl.first).value
      ensures done ==> callocs == old(callocs) + LaterCalls(old(Now()), dl)
      ensures done ==> bytes == old(bytes) + LaterBytes(old(Now()), dl)
      ensures !done ==> !resolvedCalloc
    {
      if resolvedMalloc {
        return true;
      }
      done := LookUpCalloc(dl.first);
      if !done {
        return;
      }
      resolvedCalloc := true;
      var i := 0;
      while i < |dl.later|
        invariant 0 <= i <= |dl.later| && callocs == old(callocs) + i && bytes == old(bytes) + Sum(dl.later[..i])
        modifies this`callocs, this`bytes
      {
        assert dl.later[..i+1][..i] == dl.later[..i];
        callocs, bytes := callocs + 1, bytes + dl.later[i];
        i := i + 1;
      }
      assert dl.later[..i] == dl.later;
      resolvedMalloc := true;
    }

    /** The first lookup, with the requests it makes. */
    method LookUpCalloc(sizes: seq<nat>) returns (done: bool)
      requires Valid() && !resolvedCalloc && Reasonable(Lookups(sizes, []))
      modifies this`used, this`blocks
      ensures Valid() && (done <==> AllFit(old(used), sizes))
      ensures done ==> used == UsedAfter(old(used), sizes) && blocks == old(blocks) + BlocksAfter(old(used), sizes)
    {
      var i := 0;
      while i < |sizes|
        invariant 0 <= i <= |sizes| && Valid() && !resolvedCalloc
        invariant AllFit(old(used), sizes) == AllFit(used, sizes[i..])
        invariant UsedAfter(old(used), sizes) == UsedAfter(used, sizes[i..])
        invariant old(blocks) + BlocksAfter(old(used), sizes) == blocks + BlocksAfter(used, sizes[i..])
      {
        assert sizes[i..][1..] == sizes[i+1..];
        var p := Bootstrap(sizes[i]);
        if !p.Boot? {
          return false;
        }
        i := i + 1;
      }
      done := true;
    }

    /** None: the call never returns. */
    method Malloc(n: nat, dl: Lookups, given: nat) returns (p: Option<Pointer>)
      requires Valid() && Reasonable(dl)
      modifies this
      ensures Valid() && freed == old(freed)
      ensures p == if Resolved(old(Now()), dl.first).Some? then Some(Heap(given)) else None
      ensures p.Some? ==> Now() == Resolved(old(Now()), dl.first).value
      ensures p.Some? ==> mallocs == old(mallocs) + 1 && bytes == old(bytes) + n + LaterBytes(old(Now()), dl)
      ensures p.Some? ==> callocs == old(callocs) + LaterCalls(old(Now()), dl)
    {
      var done := Resolve(dl);
      if !done {
        return None;
      }
      mallocs, bytes := mallocs + 1, bytes + n;
      p := Some(Heap(given));
    }

    /** A block from the buffer comes zeroed, disjoint from all the others, and only before
        the C library's calloc is known. */
    method Calloc(a: nat, b: nat, dl: Lookups, given: nat) returns (p: Option<Pointer>)
      requires Valid() && a * b + SIZE + 16 <= SIZE_MAX && Reasonable(dl)
      modifies this
      ensures Valid() && freed == old(freed)
      ensures p.Some? <==> Next(old(Now()), CallCalloc(a, b), dl.first).Some?
      ensures p.Some? ==> Now() == Next(old(Now()), CallCalloc(a, b), dl.first).value
      ensures p.Some? ==> p.value == if FromBuffer(old(Now()), a * b) then Boot(old(used)) else Heap(given)
      ensures p.Some? && p.value.Boot? ==>
        && p.value.offset + a * b <= SIZE && callocs == old(callocs) && bytes == old(bytes)
        && forall i | p.value.offset <= i < p.value.offset + a * b :: bootstrap[i] == 0
      ensures p.Some? && !p.value.Boot? ==>
        && callocs == old(callocs) + 1 + LaterCalls(old(Now()), dl)
        && bytes == old(bytes) + a * b + LaterBytes(old(Now()), dl)
    {
      if !resolvedCalloc {
        if !resolvedMalloc {
          var q := Bootstrap(a * b);
          if q.Boot? {
            return Some(q);
          }
        }
        var done := Resolve(dl);
        if !done {
          return None;
        }
      }
      callocs, bytes := callocs + 1, bytes + a * b;
      p := Some(Heap(given));
    }

    method Realloc(p: Pointer, n: nat, dl: Lookups, given: nat) returns (q: Option<Pointer>)
      requires Valid() && !p.Boot? && Reasonable(dl)
      modifies this
      ensures Valid() && freed == old(freed)
      ensures q == if Resolved(old(Now()), dl.first).Some? then Some(Heap(given)) else None
      ensures q.Some? ==> Now() == Resolved(old(Now()), dl.first).value
      ensures q.Some? ==> reallocs == old(reallocs) + 1 && bytes == old(bytes) + n + LaterBytes(old(Now()), dl)
      ensures q.Some? ==> callocs == old(callocs) + LaterCalls(old(Now()), dl)
    {
      var done := Resolve(dl);
      if !done {
        return None;
      }
      reallocs, bytes := reallocs + 1, bytes + n;
      q := Some(Heap(given));
    }

    /** A pointer into the buffer is ignored; any other goes to the C library. */
    method Free(p: Pointer, dl: Lookups) returns (done: bool)
      requires Valid() && (p.Boot? ==> p.offset < SIZE) && Reasonable(dl)
      modifies this
      ensures Valid() && (done <==> Next(old(Now()), CallFree(p), dl.first).Some?)
      ensures done ==> Now() == Next(old(Now()), CallFree(p), dl.first).value
      ensures freed == old(freed) + (if done && !p.Boot? then [p] else [])
      ensures frees == old(frees) + (if done && p.Heap? then 1 else 0)
      ensures done && !p.Boot? ==>
        callocs == old(callocs) + LaterCalls(old(Now()), dl) && bytes == old(bytes) + LaterBytes(old(Now()), dl)
    {
      if p.Boot? {
        return true;
      }
      done := Resolve(dl);
      if !done {
        return;
      }
      if p != Null {
        frees := frees + 1;
      }
      freed := freed + [p];
    }

    /** The program writes into a block it was given, and only there. */
    method Write(k: nat, at: nat, value: int)
      requires Valid() && k < |blocks| && at < blocks[k].size
      modifies bootstrap
      ensures Valid() && bootstrap[blocks[k].offset + at] == value
      ensures forall j | 0 <= j < |blocks| && j != k ::
        forall i | blocks[j].offset <= i < blocks[j].offset + blocks[j].size :: bootstrap[i] == old(bootstrap[i])
    {
      BlocksApart(k);
      bootstrap[blocks[k].offset + at] := value;
    }

    lemma BlocksApart(k: nat)
      requires Valid() && k < |blocks|
      ensures forall j | 0 <= j < |blocks| && j != k ::
        blocks[j].offset + blocks[j].size <= blocks[k].offset || blocks[k].offset + blocks[k].size <= blocks[j].offset
    {}
  }

  // ---- Any run of calls ---------------------------------------------------------------------------

  /** A pointer returned and, for one into the buffer, the bytes of its block at that time. */
  datatype Handed = Handed(pointer: Pointer, contents: seq<int>)

  /** The pointers a run hands to the C library's free, in order. */
  function PassedOn(events: seq<Event>): seq<Pointer> {
    if events == [] then [] else
    PassedOn(events[..|events|-1]) +
    match events[|events|-1]
    case CallFree(p) => if p.Boot? then [] else [p]
    case _ => []
  }

  /** How many of the calls return a pointer. */
  function Returning(events: seq<Event>): nat {
    if events == [] then 0 else
    Returning(events[..|events|-1]) +
    match events[|events|-1]
    case CallFree(_) => 0
    case ProgramWrite(_, _, _) => 0
    case _ => 1
  }

  ghost predicate IsBlock(h: Handed, blocks: seq<Block>) {
    && h.pointer.Boot? && Block(h.pointer.offset, |h.contents|) in blocks
    && forall i | 0 <= i < |h.contents| :: h.contents[i] == 0
  }

  /** Every pointer into the buffer is that of a served block, all zero when handed out. */
  ghost predicate Served(handed: seq<Handed>, blocks: seq<Block>) {
    forall i | 0 <= i < |handed| && handed[i].pointer.Boot? :: IsBlock(handed[i], blocks)
  }

  lemma ServedGrows(handed: seq<Handed>, blocks: seq<Block>, blocks': seq<Block>)
    requires Served(handed, blocks) && blocks <= blocks'
    ensures Served(handed, blocks')
  {}

  lemma BlocksGrow(s: State, e: Event, lookups: seq<nat>)
    requires Next(s, e, lookups).Some?
    ensures s.blocks <= Next(s, e, lookups).value.blocks
    ensures s.resolved ==> Next(s, e, lookups).value == s
  {}

  /** Pointers into the buffer come before all others. */
  ghost predicate BootFirst(handed: seq<Handed>) {
    forall i, j | 0 <= i < j < |handed| && handed[j].pointer.Boot? :: handed[i].pointer.Boot?
  }

  /** One event. A write outside a block does not happen. */
  method PlayOne(shim: Shim, e: Event, dl: Lookups, given: nat) returns (done: bool, h: Option<Handed>)
    requires shim.Valid() && Allowed(e) && Reasonable(dl)
    modifies shim, shim.bootstrap
    ensures shim.Valid() && (done <==> Next(old(shim.Now()), e, dl.first).Some?)
    ensures done ==> shim.Now() == Next(old(shim.Now()), e, dl.first).value
    ensures h.Some? <==> done && !e.CallFree? && !e.ProgramWrite?
    ensures h.Some? && h.value.pointer.Boot? ==> !shim.resolvedCalloc && IsBlock(h.value, shim.blocks)
    ensures h.Some? && h.value.pointer.Boot? ==>
      var at := h.value.pointer.offset;
      at + |h.value.contents| <= SIZE && h.value.contents == shim.bootstrap[at..at+|h.value.contents|]
    ensures h.Some? && !h.value.pointer.Boot? ==> shim.resolvedCalloc
    ensures shim.freed == old(shim.freed) + (if done && e.CallFree? && !e.p.Boot? then [e.p] else [])
  {
    done, h := true, None;
    var p := None;
    var size := 0;
    match e {
      case CallMalloc(n) =>
        p := shim.Malloc(n, dl, given);
        done := p.Some?;
      case CallCalloc(a, b) =>
        p := shim.Calloc(a, b, dl, given);
        size := a * b;
        done := p.Some?;
      case CallRealloc(r, n) =>
        p := shim.Realloc(r, n, dl, given);
        done := p.Some?;
      case CallFree(q) =>
        done := shim.Free(q, dl);
      case ProgramWrite(k, at, v) =>
        if k < |shim.blocks| && at < shim.blocks[k].size {
          shim.Write(k, at, v);
        }
    }
    if p.Some? {
      h := Some(Handed(p.value, if p.value.Boot? then shim.bootstrap[p.value.offset..p.value.offset+size] else []));
    }
  }

  lemma AfterOneMore(start: State, events: seq<Event>, e: Event, lookups: seq<nat>)
    ensures After(start, events + [e], lookups)
         == match After(start, events, lookups)
            case None => None
            case Some(t) => Next(t, e, lookups)
    ensures PassedOn(events + [e]) == PassedOn(events) + (if e.CallFree? && !e.p.Boot? then [e.p] else [])
    ensures Returning(events + [e]) == Returning(events) + (if e.CallFree? || e.ProgramWrite? then 0 else 1)
  {
    assert (events + [e])[..|events|] == events;
  }

  /** Where a run stands after these events. */
  ghost predicate Played(start: State, events: seq<Event>, lookups: seq<nat>, now: State, handed: seq<Handed>) {
    && After(start, events, lookups) == Some(now)
    && |handed| == Returning(events) && Served(handed, now.blocks) && BootFirst(handed)
    && (!now.resolved ==> forall j | 0 <= j < |handed| :: handed[j].pointer.Boot?)
  }

  lemma PlayedNext(start: State, events: seq<Event>, e: Event, lookups: seq<nat>, now: State, now': State,
                   handed: seq<Handed>, h: Option<Handed>)
    requires Played(start, events, lookups, now, handed) && Next(now, e, lookups) == Some(now')
    requires h.Some? <==> !e.CallFree? && !e.ProgramWrite?
    requires h.Some? && h.value.pointer.Boot? ==> !now'.resolved && IsBlock(h.value, now'.blocks)
    requires h.Some? && !h.value.pointer.Boot? ==> now'.resolved
    ensures Played(start, events + [e], lookups, now', handed + (if h.Some? then [h.value] else []))
  {
    AfterOneMore(start, events, e, lookups);
    BlocksGrow(now, e, lookups);
    ServedGrows(handed, now.blocks, now'.blocks);
  }

  /** Plays event n of a run. */
  method PlayNext(shim: Shim, ghost start: State, events: seq<Event>, n: nat, dl: Lookups, handed0: seq<Handed>)
    returns (done: bool, handed: seq<Handed>)
    requires shim.Valid() && Reasonable(dl) && n < |events| && Allowed(events[n])
    requires Played(start, events[..n], dl.first, shim.Now(), handed0)
    modifies shim, shim.bootstrap
    ensures shim.Valid()
    ensures done ==> Played(start, events[..n+1], dl.first, shim.Now(), handed)
    ensures !done ==> handed == handed0 && After(start, events[..n+1], dl.first) == None
    ensures var e := events[n];
      shim.freed == old(shim.freed) + (if done && e.CallFree? && !e.p.Boot? then [e.p] else [])
  {
    ghost var before := shim.Now();
    assert events[..n+1] == events[..n] + [events[n]];
    AfterOneMore(start, events[..n], events[n], dl.first);
    handed := handed0;
    var h;
    done, h := PlayOne(shim, events[n], dl, n);
    if done {
      PlayedNext(start, events[..n], events[n], dl.first, before, shim.Now(), handed, h);
      if h.Some? {
        handed := handed + [h.value];
      }
    }
  }

  /** Plays calls and writes in any order, until the end or a call that never returns.
      Whatever the run, the invariant holds at its end, every block was zero when handed out
      and stays served, no pointer into the buffer follows one from the C library, and free
      passes on every pointer but those into the buffer. */
  method Play(shim: Shim, events: seq<Event>, dl: Lookups) returns (played: nat, handed: seq<Handed>)
    requires shim.Valid() && Reasonable(dl)
    requires forall i | 0 <= i < |events| :: Allowed(events[i])
    modifies shim, shim.bootstrap
    ensures shim.Valid() && played <= |events|
    ensures After(old(shim.Now()), events[..played], dl.first).Some?
    ensures played < |events| ==> After(old(shim.Now()), events[..played+1], dl.first) == None
    ensures var s := After(old(shim.Now()), events[..played], dl.first).value;
      Served(handed, s.blocks) && (played == |events| ==> shim.Now() == s)
    ensures |handed| == Returning(events[..played]) && BootFirst(handed)
    ensures shim.freed == old(shim.freed) + PassedOn(events[..played])
  {
    handed := [];
    played := 0;
    while played < |events|
      invariant 0 <= played <= |events| && shim.Valid()
      invariant Played(old(shim.Now()), events[..played], dl.first, shim.Now(), handed)
      invariant shim.freed == old(shim.freed) + PassedOn(events[..played])
    {
      assert events[..played+1] == events[..played] + [events[played]];
      AfterOneMore(old(shim.Now()), events[..played], events[played], dl.first);
      var done;
      done, handed := PlayNext(shim, old(shim.Now()), events, played, dl, handed);
      if !done {
        return;
      }
      played := played + 1;
    }
  }
}

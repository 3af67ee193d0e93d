/** A UDP relay that drops every fourth request on its way to a target. */
module Relay {
  import opened ByteStrings

  type Address = nat
  datatype Datagram = Datagram(address: Address, data: Bytes)

  /** The counters, the client of the last forwarded request, everything sent, and
      whether an assertion has failed. */
  datatype State = State(requests: nat, drops: nat, replies: nat, client: Option<Address>,
                         sent: seq<Datagram>, failed: bool)

  const START := State(0, 0, 0, None, [], false)

  predicate IsPing(d: Datagram) {
    |d.data| == 1212 && d.data[8] == 4
  }

  /** One received datagram. */
  function Step(target: Address, s: State, d: Datagram): State {
    if s.failed then s
    else if d.address == target then
      (match s.client
       case None => s.(failed := true)
       case Some(c) => s.(replies := s.replies + 1, sent := s.sent + [Datagram(c, d.data)]))
    else if !IsPing(d) then s.(failed := true)
    else if (s.requests + 1) % 4 == 0 then s.(requests := s.requests + 1, drops := s.drops + 1)
    else s.(requests := s.requests + 1, client := Some(d.address), sent := s.sent + [Datagram(target, d.data)])
  }

  function Run(target: Address, ds: seq<Datagram>): State {
    if ds == [] then START else Step(target, Run(target, ds[..|ds|-1]), ds[|ds|-1])
  }

  class LossRelay {
    const target: Address
    var requests: nat
    var drops: nat
    var replies: nat
    var error: bool
    var sent: seq<Datagram>

    constructor (target: Address)
      ensures this.target == target && requests == drops == replies == 0 && !error && sent == []
    {
      this.target := target;
      requests, drops, replies, error, sent := 0, 0, 0, false, [];
    }

    /** The serving loop over the datagrams received until stopped; a failed assertion
        ends it and is recorded. */
    method Serve(received: seq<Datagram>)
      requires requests == drops == replies == 0 && !error && sent == []
      modifies this
      ensures var s := Run(target, received);
        requests == s.requests && drops == s.drops && replies == s.replies && error == s.failed && sent == s.sent
    {
      var client: Option<Address> := None;
      var i := 0;
      while i < |received|
        invariant 0 <= i <= |received|
        invariant Run(target, received[..i]) == State(requests, drops, replies, client, sent, error)
      {
        var d := received[i];
        assert received[..i+1][..i] == received[..i];
        if !error {
          if d.address == target {
            if client.None? {
              error := true;
            } else {
              sent := sent + [Datagram(client.value, d.data)];
              replies := replies + 1;
            }
          } else if !IsPing(d) {
            error := true;
          } else {
            requests := requests + 1;
            if requests % 4 == 0 {
              drops := drops + 1;
            } else {
              client := Some(d.address);
              sent := sent + [Datagram(target, d.data)];
            }
          }
        }
        i := i + 1;
      }
      assert received[..i] == received;
    }
  }

  // ---- Every run ------------------------------------------------------------------------

  /** Datagrams that came from the target, and those that did not. */
  function Answers(target: Address, ds: seq<Datagram>): nat {
    if ds == [] then 0
    else Answers(target, ds[..|ds|-1]) + (if ds[|ds|-1].address == target then 1 else 0)
  }

  function Asked(target: Address, ds: seq<Datagram>): nat {
    if ds == [] then 0
    else Asked(target, ds[..|ds|-1]) + (if ds[|ds|-1].address == target then 0 else 1)
  }

  /** Whatever arrives, exactly every fourth request is dropped, and each datagram sent is
      a forwarded request or a reply. */
  lemma {:induction false} DropsEveryFourth(target: Address, ds: seq<Datagram>)
    ensures var s := Run(target, ds);
      && s.drops == s.requests / 4
      && |s.sent| == (s.requests - s.drops) + s.replies
      && (s.client.None? <==> s.requests == 0)
  {
    if ds != [] {
      DropsEveryFourth(target, ds[..|ds|-1]);
    }
  }

  /** From anyone but the target the relay takes datagrams of 1212 bytes whose ninth is 4 and
      nothing else; from the target, anything once a request was forwarded. */
  lemma OnlyPings(target: Address, ds: seq<Datagram>, d: Datagram)
    requires !Run(target, ds).failed
    ensures Run(target, ds + [d]).failed
       <==> if d.address == target then Run(target, ds).requests == 0
            else !(|d.data| == 1212 && d.data[8] == 4)
  {
    DropsEveryFourth(target, ds);
    assert (ds + [d])[..|ds|] == ds;
  }

  /** The target answers no more than what has been forwarded to it by then. */
  ghost predicate AnswersForwarded(target: Address, ds: seq<Datagram>) {
    forall k | 0 <= k <= |ds| ::
      Answers(target, ds[..k]) <= Asked(target, ds[..k]) - Asked(target, ds[..k]) / 4
  }

  ghost predicate AllPings(target: Address, ds: seq<Datagram>) {
    forall i | 0 <= i < |ds| && ds[i].address != target :: IsPing(ds[i])
  }

  /** If every request is a ping and the target answers at most once for each forwarded
      one, no assertion fails and the counters are those of the traffic. */
  lemma {:induction false} RelayNeverFails(target: Address, ds: seq<Datagram>)
    requires AllPings(target, ds) && AnswersForwarded(target, ds)
    ensures var s := Run(target, ds);
      && !s.failed && s.requests == Asked(target, ds) && s.replies == Answers(target, ds)
      && s.replies <= s.requests - s.drops
  {
    DropsEveryFourth(target, ds);
    assert ds[..|ds|] == ds;
    if ds != [] {
      var front := ds[..|ds|-1];
      forall k | 0 <= k <= |front|
        ensures front[..k] == ds[..k]
      {}
      RelayNeverFails(target, front);
      DropsEveryFourth(target, front);
    }
  }

  /** The sender of the last request that, counting from the first, was not a fourth one. */
  function LastForwarded(target: Address, ds: seq<Datagram>): Option<Address> {
    if ds == [] then None
    else if ds[|ds|-1].address != target && Asked(target, ds) % 4 != 0 then Some(ds[|ds|-1].address)
    else LastForwarded(target, ds[..|ds|-1])
  }

  /** Replies go to that sender: a dropped request does not divert them. */
  lemma {:induction false} RepliesReachLastForwarded(target: Address, ds: seq<Datagram>)
    requires !Run(target, ds).failed
    ensures Run(target, ds).client == LastForwarded(target, ds)
    ensures Run(target, ds).requests == Asked(target, ds)
  {
    if ds != [] {
      RepliesReachLastForwarded(target, ds[..|ds|-1]);
    }
  }

  // ---- Sequential pings ---------------------------------------------------------------------

  /** Pings sent one after the other, the target answering each one it gets. */
  function Sequential(target: Address, pings: seq<Datagram>, answers: seq<Bytes>): seq<Datagram>
    requires |pings| == |answers|
  {
    if pings == [] then [] else
    var n := |pings| - 1;
    Sequential(target, pings[..n], answers[..n]) + [pings[n]]
    + (if (n + 1) % 4 == 0 then [] else [Datagram(target, answers[n])])
  }

  /** What the relay sends for them: each forwarded ping, then its answer to its sender. */
  function Exchanged(target: Address, pings: seq<Datagram>, answers: seq<Bytes>): seq<Datagram>
    requires |pings| == |answers|
  {
    if pings == [] then [] else
    var n := |pings| - 1;
    Exchanged(target, pings[..n], answers[..n])
    + (if (n + 1) % 4 == 0 then []
       else [Datagram(target, pings[n].data), Datagram(pings[n].address, answers[n])])
  }

  lemma RunTwo(target: Address, ds: seq<Datagram>, a: Datagram, b: Datagram)
    ensures Run(target, ds + [a]) == Step(target, Run(target, ds), a)
    ensures Run(target, ds + [a] + [b]) == Step(target, Step(target, Run(target, ds), a), b)
  {
    assert (ds + [a])[..|ds|] == ds;
    assert (ds + [a] + [b])[..|ds|+1] == ds + [a];
  }

  lemma PingStep(target: Address, s: State, ping: Datagram, answer: Bytes)
    requires !s.failed && IsPing(ping) && ping.address != target
    ensures (s.requests + 1) % 4 == 0 ==>
      Step(target, s, ping) == s.(requests := s.requests + 1, drops := s.drops + 1)
    ensures (s.requests + 1) % 4 != 0 ==>
      Step(target, Step(target, s, ping), Datagram(target, answer))
      == s.(requests := s.requests + 1, replies := s.replies + 1, client := Some(ping.address),
            sent := s.sent + [Datagram(target, ping.data), Datagram(ping.address, answer)])
  {}

  /** Each answered ping's reply reaches its own sender, and 4k pings end at 4k requests,
      3k replies and k drops. */
  lemma {:induction false} SequentialPings(target: Address, pings: seq<Datagram>, answers: seq<Bytes>)
    requires |pings| == |answers|
    requires forall i | 0 <= i < |pings| :: IsPing(pings[i]) && pings[i].address != target
    ensures var s, n := Run(target, Sequential(target, pings, answers)), |pings|;
      && !s.failed && s.requests == n && s.drops == n / 4 && s.replies == n - n / 4
      && s.sent == Exchanged(target, pings, answers)
  {
    if pings != [] {
      var n := |pings| - 1;
      var before := Sequential(target, pings[..n], answers[..n]);
      SequentialPings(target, pings[..n], answers[..n]);
      SequentialNext(target, before, pings[n], answers[n]);
      Quarter(n);
    }
  }

  lemma Quarter(n: nat)
    ensures (n + 1) / 4 == n / 4 + (if (n + 1) % 4 == 0 then 1 else 0)
  {}

  /** One more ping after these datagrams, answered unless it is the fourth. */
  lemma SequentialNext(target: Address, ds: seq<Datagram>, ping: Datagram, answer: Bytes)
    requires var s := Run(target, ds); !s.failed && IsPing(ping) && ping.address != target
    ensures var s := Run(target, ds);
      var dropped := (s.requests + 1) % 4 == 0;
      var t := Run(target, ds + [ping] + (if dropped then [] else [Datagram(target, answer)]));
      && !t.failed && t.requests == s.requests + 1
      && t.drops == s.drops + (if dropped then 1 else 0) && t.replies == s.replies + (if dropped then 0 else 1)
      && t.sent == s.sent + (if dropped then [] else [Datagram(target, ping.data), Datagram(ping.address, answer)])
  {
    RunTwo(target, ds, ping, Datagram(target, answer));
    PingStep(target, Run(target, ds), ping, answer);
    assert ds + [ping] + [] == ds + [ping];
  }
}

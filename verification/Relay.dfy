/**
 Relaying (src/session.rs:652-690, 756-794, 862-878): a message for somebody else is
 decoded, handed to the session of the next hop, and encoded again.
 */
module Relay {
  import opened Wrappers
  import opened Peers
  import opened Wire

  // A session of a relay: the peer at its far end, and whether it has a stream of its own.
  datatype Leg = Leg(remote: PeerId, direct: bool)

  // One relay on the way: itself, whether it relays at all, and the sessions that the
  // message is handed through inside it. The first is the one its routing chose, if it
  // found one; a session that is itself relayed asks the routing table again for the next.
  datatype Hop = Hop(self: PeerId, relays: bool, legs: seq<Leg>)

  // Whether a message from `source` to `target` gets from these sessions onto a stream.
  predicate LeavesBy(self: PeerId, legs: seq<Leg>, source: PeerId, target: PeerId)
  {
    && legs != []
    && !(target == legs[0].remote && source == self)
    && (legs[0].direct || LeavesBy(self, legs[1..], source, target))
  }

  // What `handle_endpoint` and then `handle_outside` of the next sessions send on.
  function Forward(h: Hop, m: EndpointMessage): Option<EndpointMessage>
  {
    match m
    case RelayData(from, to, data) =>
      if to == h.self || !h.relays || !LeavesBy(h.self, h.legs, from, to) then None
      else Some(RelayData(from, to, data))
    case RelayHandshake(r, to) =>
      if to == h.self || !h.relays || !LeavesBy(h.self, h.legs, r.peer.id, to) then None
      else Some(RelayHandshake(r, to))
    case _ => None
  }

  // `legs[n]` is the first session with a stream, and none up to it would bounce a message
  // from `source` to `target` back to where it came from.
  ghost predicate GetsOutAt(self: PeerId, legs: seq<Leg>, source: PeerId, target: PeerId, n: nat)
  {
    && n < |legs| && legs[n].direct
    && (forall i :: 0 <= i < n ==> !legs[i].direct)
    && forall i :: 0 <= i <= n ==> !(target == legs[i].remote && source == self)
  }

  lemma {:induction false} LeavesByFirstStream(self: PeerId, legs: seq<Leg>, source: PeerId, target: PeerId)
    ensures LeavesBy(self, legs, source, target) <==> exists n: nat :: GetsOutAt(self, legs, source, target, n)
    decreases |legs|
  {
    if legs == [] {
    } else {
      var rest := legs[1..];
      LeavesByFirstStream(self, rest, source, target);
      if legs[0].direct {
        if LeavesBy(self, legs, source, target) {
          assert GetsOutAt(self, legs, source, target, 0);
        }
      } else {
        if LeavesBy(self, legs, source, target) {
          var n: nat :| GetsOutAt(self, rest, source, target, n);
          assert forall i :: 1 <= i <= n + 1 ==> legs[i] == rest[i - 1];
          assert GetsOutAt(self, legs, source, target, n + 1);
        }
        forall n: nat | GetsOutAt(self, legs, source, target, n) ensures LeavesBy(self, legs, source, target) {
          assert forall i :: 0 <= i < |rest| ==> rest[i] == legs[i + 1];
          assert GetsOutAt(self, rest, source, target, n - 1);
        }
      }
    }
  }

  // One crossing of the wire.
  function Cross(m: EndpointMessage): Result<EndpointMessage>
  {
    Decode(Encode(m))
  }

  // What comes off the wire at the far end of a chain of relays.
  function Travel(m: EndpointMessage, hops: seq<Hop>): Option<EndpointMessage>
  {
    TravelBy(Cross, m, hops)
  }

  function TravelBy(cross: EndpointMessage -> Result<EndpointMessage>, m: EndpointMessage, hops: seq<Hop>): Option<EndpointMessage>
    decreases |hops|
  {
    var r := cross(m);
    if r.Err? then None
    else if hops == [] then Some(r.value)
    else
      var f := Forward(hops[0], r.value);
      if f.None? then None else TravelBy(cross, f.value, hops[1..])
  }

  // The two ends of a relayed message.
  function SourceOf(m: EndpointMessage): PeerId
    requires m.RelayData? || m.RelayHandshake?
  {
    if m.RelayData? then m.source else m.from.peer.id
  }

  function TargetOf(m: EndpointMessage): PeerId
    requires m.RelayData? || m.RelayHandshake?
  {
    if m.RelayData? then m.target else m.to
  }

  // A node passes a message on when it relays at all, the message is not for itself, and
  // the handing on inside it reaches a stream before it meets a session that would bounce.
  ghost predicate PassesOn(h: Hop, source: PeerId, target: PeerId)
  {
    h.relays && target != h.self && exists n: nat :: GetsOutAt(h.self, h.legs, source, target, n)
  }

  ghost predicate Passes(m: EndpointMessage, hops: seq<Hop>)
    requires m.RelayData? || m.RelayHandshake?
  {
    forall h :: h in hops ==> PassesOn(h, SourceOf(m), TargetOf(m))
  }

  // A relay sends on exactly the messages it should, exactly as it decoded them.
  lemma ForwardExactly(h: Hop, m: EndpointMessage)
    requires m.RelayData? || m.RelayHandshake?
    ensures Forward(h, m) == if PassesOn(h, SourceOf(m), TargetOf(m)) then Some(m) else None
  {
    LeavesByFirstStream(h.self, h.legs, SourceOf(m), TargetOf(m));
  }

  // Nothing that it decides by is changed by the wire.
  lemma ForwardKeeps(h: Hop, m: EndpointMessage)
    requires m.RelayData? || m.RelayHandshake?
    ensures Forward(h, m) == if PassesOn(h, SourceOf(m), TargetOf(m)) then Some(m) else None
    ensures Forward(h, Normal(m)) == if PassesOn(h, SourceOf(m), TargetOf(m)) then Some(Normal(m)) else None
  {
    ForwardExactly(h, m);
    ForwardExactly(h, Normal(m));
  }

  lemma {:induction false} TravelByKeeps(cross: EndpointMessage -> Result<EndpointMessage>, m: EndpointMessage, hops: seq<Hop>)
    requires m.RelayData? || m.RelayHandshake?
    requires cross(m) == Ok(Normal(m)) && cross(Normal(m)) == Ok(Normal(m)) && Normal(Normal(m)) == Normal(m)
    ensures TravelBy(cross, m, hops) == if Passes(m, hops) then Some(Normal(m)) else None
    decreases |hops|
  {
    if hops == [] {
    } else {
      ForwardKeeps(hops[0], m);
      FirstPasses(m, hops);
      if PassesOn(hops[0], SourceOf(m), TargetOf(m)) {
        TravelByKeeps(cross, Normal(m), hops[1..]);
      }
    }
  }

  lemma FirstPasses(m: EndpointMessage, hops: seq<Hop>)
    requires (m.RelayData? || m.RelayHandshake?) && hops != []
    ensures Passes(m, hops) <==> PassesOn(hops[0], SourceOf(m), TargetOf(m)) && Passes(Normal(m), hops[1..])
  {
    assert hops == [hops[0]] + hops[1..];
  }

  // Over any number of relays a message arrives exactly when every relay passes it on,
  // and what arrives is what one crossing of the wire makes of it.
  lemma TravelKeeps(m: EndpointMessage, hops: seq<Hop>)
    requires WellFormed(m) && (m.RelayData? || m.RelayHandshake?)
    ensures Travel(m, hops) == if Passes(m, hops) then Some(Normal(m)) else None
  {
    NormalTwice(m);
    RoundTrip(m);
    RoundTrip(Normal(m));
    TravelByKeeps(Cross, m, hops);
  }

  // The encrypted data and its two ends cross any chain untouched.
  lemma RelayDataUntouched(source: PeerId, target: PeerId, payload: seq<Bytes.byte>, hops: seq<Hop>)
    requires Travel(RelayData(source, target, payload), hops).Some?
    ensures Travel(RelayData(source, target, payload), hops) == Some(RelayData(source, target, payload))
  {
    TravelKeeps(RelayData(source, target, payload), hops);
  }

  // A handshake looks the same after any two chains that let it through.
  lemma HandshakeStable(r: RemotePublic, to: PeerId, hops: seq<Hop>, hops': seq<Hop>)
    requires FitsRemote(r)
    requires Travel(RelayHandshake(r, to), hops).Some? && Travel(RelayHandshake(r, to), hops').Some?
    ensures Travel(RelayHandshake(r, to), hops) == Travel(RelayHandshake(r, to), hops') == Some(RelayHandshake(NormalRemote(r), to))
  {
    TravelKeeps(RelayHandshake(r, to), hops);
    TravelKeeps(RelayHandshake(r, to), hops');
  }
}

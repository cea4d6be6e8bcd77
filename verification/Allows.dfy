/**
 The allow list of `PeerList` (src/peer_list.rs:208-222, 299-330): peers worth connecting to, with
 at most the checks for repeats that the source makes.
 */
module Allows {
  import opened Peers

  // `Peer::peer`: all that is known of the peer is its id.
  function PeerOnly(id: PeerId): Peer
  {
    Peer(id, V4([0, 0, 0, 0], 0), QUIC, true)
  }

  predicate HasId(allows: seq<Peer>, id: PeerId)
  {
    exists a :: a in allows && a.id == id
  }

  predicate HasSocket(allows: seq<Peer>, socket: SocketAddr)
  {
    exists a :: a in allows && a.socket == socket
  }

  // `add_bootstrap` tells repeats by their socket, `add_allow_peer` by their id.
  function WithBootstrap(allows: seq<Peer>, peer: Peer): seq<Peer>
  {
    if HasSocket(allows, peer.socket) then allows else allows + [peer]
  }

  function WithAllowed(allows: seq<Peer>, id: PeerId): seq<Peer>
  {
    if HasId(allows, id) then allows else allows + [PeerOnly(id)]
  }

  // `remove_allow_peer` takes the first entry of a peer, `peer_disconnect` the last one
  // with a socket.
  function FirstOf(allows: seq<Peer>, id: PeerId): (n: nat)
    ensures n <= |allows| && (n < |allows| ==> allows[n].id == id)
    ensures forall i :: 0 <= i < n ==> allows[i].id != id
  {
    if allows == [] || allows[0].id == id then 0 else 1 + FirstOf(allows[1..], id)
  }

  function LastAt(allows: seq<Peer>, socket: SocketAddr): (n: int)
    ensures -1 <= n < |allows| && (0 <= n ==> allows[n].socket == socket)
    ensures forall i :: n < i < |allows| ==> allows[i].socket != socket
  {
    if allows == [] then -1
    else if allows[|allows| - 1].socket == socket then |allows| - 1
    else LastAt(allows[..|allows| - 1], socket)
  }

  function RemoveEntry(allows: seq<Peer>, i: nat): seq<Peer>
    requires i < |allows|
  {
    allows[..i] + allows[i + 1..]
  }

  function WithoutPeer(allows: seq<Peer>, id: PeerId): seq<Peer>
  {
    var n := FirstOf(allows, id);
    if n < |allows| then RemoveEntry(allows, n) else allows
  }

  function WithoutSocket(allows: seq<Peer>, socket: SocketAddr): seq<Peer>
  {
    var n := LastAt(allows, socket);
    if n < 0 then allows else RemoveEntry(allows, n)
  }

  method AddBootstrap(allows: seq<Peer>, peer: Peer) returns (out: seq<Peer>)
    ensures out == WithBootstrap(allows, peer)
  {
    var isNew := true;
    for i := 0 to |allows|
      invariant isNew <==> !HasSocket(allows[..i], peer.socket)
    {
      assert allows[..i + 1] == allows[..i] + [allows[i]];
      if allows[i].socket == peer.socket {
        isNew := false;
        assert allows[i] in allows[..i + 1];
      }
    }
    assert allows[..|allows|] == allows;
    out := if isNew then allows + [peer] else allows;
  }

  method AddAllowPeer(allows: seq<Peer>, id: PeerId) returns (out: seq<Peer>)
    ensures out == WithAllowed(allows, id)
  {
    var isNew := true;
    for i := 0 to |allows|
      invariant isNew <==> !HasId(allows[..i], id)
    {
      assert allows[..i + 1] == allows[..i] + [allows[i]];
      if allows[i].id == id {
        isNew := false;
        assert allows[i] in allows[..i + 1];
      }
    }
    assert allows[..|allows|] == allows;
    out := if isNew then allows + [PeerOnly(id)] else allows;
  }

  method RemoveAllowPeer(allows: seq<Peer>, id: PeerId) returns (out: seq<Peer>)
    ensures out == WithoutPeer(allows, id)
  {
    var pos := 0;
    while pos < |allows| && allows[pos].id != id
      invariant 0 <= pos <= |allows|
      invariant forall i :: 0 <= i < pos ==> allows[i].id != id
    {
      pos := pos + 1;
    }
    out := if pos < |allows| then allows[..pos] + allows[pos + 1..] else allows;
  }

  method PeerDisconnect(allows: seq<Peer>, socket: SocketAddr) returns (out: seq<Peer>)
    ensures out == WithoutSocket(allows, socket)
  {
    var d := -1;
    for k := 0 to |allows|
      invariant d == LastAt(allows[..k], socket)
    {
      assert allows[..k + 1][..k] == allows[..k];
      if allows[k].socket == socket {
        d := k;
      }
    }
    assert allows[..|allows|] == allows;
    out := if d >= 0 then allows[..d] + allows[d + 1..] else allows;
  }

  // ---------------------------------------------------------------- who is still allowed

  lemma EntryGone(allows: seq<Peer>, i: nat, id: PeerId)
    requires i < |allows|
    ensures HasId(RemoveEntry(allows, i), id) <==> exists j :: 0 <= j < |allows| && j != i && allows[j].id == id
  {
    var out := RemoveEntry(allows, i);
    if HasId(out, id) {
      var a :| a in out && a.id == id;
      var k :| 0 <= k < |out| && out[k] == a;
      assert allows[if k < i then k else k + 1] == a;
    }
    forall j | 0 <= j < |allows| && j != i && allows[j].id == id ensures HasId(out, id) {
      assert out[if j < i then j else j - 1] == allows[j];
    }
  }

  // Everybody but the peer taken out stays allowed.
  lemma OthersStayAllowed(allows: seq<Peer>, id: PeerId, other: PeerId)
    requires id != other
    ensures HasId(WithoutPeer(allows, id), other) <==> HasId(allows, other)
  {
    var n := FirstOf(allows, id);
    if n < |allows| {
      EntryGone(allows, n, other);
    }
  }

  lemma AddingKeepsAllowed(allows: seq<Peer>, peer: Peer, id: PeerId, other: PeerId)
    requires HasId(allows, other)
    ensures HasId(WithBootstrap(allows, peer), other) && HasId(WithAllowed(allows, id), other)
  {
    var a :| a in allows && a.id == other;
    assert a in WithBootstrap(allows, peer) && a in WithAllowed(allows, id);
  }

  // A bootstrap peer's socket is listed afterwards, by the old entry if there was one; the list
  // only grows, at the end, and only by that peer.
  lemma BootstrapCame(allows: seq<Peer>, peer: Peer)
    ensures HasSocket(WithBootstrap(allows, peer), peer.socket) && allows <= WithBootstrap(allows, peer)
    ensures peer in WithBootstrap(allows, peer) <==> peer in allows || forall a :: a in allows ==> a.socket != peer.socket
    ensures forall a :: a in WithBootstrap(allows, peer) && a !in allows ==> a == peer
  {
    if !HasSocket(allows, peer.socket) {
      assert peer in WithBootstrap(allows, peer);
    }
  }

  ghost function EntriesOf(allows: seq<Peer>, id: PeerId): nat
  {
    if allows == [] then 0 else EntriesOf(allows[..|allows| - 1], id) + if allows[|allows| - 1].id == id then 1 else 0
  }

  lemma {:induction false} EntriesConcat(a: seq<Peer>, b: seq<Peer>, id: PeerId)
    ensures EntriesOf(a + b, id) == EntriesOf(a, id) + EntriesOf(b, id)
  {
    if b == [] {
      assert a + b == a;
    } else {
      assert (a + b)[..|a + b| - 1] == a + b[..|b| - 1];
      EntriesConcat(a, b[..|b| - 1], id);
    }
  }

  // A peer that is taken out loses exactly one entry, its first, if it has one.
  lemma PeerWent(allows: seq<Peer>, id: PeerId)
    ensures EntriesOf(WithoutPeer(allows, id), id) == if HasId(allows, id) then EntriesOf(allows, id) - 1 else EntriesOf(allows, id)
    ensures |WithoutPeer(allows, id)| == if HasId(allows, id) then |allows| - 1 else |allows|
  {
    var n := FirstOf(allows, id);
    if n < |allows| {
      assert allows[n] in allows;
      var before, after := allows[..n], allows[n + 1..];
      assert allows == before + ([allows[n]] + after);
      EntriesConcat(before, [allows[n]] + after, id);
      EntriesConcat([allows[n]], after, id);
      EntriesConcat(before, after, id);
      assert EntriesOf([allows[n]], id) == 1 by {
        assert [allows[n]][..0] == [];
      }
    }
  }

  lemma AllowedOnceAdded(allows: seq<Peer>, id: PeerId)
    ensures HasId(WithAllowed(allows, id), id)
  {
    if !HasId(allows, id) {
      assert PeerOnly(id) in WithAllowed(allows, id);
    }
  }

  ghost predicate AllAllowed(allows: seq<Peer>, ids: set<PeerId>)
  {
    forall id :: id in ids ==> HasId(allows, id)
  }

  // The entry that a disconnect at `socket` takes is of none of `ids`, or is not the only
  // one of its peer.
  ghost predicate Spares(allows: seq<Peer>, socket: SocketAddr, ids: set<PeerId>)
  {
    var n := LastAt(allows, socket);
    n < 0 || allows[n].id !in ids || exists j :: 0 <= j < |allows| && j != n && allows[j].id == allows[n].id
  }

  // Then, and only then, all of `ids` stay allowed.
  lemma DisconnectKeepsAllowed(allows: seq<Peer>, socket: SocketAddr, ids: set<PeerId>)
    requires AllAllowed(allows, ids)
    ensures AllAllowed(WithoutSocket(allows, socket), ids) <==> Spares(allows, socket, ids)
  {
    var n := LastAt(allows, socket);
    if 0 <= n {
      forall id | id in ids && id != allows[n].id ensures HasId(WithoutSocket(allows, socket), id) {
        EntryGone(allows, n, id);
        var a :| a in allows && a.id == id;
        var j :| 0 <= j < |allows| && allows[j] == a;
      }
      EntryGone(allows, n, allows[n].id);
    }
  }

  // It can fail: a stable peer whose only entry has the socket of the lost connection.
  lemma DisconnectForgets(p: Peer)
    ensures AllAllowed([p], {p.id}) && !AllAllowed(WithoutSocket([p], p.socket), {p.id})
  {
    assert p in [p];
    assert WithoutSocket([p], p.socket) == [];
  }
}

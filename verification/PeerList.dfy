/**
 `PeerList` (src/peer_list.rs): the routing table and the stable connections together.
 */
module PeerList {
  import opened Wrappers
  import opened Bytes
  import opened Lookup
  import opened Peers
  import opened Table
  import opened Allows
  import DoubleKad

  // A stable connection, and whether it is direct or relayed.
  datatype Stable = Stable(value: KadValue, direct: bool)

  // ---------------------------------------------------------------- what the two tables say together

  function Known(t: map<PeerId, KadValue>, st: map<PeerId, Stable>): set<PeerId>
  {
    t.Keys + st.Keys
  }

  // `vec` lists the peers filed under `ks`, in this order.
  ghost predicate Lists(t: map<PeerId, KadValue>, st: map<PeerId, Stable>, ks: seq<PeerId>, vec: seq<Peer>)
  {
    && |vec| == |ks|
    && forall i :: 0 <= i < |ks| ==> ks[i] in Known(t, st) && vec[i] == (if ks[i] in st then st[ks[i]].value else t[ks[i]]).peer
  }

  // One send of a broadcast: to whom, over which session, and what.
  datatype Send = Send(to: PeerId, session: Sender, tid: U64, data: seq<byte>)

  // A repeat-free listing is as long as the set it lists.
  lemma {:induction false} ListingCounts(ks: seq<PeerId>, known: set<PeerId>)
    requires NoRepeats(ks) && forall k :: k in ks <==> k in known
    ensures |ks| == |known|
  {
    if ks == [] {
      assert known == {};
    } else {
      var n := |ks| - 1;
      assert ks == ks[..n] + [ks[n]];
      ListingCounts(ks[..n], known - {ks[n]});
    }
  }

  lemma HelpExact(t: map<PeerId, KadValue>, st: map<PeerId, Stable>, peer: PeerId, peers: map<PeerId, Peer>, ks: seq<PeerId>, vec: seq<Peer>)
    requires peers.Keys == Known(t, st) - {peer}
    requires forall k :: k in peers ==> peers[k] == (if k in st then st[k].value else t[k]).peer
    requires |vec| == |ks| && forall k :: k in ks <==> k in peers
    requires forall i :: 0 <= i < |ks| ==> vec[i] == peers[ks[i]]
    ensures Lists(t, st, ks, vec)
    ensures forall k :: k in ks <==> k in Known(t, st) && k != peer
  {
    forall i | 0 <= i < |ks| ensures ks[i] in Known(t, st) && vec[i] == (if ks[i] in st then st[ks[i]].value else t[ks[i]]).peer {
      assert ks[i] in ks;
    }
  }

  lemma NothingGone(t: map<PeerId, KadValue>, peer: PeerId)
    ensures peer !in t ==> t - {peer} == t
  {
  }

  class PeerList {
    const dhts: DoubleKad.DoubleKadTree
    var stables: map<PeerId, Stable>
    var allows: seq<Peer>
    ghost var Repr: set<object>

    ghost predicate Valid()
      reads `Repr, Repr - {this}
      ensures Valid() ==> this in Repr && dhts.peers.Valid() && dhts.peers.space.Valid()
    {
      && this in Repr && dhts in Repr && dhts.Repr <= Repr && this !in dhts.Repr
      && dhts.Valid()
    }

    // Every stable peer is on the allow list.
    ghost predicate StablesAllowed()
      reads this
    {
      AllAllowed(allows, stables.Keys)
    }

    constructor (self: PeerId, allows: seq<Peer>)
      ensures Valid() && fresh(Repr) && StablesAllowed()
      ensures dhts.Table == map[] && stables == map[] && this.allows == allows
      ensures dhts.peers.rootKey == self
      ensures Repr == {this, dhts, dhts.peers, dhts.ips}
    {
      var d := new DoubleKad.DoubleKadTree(self, V4([0, 0, 0, 0], 0));
      dhts, stables, this.allows := d, map[], allows;
      Repr := {this} + d.Repr;
    }

    method IsEmpty() returns (b: bool)
      requires Valid()
      ensures b <==> Known(dhts.Table, stables) == {}
    {
      var e := dhts.IsEmpty();
      b := stables == map[] && e;
      assert dhts.Table.Keys == {} <==> dhts.Table == map[];
      assert stables.Keys == {} <==> stables == map[];
    }

    // Every connected peer, once, with the sender of its own session.
    method All() returns (peers: map<PeerId, Sender>)
      requires Valid()
      ensures peers.Keys == Known(dhts.Table, stables)
      ensures forall k :: k in stables ==> peers[k] == stables[k].value.session
      ensures forall k :: k in dhts.Table && k !in stables ==> peers[k] == dhts.Table[k].session
    {
      var fromDht := DhtSenders();
      peers := WithStables(fromDht, stables);
    }

    static method WithStables(base: map<PeerId, Sender>, stables: map<PeerId, Stable>) returns (peers: map<PeerId, Sender>)
      ensures peers.Keys == base.Keys + stables.Keys
      ensures forall k :: k in peers ==> peers[k] == if k in stables then stables[k].value.session else base[k]
    {
      peers := base;
      var todo := stables.Keys;
      while todo != {}
        invariant todo <= stables.Keys
        invariant peers.Keys == base.Keys + (stables.Keys - todo)
        invariant forall k :: k in peers ==> peers[k] == if k in stables && k !in todo then stables[k].value.session else base[k]
      {
        var p :| p in todo;
        peers := peers[p := stables[p].value.session];
        todo := todo - {p};
      }
    }

    // A gossip broadcast (src/server.rs:507-512): one send to each known peer, over its own
    // session, and no other send.
    method Gossip(data: seq<byte>) returns (sends: seq<Send>, ghost ks: seq<PeerId>)
      requires Valid()
      ensures NoRepeats(ks) && forall k :: k in ks <==> k in Known(dhts.Table, stables)
      ensures |sends| == |ks| == |Known(dhts.Table, stables)|
      ensures forall i :: 0 <= i < |ks| ==> ks[i] in Known(dhts.Table, stables) &&
                                            sends[i] == Send(ks[i], (if ks[i] in stables then stables[ks[i]].value else dhts.Table[ks[i]]).session, 0, data)
    {
      var peers := All();
      sends, ks := SendAll(peers, data);
    }

    static method SendAll(peers: map<PeerId, Sender>, data: seq<byte>) returns (sends: seq<Send>, ghost ks: seq<PeerId>)
      ensures NoRepeats(ks) && |sends| == |ks| == |peers.Keys|
      ensures forall k :: k in ks <==> k in peers
      ensures forall i :: 0 <= i < |ks| ==> ks[i] in peers && sends[i] == Send(ks[i], peers[ks[i]], 0, data)
    {
      sends, ks := [], [];
      var todo := peers.Keys;
      while todo != {}
        invariant todo <= peers.Keys
        invariant NoRepeats(ks) && |sends| == |ks|
        invariant forall k :: k in ks <==> k in peers && k !in todo
        invariant forall i :: 0 <= i < |ks| ==> ks[i] in peers && sends[i] == Send(ks[i], peers[ks[i]], 0, data)
      {
        var to :| to in todo;
        sends := sends + [Send(to, peers[to], 0, data)];
        ks := ks + [to];
        todo := todo - {to};
      }
      ListingCounts(ks, peers.Keys);
    }

    // The routing table's answer for a key it holds.
    method Find(key: PeerId) returns (r: Option<(KadValue, bool)>)
      requires Valid()
      ensures key in dhts.Table ==> r == Some((dhts.Table[key], true)) && dhts.Table[key].peer.id == key
    {
      r := dhts.Search(key);
    }

    method DhtSenders() returns (peers: map<PeerId, Sender>)
      requires Valid()
      ensures peers.Keys == dhts.Table.Keys
      ensures forall k :: k in peers ==> peers[k] == dhts.Table[k].session
    {
      peers := map[];
      var keys := dhts.Keys();
      for i := 0 to |keys|
        invariant forall k :: k in peers <==> k in keys[..i]
        invariant forall k :: k in peers ==> k in dhts.Table && peers[k] == dhts.Table[k].session
      {
        assert keys[..i + 1] == keys[..i] + [keys[i]];
        assert keys[i] in dhts.Table;
        var r := Find(keys[i]);
        if r.Some? {
          peers := peers[keys[i] := r.value.0.session];
        }
      }
      assert keys[..|keys|] == keys;
    }

    // Each known peer other than `peer`, once.
    method HelpDht(peer: PeerId) returns (vec: seq<Peer>, ghost ks: seq<PeerId>)
      requires Valid()
      ensures NoRepeats(ks) && Lists(dhts.Table, stables, ks, vec)
      ensures forall k :: k in ks <==> k in Known(dhts.Table, stables) && k != peer
      ensures |vec| == |Known(dhts.Table, stables) - {peer}|
    {
      var peers := HelpMap(peer);
      vec, ks := Collect(peers);
      HelpExact(dhts.Table, stables, peer, peers, ks, vec);
    }

    // The values of a map, in some order of its keys.
    static method Collect(peers: map<PeerId, Peer>) returns (vec: seq<Peer>, ghost ks: seq<PeerId>)
      ensures NoRepeats(ks) && |vec| == |ks| == |peers.Keys|
      ensures forall k :: k in ks <==> k in peers
      ensures forall i :: 0 <= i < |ks| ==> vec[i] == peers[ks[i]]
    {
      vec, ks := [], [];
      var todo := peers.Keys;
      while todo != {}
        invariant todo <= peers.Keys
        invariant NoRepeats(ks) && |vec| == |ks|
        invariant forall k :: k in ks <==> k in peers && k !in todo
        invariant forall i :: 0 <= i < |ks| ==> vec[i] == peers[ks[i]]
      {
        var p :| p in todo;
        vec := vec + [peers[p]];
        ks := ks + [p];
        todo := todo - {p};
      }
      ListingCounts(ks, peers.Keys);
    }

    method HelpMap(peer: PeerId) returns (peers: map<PeerId, Peer>)
      requires Valid()
      ensures peers.Keys == Known(dhts.Table, stables) - {peer}
      ensures forall k :: k in peers ==> peers[k] == (if k in stables then stables[k].value else dhts.Table[k]).peer
    {
      var fromDht := DhtHelp(peer);
      peers := HelpWithStables(fromDht, stables, peer);
    }

    static method HelpWithStables(base: map<PeerId, Peer>, stables: map<PeerId, Stable>, peer: PeerId) returns (peers: map<PeerId, Peer>)
      requires peer !in base
      ensures peers.Keys == base.Keys + stables.Keys - {peer}
      ensures forall k :: k in peers ==> peers[k] == if k in stables then stables[k].value.peer else base[k]
    {
      peers := base;
      var todo := stables.Keys;
      while todo != {}
        invariant todo <= stables.Keys
        invariant peers.Keys == base.Keys + (stables.Keys - todo) - {peer}
        invariant forall k :: k in peers ==> peers[k] == if k in stables && k !in todo then stables[k].value.peer else base[k]
      {
        var p :| p in todo;
        if p != peer {
          peers := peers[p := stables[p].value.peer];
        }
        todo := todo - {p};
      }
    }

    method DhtHelp(peer: PeerId) returns (peers: map<PeerId, Peer>)
      requires Valid()
      ensures forall k :: k in peers <==> k in dhts.Table && k != peer
      ensures forall k :: k in peers ==> peers[k] == dhts.Table[k].peer
    {
      peers := map[];
      var keys := dhts.Keys();
      for i := 0 to |keys|
        invariant forall k :: k in peers <==> k in keys[..i] && k != peer
        invariant forall k :: k in peers ==> k in dhts.Table && peers[k] == dhts.Table[k].peer
      {
        assert keys[..i + 1] == keys[..i] + [keys[i]];
        assert keys[i] in dhts.Table;
        peers := HelpWith(peers, keys[i], peer);
      }
      assert keys[..|keys|] == keys;
    }

    method HelpWith(base: map<PeerId, Peer>, key: PeerId, peer: PeerId) returns (peers: map<PeerId, Peer>)
      requires Valid() && key in dhts.Table
      ensures peers == if key == peer then base else base[key := dhts.Table[key].peer]
    {
      peers := base;
      if key != peer {
        var r := Find(key);
        if r.Some? && r.value.1 {
          peers := peers[r.value.0.peer.id := r.value.0.peer];
        }
      }
    }

    // A search of the routing table for `peer` comes back with nothing.
    ghost predicate Misses(peer: PeerId)
      requires Valid()
      reads this, Repr
    {
      dhts.peers.Misses(peer)
    }

    // A stable peer is found as itself; otherwise the routing table answers.
    method Get(peer: PeerId) returns (r: Option<(KadValue, bool)>)
      requires Valid()
      ensures peer in stables ==> r == Some((stables[peer].value, true))
      ensures peer !in stables && r.Some? ==> Nearest(dhts.Table, peer, r.value.0, r.value.1)
      ensures r.None? <==> peer !in stables && Misses(peer)
      ensures peer in Known(dhts.Table, stables) <==> r.Some? && r.value.1
    {
      if peer in stables {
        r := Some((stables[peer].value, true));
      } else {
        r := dhts.Search(peer);
      }
    }

    method NextClosest(target: PeerId, prev: PeerId) returns (r: Option<Sender>)
      requires Valid()
      ensures target in stables ==> r == Some(stables[target].value.session)
      ensures target !in stables && target in dhts.Table && target != prev ==> r == Some(dhts.Table[target].session)
      ensures target !in stables && r.Some? ==>
                exists v: KadValue :: Nearest(dhts.Table, target, v, v.peer.id == target) && v.peer.id != prev && r.value == v.session
      ensures r.None? <==> target !in stables && (Misses(target) || OnlyBack(dhts.Table, target, prev))
    {
      if target in stables {
        r := Some(stables[target].value.session);
      } else {
        var v := dhts.IdNextClosest(target, prev);
        r := if v.Some? then Some(v.value.session) else None;
      }
    }

    method Contains(peer: PeerId) returns (b: bool)
      requires Valid()
      ensures b <==> peer in Known(dhts.Table, stables)
    {
      var d := dhts.Contains(peer);
      b := peer in stables || d;
    }

    // ---------------------------------------------------------------- changes

    // A session that is replaced is told to close.
    method AddStable(peer: PeerId, v: KadValue, direct: bool) returns (closed: Option<Sender>)
      requires Valid()
      modifies `stables, `allows
      ensures Valid() && stables == old(stables)[peer := Stable(v, direct)]
      ensures allows == if peer in old(stables) then old(allows) else WithAllowed(old(allows), peer)
      ensures closed == if peer in old(stables) then Some(old(stables)[peer].value.session) else None
      ensures old(StablesAllowed()) ==> StablesAllowed()
    {
      if peer in stables {
        closed := Some(stables[peer].value.session);
        stables := stables[peer := Stable(v, direct)];
      } else {
        closed := None;
        Admit(peer, Stable(v, direct));
      }
    }

    method Admit(peer: PeerId, e: Stable)
      requires Valid()
      modifies `stables, `allows
      ensures Valid() && stables == old(stables)[peer := e] && allows == WithAllowed(old(allows), peer)
      ensures old(StablesAllowed()) ==> StablesAllowed()
    {
      AllowingKeepsStables(peer);
      allows := AddAllowPeer(allows, peer);
      stables := stables[peer := e];
    }

    lemma AllowingKeepsStables(peer: PeerId)
      ensures HasId(WithAllowed(allows, peer), peer)
      ensures StablesAllowed() ==> forall p :: p in stables ==> HasId(WithAllowed(allows, peer), p)
    {
      AllowedOnceAdded(allows, peer);
      if StablesAllowed() {
        forall p | p in stables ensures HasId(WithAllowed(allows, peer), p) {
          AddingKeepsAllowed(allows, PeerOnly(peer), peer, p);
        }
      }
    }

    lemma BootstrapKeepsStables(peer: Peer)
      ensures StablesAllowed() ==> forall p :: p in stables ==> HasId(WithBootstrap(allows, peer), p)
    {
      if StablesAllowed() {
        forall p | p in stables ensures HasId(WithBootstrap(allows, peer), p) {
          AddingKeepsAllowed(allows, peer, p, p);
        }
      }
    }

    lemma ForbiddingKeepsStables(peer: PeerId)
      ensures StablesAllowed() ==> forall p :: p in stables && p != peer ==> HasId(WithoutPeer(allows, peer), p)
    {
      if StablesAllowed() {
        forall p | p in stables && p != peer ensures HasId(WithoutPeer(allows, peer), p) {
          OthersStayAllowed(allows, peer, p);
        }
      }
    }

    // The entry of a lost connection goes. `Allows.DisconnectKeepsAllowed` tells when every
    // stable peer is still on the list.
    method PeerDisconnect(socket: SocketAddr)
      requires Valid()
      modifies `allows
      ensures Valid() && allows == WithoutSocket(old(allows), socket)
    {
      allows := Allows.PeerDisconnect(allows, socket);
    }

    method StableLeave(peer: PeerId)
      requires Valid()
      modifies `stables
      ensures Valid() && stables == old(stables) - {peer}
      ensures old(StablesAllowed()) ==> StablesAllowed()
    {
      stables := stables - {peer};
    }

    method RemovePeer(peer: PeerId) returns (r: Option<KadValue>)
      requires Valid()
      modifies `Repr, dhts.Repr
      ensures Valid() && fresh(Repr - old(Repr))
      ensures dhts.Table == old(dhts.Table) - {peer}
      ensures r == if peer in old(dhts.Table) then Some(old(dhts.Table)[peer]) else None
    {
      r := dhts.Remove(peer);
      Repr := Repr + dhts.Repr;
    }

    // A public peer that is not on the allow list as it is becomes a bootstrap peer, unless
    // its socket is known.
    method AddDht(v: KadValue, valueKey: U32) returns (ok: bool)
      requires Valid() && dhts.Unused(valueKey)
      modifies `Repr, `allows, dhts.Repr
      ensures Valid() && fresh(Repr - old(Repr))
      ensures Placed(ok, dhts.Table) in AddedTo(dhts.peers.rootKey, old(dhts.Table), v)
      ensures allows == if v.peer.isPub then WithBootstrap(old(allows), v.peer) else old(allows)
      ensures old(StablesAllowed()) ==> StablesAllowed()
    {
      BootstrapKeepsStables(v.peer);
      if v.peer.isPub && v.peer !in allows {
        allows := AddBootstrap(allows, v.peer);
      }
      ok := PlaceInDht(v, valueKey);
    }

    method PlaceInDht(v: KadValue, valueKey: U32) returns (ok: bool)
      requires Valid() && dhts.Unused(valueKey)
      modifies `Repr, dhts.Repr
      ensures Valid() && fresh(Repr - old(Repr))
      ensures Placed(ok, dhts.Table) in AddedTo(dhts.peers.rootKey, old(dhts.Table), v)
    {
      ok := dhts.Add(v, valueKey);
      Repr := Repr + dhts.Repr;
    }

    // A relayed connection is dropped, a direct one goes to the routing table.
    method StableToDht(peer: PeerId, valueKey: U32) returns (ok: bool)
      requires Valid() && dhts.Unused(valueKey)
      modifies `stables, `allows, `Repr, dhts.Repr
      ensures Valid() && fresh(Repr - old(Repr))
      ensures stables == old(stables) - {peer}
      ensures allows == WithoutPeer(old(allows), peer)
      ensures if peer in old(stables) && old(stables)[peer].direct
              then Placed(ok, dhts.Table) in AddedTo(dhts.peers.rootKey, old(dhts.Table), old(stables)[peer].value)
              else !ok && dhts.Table == old(dhts.Table)
      ensures old(StablesAllowed()) ==> StablesAllowed()
    {
      ForbiddingKeepsStables(peer);
      allows := RemoveAllowPeer(allows, peer);
      ok := false;
      if peer in stables {
        var e := stables[peer];
        stables := stables - {peer};
        if e.direct {
          ok := PlaceInDht(e.value, valueKey);
        }
      }
    }

    method DhtToStable(peer: PeerId) returns (ok: bool)
      requires Valid()
      modifies `stables, `allows, `Repr, dhts.Repr
      ensures Valid() && fresh(Repr - old(Repr))
      ensures ok <==> peer in old(dhts.Table)
      ensures dhts.Table == old(dhts.Table) - {peer}
      ensures stables == if ok then old(stables)[peer := Stable(old(dhts.Table)[peer], true)] else old(stables)
      ensures !ok ==> dhts.Table == old(dhts.Table)
      ensures allows == if ok then WithAllowed(old(allows), peer) else old(allows)
      ensures old(StablesAllowed()) ==> StablesAllowed()
    {
      NothingGone(dhts.Table, peer);
      var v := RemovePeer(peer);
      ok := v.Some?;
      if ok {
        Admit(peer, Stable(v.value, true));
      }
    }
  }
}

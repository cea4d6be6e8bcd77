/**
 `DoubleKadTree` of src/kad.rs, with its two tries and its value table changed in place.
 */
module DoubleKad {
  import opened Wrappers
  import opened Bytes
  import opened Trie
  import opened Lookup
  import opened RootTrie
  import opened Peers
  import opened Table
  import KadTree

  class DoubleKadTree {
    var values: map<U32, KadValue>
    const peers: KadTree.KadTree<PeerId>
    const ips: KadTree.KadTree<SocketAddr>

    ghost var Table: map<PeerId, KadValue>  // which peer is known with which value
    ghost var Repr: set<object>

    ghost predicate Owned()
      reads `Repr, Repr - {this}
      ensures Owned() ==> this in Repr && peers.Valid() && peers.space.Valid()
    {
      && this in Repr && peers in Repr && ips in Repr
      && peers.Repr <= Repr && ips.Repr <= Repr
      && peers.Repr !! ips.Repr && this !in peers.Repr && this !in ips.Repr
      && peers.Valid() && ips.Valid()
      && peers.bits == PeerBits && peers.len == 256
      && ips.bits == SocketBits && ips.len == 144
    }

    ghost predicate Valid()
      reads this, Repr
      ensures Valid() ==> this in Repr && peers.Valid() && peers.space.Valid()
    {
      && Owned()
      && PeerLink(values, peers.Contents)
      && SocketLink(values, ips.Contents)
      && Table == View(values, peers.Contents)
    }

    constructor (rootPeer: PeerId, rootIp: SocketAddr)
      ensures Valid() && fresh(Repr) && Table == map[]
      ensures peers.rootKey == rootPeer && ips.rootKey == rootIp
      ensures Repr == {this, peers, ips}
    {
      values, Table := map[], map[];
      var p := new KadTree.KadTree(rootPeer, PeerBits, 256);
      var i := new KadTree.KadTree(rootIp, SocketBits, 144);
      peers, ips := p, i;
      Repr := {this} + p.Repr + i.Repr;
      EmptyTables();
    }

    ghost predicate Unused(valueKey: U32)
      reads this, ips
    {
      valueKey !in values && forall a :: a in ips.Contents ==> ips.Contents[a] != valueKey
    }

    // The random id is an input: no id of a value or of a socket cell equals it.
    method Add(value: KadValue, valueKey: U32) returns (ok: bool)
      requires Valid()
      requires Unused(valueKey)
      modifies Repr
      ensures Valid() && fresh(Repr - old(Repr))
      ensures Placed(ok, Table) in AddedTo(peers.rootKey, old(Table), value)
      ensures if ok then SocketAdded(ips.space, old(ips.Contents), value.peer.socket, valueKey, ips.Contents)
              else ips.Contents == old(ips.Contents)
    {
      var removed: seq<U32>;
      ok, removed := AddPeer(value, valueKey);
      if ok {
        AddSocket(value, valueKey, removed);
      }
      StoreValue(ok, removed, valueKey, value);
    }

    // The values of the removed ids go, and an accepted value comes.
    method StoreValue(ok: bool, removed: seq<U32>, valueKey: U32, value: KadValue)
      requires PeerLink(NewValues(values, ok, removed, valueKey, value), peers.Contents)
      modifies `values, `Table
      ensures values == NewValues(old(values), ok, removed, valueKey, value)
      ensures Table == View(values, peers.Contents)
    {
      DropValues(removed);
      if ok {
        values := values[valueKey := value];
      }
      assert values == NewValues(old(values), ok, removed, valueKey, value);
      Table := View(values, peers.Contents);
    }

    method AddPeer(value: KadValue, valueKey: U32) returns (ok: bool, removed: seq<U32>)
      requires Owned() && PeerLink(values, peers.Contents) && valueKey !in values
      modifies this`Repr, peers.Repr
      ensures Owned() && fresh(Repr - old(Repr))
      ensures ips.Contents == old(ips.Contents)
      ensures PeerLink(NewValues(values, ok, removed, valueKey, value), peers.Contents)
      ensures !ok ==> NewValues(values, ok, removed, valueKey, value) == values
      ensures Placed(ok, View(NewValues(values, ok, removed, valueKey, value), peers.Contents)) in
              AddedTo(peers.rootKey, View(values, old(peers.Contents)), value)
    {
      ghost var pm := peers.Contents;
      ok, removed := AddPeerKey(value.peer.id, valueKey);
      AddMakesView(peers.space, peers.rootKey, values, pm, value, valueKey, Outcome(ok, removed, peers.Contents));
      FreshKeepsLink(peers.space, values, pm, value, valueKey, Outcome(ok, removed, peers.Contents));
    }

    method AddPeerKey(id: PeerId, valueKey: U32) returns (ok: bool, removed: seq<U32>)
      requires Owned()
      modifies this`Repr, peers.Repr
      ensures Owned() && fresh(Repr - old(Repr))
      ensures ips.Contents == old(ips.Contents)
      ensures Outcome(ok, removed, peers.Contents) in AddOutcomes(peers.space, old(peers.Contents), id, valueKey)
    {
      ok, removed := peers.Add(id, valueKey);
      Repr := Repr + peers.Repr;
    }

    // The report of the socket trie is thrown away.
    method AddSocket(value: KadValue, valueKey: U32, ghost removed: seq<U32>)
      requires Owned() && SocketLink(values, ips.Contents) && forall a :: a in ips.Contents ==> ips.Contents[a] != valueKey
      modifies this`Repr, ips.Repr
      ensures Owned() && fresh(Repr - old(Repr))
      ensures peers.Contents == old(peers.Contents)
      ensures SocketAdded(ips.space, old(ips.Contents), value.peer.socket, valueKey, ips.Contents)
      ensures SocketLink(NewValues(values, true, removed, valueKey, value), ips.Contents)
    {
      ghost var im := ips.Contents;
      AddSocketKey(value.peer.socket, valueKey);
      AddKeepsSockets(ips.space, values, im, removed, valueKey, value, ips.Contents);
    }

    method AddSocketKey(a: SocketAddr, valueKey: U32)
      requires Owned()
      modifies this`Repr, ips.Repr
      ensures Owned() && fresh(Repr - old(Repr))
      ensures peers.Contents == old(peers.Contents)
      ensures SocketAdded(ips.space, old(ips.Contents), a, valueKey, ips.Contents)
    {
      var ok, removed := ips.Add(a, valueKey);
      Repr := Repr + ips.Repr;
    }

    method DropValues(removed: seq<U32>)
      modifies this`values
      ensures values == old(values) - set i | i in removed
    {
      for i := 0 to |removed|
        invariant values == old(values) - set j | j in removed[..i]
      {
        values := values - {removed[i]};
        assert removed[..i + 1] == removed[..i] + [removed[i]];
      }
      assert removed[..|removed|] == removed;
    }

    // The nearest known peer, and whether it is the one asked for.
    method Search(key: PeerId) returns (r: Option<(KadValue, bool)>)
      requires Valid()
      ensures r.None? <==> peers.Misses(key)
      ensures r.Some? ==> Nearest(Table, key, r.value.0, r.value.1)
      ensures key in Table <==> r.Some? && r.value.1
      ensures key in Table ==> r.value.0 == Table[key]
    {
      var hit := FindPeer(key);
      if hit.Some? {
        HitIsNearest(peers.space, peers.rootKey, values, peers.Contents, key, hit.value);
        r := if hit.value.id in values then Some((values[hit.value.id], hit.value.exact)) else None;
      } else {
        r := None;
      }
    }

    method FindPeer(key: PeerId) returns (hit: Option<Hit<PeerId>>)
      requires Owned()
      ensures Answers(peers.space, peers.Contents, peers.Misses(key), key, hit)
    {
      hit := peers.Search(key);
    }

    // The nearest known peer, unless that is the hop the message came from.
    method IdNextClosest(key: PeerId, prev: PeerId) returns (r: Option<KadValue>)
      requires Valid()
      ensures r.None? <==> peers.Misses(key) || OnlyBack(Table, key, prev)
      ensures r.Some? ==> r.value.peer.id != prev && Nearest(Table, key, r.value, r.value.peer.id == key)
      ensures key in Table && key != prev ==> r == Some(Table[key])
    {
      var id := FindNext(key, prev);
      r := if id.Some? && id.value in values then Some(values[id.value]) else None;
    }

    method FindNext(key: PeerId, prev: PeerId) returns (id: Option<U32>)
      requires Owned() && PeerLink(values, peers.Contents)
      ensures id.None? <==> peers.Misses(key) || OnlyBack(View(values, peers.Contents), key, prev)
      ensures id.Some? ==> id.value in values && values[id.value].peer.id != prev
      ensures id.Some? ==> Nearest(View(values, peers.Contents), key, values[id.value], values[id.value].peer.id == key)
      ensures key in peers.Contents && key != prev ==> id.Some? && values[id.value] == View(values, peers.Contents)[key]
    {
      ghost var hit;
      id, hit := peers.NextClosest(key, prev);
      NextAnswer(peers.space, peers.rootKey, values, peers.Contents, peers.Misses(key), key, prev, hit, id);
    }

    method Remove(key: PeerId) returns (r: Option<KadValue>)
      requires Valid()
      modifies Repr
      ensures Valid() && fresh(Repr - old(Repr))
      ensures Table == old(Table) - {key}
      ensures r == if key in old(Table) then Some(old(Table)[key]) else None
      ensures ips.Contents == if key in old(Table) then old(ips.Contents) - {old(Table)[key].peer.socket} else old(ips.Contents)
    {
      ghost var before, pm, im := values, peers.Contents, ips.Contents;
      var id := RemovePeer(key);
      r := None;
      if id.Some? {
        RemoveKeepsLink(before, pm, key);
        if id.value in values {
          var value := values[id.value];
          RemoveSocket(value.peer.socket);
          RemoveKeepsSockets(before, im, id.value, value.peer.socket);
          DropValue(id.value);
          r := Some(value);
        }
      } else {
        NothingToRemove(before, pm, key);
      }
    }

    method DropValue(id: U32)
      requires PeerLink(values - {id}, peers.Contents)
      modifies `values, `Table
      ensures values == old(values) - {id}
      ensures Table == View(values, peers.Contents)
    {
      values := values - {id};
      Table := View(values, peers.Contents);
    }

    method RemovePeer(key: PeerId) returns (id: Option<U32>)
      requires Owned()
      modifies this`Repr, peers.Repr
      ensures Owned() && fresh(Repr - old(Repr))
      ensures ips.Contents == old(ips.Contents)
      ensures peers.Contents == old(peers.Contents) - {key}
      ensures id == Bound(old(peers.Contents), key)
    {
      id := peers.Remove(key);
      Repr := Repr + peers.Repr;
    }

    method RemoveSocket(a: SocketAddr)
      requires Owned()
      modifies this`Repr, ips.Repr
      ensures Owned() && fresh(Repr - old(Repr))
      ensures peers.Contents == old(peers.Contents)
      ensures ips.Contents == old(ips.Contents) - {a}
    {
      var _ := ips.Remove(a);
      Repr := Repr + ips.Repr;
    }

    method Contains(key: PeerId) returns (b: bool)
      requires Valid()
      ensures b <==> key in Table
    {
      b := peers.Contains(key);
    }

    method Keys() returns (vec: seq<PeerId>)
      requires Valid()
      ensures NoRepeats(vec)
      ensures forall k :: k in vec <==> k in Table
    {
      vec := peers.Keys();
    }

    method IsEmpty() returns (b: bool)
      requires Valid()
      ensures b <==> Table == map[]
    {
      b := peers.IsEmpty();
    }
  }
}

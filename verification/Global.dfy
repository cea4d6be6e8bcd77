/**
 `Global` (src/global.rs:113-166): the operations that move a session between the buffer
 and the peer list. Every method here runs under one lock and is one step of `Registry`;
 `Upgrade` and `TmpToDht` are two of them in a row, with nothing in between.
 */
module Global {
  import opened Wrappers
  import opened Bytes
  import opened Peers
  import opened Table
  import opened Registry
  import B = Buffer
  import P = PeerList

  ghost function Unaged(m: map<PeerId, B.Aged<B.Tmp>>): map<PeerId, B.Tmp>
  {
    map p | p in m :: m[p].value
  }

  lemma NothingAged()
    ensures Unaged(map[]) == map[]
  {
  }

  lemma UnagedPut(m: map<PeerId, B.Aged<B.Tmp>>, p: PeerId, a: B.Aged<B.Tmp>)
    ensures Unaged(m[p := a]) == Unaged(m)[p := a.value]
  {
  }

  lemma UnagedWithout(m: map<PeerId, B.Aged<B.Tmp>>, p: PeerId)
    ensures Unaged(m - {p}) == Unaged(m) - {p}
    ensures p !in m ==> Unaged(m - {p}) == Unaged(m)
  {
  }

  class Global {
    const buffer: B.Buffer
    const peerList: P.PeerList
    ghost var flights: map<nat, Flight>
    ghost var made: set<Sender>
    ghost var relayed: set<Sender>
    ghost var Repr: set<object>

    ghost predicate Valid()
      reads `Repr, Repr - {this}
      ensures Valid() ==> this in Repr
    {
      && this in Repr && buffer in Repr && peerList in Repr && peerList.Repr <= Repr
      && this !in peerList.Repr && buffer !in peerList.Repr
      && peerList.Valid()
    }

    // The registries of this node, as `Registry` sees them.
    ghost function View(): State
      reads this, buffer, peerList, peerList.dhts
    {
      State(Unaged(buffer.tmps), peerList.dhts.Table, peerList.stables, flights, made, relayed)
    }

    // This node's own id, from which its routing table measures.
    ghost function Self(): PeerId
    {
      peerList.dhts.peers.rootKey
    }

    constructor (self: PeerId, allows: seq<Peer>)
      ensures Valid() && fresh(Repr)
      ensures Self() == self
      ensures View() == State(map[], map[], map[], map[], {}, {})
    {
      var p := new P.PeerList(self, allows);
      var b := new B.Buffer();
      buffer, peerList := b, p;
      flights, made, relayed := map[], {}, {};
      Repr := {this, b} + p.Repr;
      NothingAged();
    }

    // ---------------------------------------------------------------- under the buffer's lock

    // `add_tmp`: the waiting connection requests are taken along.
    method AddTmp(peer: PeerId, value: KadValue, direct: bool) returns (stables: seq<B.Request>)
      requires Valid() && value.session !in made
      modifies buffer`connects, buffer`tmps, `made, `relayed
      ensures Valid() && Next(Self(), old(View()), MakeTmp(peer, value, direct), View())
      ensures stables == if peer in old(buffer.connects) then old(buffer.connects)[peer].value else []
      ensures buffer.connects == old(buffer.connects) - {peer}
    {
      stables := buffer.RemoveConnect(peer);
      buffer.AddTmp(peer, value, direct);
      made := made + {value.session};
      relayed := if direct then relayed else relayed + {value.session};
      UnagedPut(old(buffer.tmps), peer, B.Aged(false, B.Tmp(value, direct)));
    }

    // `add_all_tmp`: and the waiting results too.
    method AddAllTmp(peer: PeerId, value: KadValue, direct: bool) returns (connects: seq<B.Request>, results: seq<B.Request>)
      requires Valid() && value.session !in made
      modifies buffer, `made, `relayed
      ensures Valid() && Next(Self(), old(View()), MakeTmp(peer, value, direct), View())
      ensures connects == if peer in old(buffer.connects) then old(buffer.connects)[peer].value else []
      ensures results == if peer in old(buffer.results) then old(buffer.results)[peer].value else []
      ensures buffer.connects == old(buffer.connects) - {peer} && buffer.results == old(buffer.results) - {peer}
    {
      results := buffer.RemoveResult(peer);
      connects := AddTmp(peer, value, direct);
    }

    // `update_peer`: a relayed peer has answered, and its peer record is known now.
    method UpdatePeer(peer: PeerId, info: Peer)
      requires Valid()
      modifies buffer`tmps
      ensures Valid() && Next(Self(), old(View()), Step.UpdatePeer(peer, info), View())
    {
      buffer.UpdatePeer(peer, info);
      assert peer in old(buffer.tmps) ==>
          Unaged(buffer.tmps) == old(Unaged(buffer.tmps))[peer := B.WithPeer(old(Unaged(buffer.tmps))[peer], info)];
    }

    // `remove_tmp`, when a connection fails or a session ends.
    method RemoveTmp(peer: PeerId)
      requires Valid()
      modifies buffer`tmps
      ensures Valid() && Next(Self(), old(View()), DropTmp({peer}), View())
    {
      var dropped := buffer.RemoveTmp(peer);
      UnagedWithout(old(buffer.tmps), peer);
    }

    // `timer_clear`: the sessions told to close are those that leave the registry.
    method TimerClear() returns (closed: seq<(PeerId, Sender)>, ghost swept: set<PeerId>)
      requires Valid()
      modifies buffer
      ensures Valid() && Next(Self(), old(View()), DropTmp(swept), View())
      ensures swept == set p | p in old(buffer.tmps) && old(buffer.tmps)[p].marked
      ensures forall p, h :: (p, h) in closed <==> p in swept && HandleAt(old(View()), InTmp(p)) == Some(h)
    {
      swept := set p | p in buffer.tmps && buffer.tmps[p].marked;
      closed := buffer.TimerClear();
      assert Unaged(buffer.tmps) == old(Unaged(buffer.tmps)) - swept;
    }

    // The first half of `upgrade` and of `tmp_to_dht`.
    method Take(peer: PeerId, target: Target, ghost op: nat) returns (r: Option<B.Tmp>)
      requires Valid() && op !in flights
      modifies buffer`tmps, `flights
      ensures Valid()
      ensures r.None? ==> peer !in old(View()).tmps && View() == old(View())
      ensures r.Some? ==> Next(Self(), old(View()), TakeTmp(peer, op, target), View()) && View().flights[op] == Flight(peer, r.value, target)
      ensures r.Some? ==> op in View().flights
    {
      r := buffer.RemoveTmp(peer);
      UnagedWithout(old(buffer.tmps), peer);
      if r.Some? {
        flights := flights[op := Flight(peer, r.value, target)];
      }
    }

    // The first half of `stable_to_dht`: what still waits for this peer is dropped.
    method Forget(peer: PeerId)
      requires Valid()
      modifies buffer
      ensures Valid() && Next(Self(), old(View()), DropTmp({peer}), View())
      ensures buffer.connects == old(buffer.connects) - {peer} && buffer.results == old(buffer.results) - {peer}
    {
      var dropped := buffer.RemoveTmp(peer);
      buffer.RemoveStable(peer);
      UnagedWithout(old(buffer.tmps), peer);
    }

    // ---------------------------------------------------------------- under the peer list's lock

    // The second half of `upgrade`, when the buffer had a temporary session.
    method LandStable(peer: PeerId, tmp: B.Tmp, ghost op: nat) returns (closed: Option<Sender>)
      requires Valid() && op in flights && flights[op] == Flight(peer, tmp, ToStable)
      modifies peerList`stables, peerList`allows, `flights
      ensures Valid() && Next(Self(), old(View()), Step.LandStable(op), View())
      ensures closed == if peer in old(View()).stables then Some(old(View()).stables[peer].value.session) else None
    {
      closed := peerList.AddStable(peer, tmp.value, tmp.direct);
      flights := flights - {op};
    }

    // ... and when it had none.
    method PromoteDht(peer: PeerId) returns (ok: bool)
      requires Valid()
      modifies `Repr, peerList`stables, peerList`allows, peerList`Repr, peerList.dhts.Repr
      ensures Valid() && fresh(Repr - old(Repr))
      ensures ok <==> peer in old(View()).dht
      ensures Next(Self(), old(View()), Promote(peer), View())
    {
      ok := peerList.DhtToStable(peer);
      Repr := Repr + peerList.Repr;
    }

    // The second half of `tmp_to_dht`.
    method LandDht(tmp: B.Tmp, valueKey: U32, ghost peer: PeerId, ghost op: nat) returns (ok: bool)
      requires Valid() && peerList.dhts.Unused(valueKey)
      requires op in flights && flights[op] == Flight(peer, tmp, ToDht)
      modifies `Repr, `flights, peerList`allows, peerList`Repr, peerList.dhts.Repr
      ensures Valid() && fresh(Repr - old(Repr))
      ensures Next(Self(), old(View()), Step.LandDht(op), View())
      ensures if tmp.direct then Placed(ok, View().dht) in AddedTo(Self(), old(View()).dht, tmp.value) else !ok
    {
      ok := false;
      if tmp.direct {
        ok := peerList.AddDht(tmp.value, valueKey);
        Repr := Repr + peerList.Repr;
      }
      flights := flights - {op};
    }

    // The second half of `stable_to_dht`.
    method DemoteStable(peer: PeerId, valueKey: U32) returns (ok: bool)
      requires Valid() && peerList.dhts.Unused(valueKey)
      modifies `Repr, peerList`stables, peerList`allows, peerList`Repr, peerList.dhts.Repr
      ensures Valid() && fresh(Repr - old(Repr))
      ensures Next(Self(), old(View()), Demote(peer), View())
      ensures var st := old(View()).stables;
              if peer in st && st[peer].direct then Placed(ok, View().dht) in AddedTo(Self(), old(View()).dht, st[peer].value) else !ok
    {
      ok := peerList.StableToDht(peer, valueKey);
      Repr := Repr + peerList.Repr;
    }

    // `add_dht` for a direct connection that nobody asked to be stable.
    method AddDht(value: KadValue, valueKey: U32) returns (ok: bool)
      requires Valid() && value.session !in made && peerList.dhts.Unused(valueKey)
      modifies `Repr, `made, peerList`allows, peerList`Repr, peerList.dhts.Repr
      ensures Valid() && fresh(Repr - old(Repr))
      ensures Next(Self(), old(View()), MakeDht(value), View())
      ensures Placed(ok, View().dht) in AddedTo(Self(), old(View()).dht, value)
    {
      ok := peerList.AddDht(value, valueKey);
      Repr := Repr + peerList.Repr;
      made := made + {value.session};
    }

    // `remove_peer`, when a session of the routing table ends.
    method RemovePeer(peer: PeerId)
      requires Valid()
      modifies `Repr, peerList`Repr, peerList.dhts.Repr
      ensures Valid() && fresh(Repr - old(Repr))
      ensures Next(Self(), old(View()), DropDht(peer), View())
    {
      var dropped := peerList.RemovePeer(peer);
      Repr := Repr + peerList.Repr;
    }

    // `stable_leave`.
    method StableLeave(peer: PeerId)
      requires Valid()
      modifies peerList`stables
      ensures Valid() && Next(Self(), old(View()), DropStable(peer), View())
    {
      peerList.StableLeave(peer);
    }

    // ---------------------------------------------------------------- without interruption

    // `upgrade`: a temporary session wins over one in the routing table.
    method Upgrade(peer: PeerId, ghost op: nat) returns (ok: bool, ghost mid: State)
      requires Valid() && op !in flights
      modifies `Repr, `flights, buffer`tmps, peerList`stables, peerList`allows, peerList`Repr, peerList.dhts.Repr
      ensures Valid() && fresh(Repr - old(Repr))
      ensures ok <==> peer in old(View()).tmps || peer in old(View()).dht
      ensures IsUpgrade(old(View()), peer, View())
      ensures UpgradeSteps(Self(), old(View()), peer, op, mid, View())
    {
      ghost var was := View();
      ok, mid := TakeAndLand(peer, op);
      UpgradeExact(Self(), was, peer, op, mid, View());
    }

    method TakeAndLand(peer: PeerId, ghost op: nat) returns (ok: bool, ghost mid: State)
      requires Valid() && op !in flights
      modifies `Repr, `flights, buffer`tmps, peerList`stables, peerList`allows, peerList`Repr, peerList.dhts.Repr
      ensures Valid() && fresh(Repr - old(Repr))
      ensures ok <==> peer in old(View()).tmps || peer in old(View()).dht
      ensures UpgradeSteps(Self(), old(View()), peer, op, mid, View())
    {
      var v := Take(peer, ToStable, op);
      mid := View();
      if v.Some? {
        var closed := LandStable(peer, v.value, op);
        ok := true;
      } else {
        ok := PromoteDht(peer);
      }
    }

    // `tmp_to_dht`.
    method TmpToDht(peer: PeerId, valueKey: U32, ghost op: nat) returns (ok: bool, ghost mid: State)
      requires Valid() && op !in flights && peerList.dhts.Unused(valueKey)
      modifies `Repr, `flights, buffer`tmps, peerList`allows, peerList`Repr, peerList.dhts.Repr
      ensures Valid() && fresh(Repr - old(Repr))
      ensures TmpToDhtSteps(Self(), old(View()), peer, op, ok, mid, View())
      ensures IsTmpToDht(Self(), old(View()), peer, ok, View())
    {
      ghost var was := View();
      ok, mid := TakeAndPlace(peer, valueKey, op);
      TmpToDhtExact(Self(), was, peer, op, ok, mid, View());
    }

    method TakeAndPlace(peer: PeerId, valueKey: U32, ghost op: nat) returns (ok: bool, ghost mid: State)
      requires Valid() && op !in flights && peerList.dhts.Unused(valueKey)
      modifies `Repr, `flights, buffer`tmps, peerList`allows, peerList`Repr, peerList.dhts.Repr
      ensures Valid() && fresh(Repr - old(Repr))
      ensures TmpToDhtSteps(Self(), old(View()), peer, op, ok, mid, View())
    {
      var v := Take(peer, ToDht, op);
      mid := View();
      ok := false;
      if v.Some? {
        ok := LandDht(v.value, valueKey, peer, op);
      }
    }

    // `stable_to_dht`.
    method StableToDht(peer: PeerId, valueKey: U32) returns (ok: bool, ghost mid: State)
      requires Valid() && peerList.dhts.Unused(valueKey)
      modifies `Repr, buffer, peerList`stables, peerList`allows, peerList`Repr, peerList.dhts.Repr
      ensures Valid() && fresh(Repr - old(Repr))
      ensures Next(Self(), old(View()), DropTmp({peer}), mid) && Next(Self(), mid, Demote(peer), View())
      ensures View().tmps == old(View()).tmps - {peer} && View().stables == old(View()).stables - {peer}
      ensures var st := old(View()).stables;
              if peer in st && st[peer].direct then Placed(ok, View().dht) in AddedTo(Self(), old(View()).dht, st[peer].value) else !ok
    {
      Forget(peer);
      mid := View();
      ok := DemoteStable(peer, valueKey);
    }
  }
}

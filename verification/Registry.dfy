/**
 Where a session handle may be (src/global.rs, with the operations of src/buffer.rs and
 src/peer_list.rs that it drives). Each step is one operation under one lock; `upgrade`
 and `tmp_to_dht` take the buffer's lock and then the peer list's, so between their two
 halves the handle is in neither: it is in transit.
 */
module Registry {
  import opened Wrappers
  import opened Trie
  import opened Peers
  import opened Table
  import opened PeerList
  import opened Buffer

  datatype Target = ToStable | ToDht

  // The second half of an `upgrade` or a `tmp_to_dht` that has taken `tmp` already.
  datatype Flight = Flight(peer: PeerId, tmp: Tmp, target: Target)

  // The registries of one node, the operations under way, and two histories: every
  // handle ever made, and those first registered as relayed.
  datatype State = State(
    tmps: map<PeerId, Tmp>,
    dht: map<PeerId, KadValue>,
    stables: map<PeerId, Stable>,
    flights: map<nat, Flight>,
    made: set<Sender>,
    relayed: set<Sender>)

  datatype Place = InTmp(peer: PeerId) | InDht(peer: PeerId) | InStable(peer: PeerId) | InFlight(op: nat)

  ghost function HandleAt(s: State, at: Place): Option<Sender>
  {
    match at
    case InTmp(p) => if p in s.tmps then Some(s.tmps[p].value.session) else None
    case InDht(p) => if p in s.dht then Some(s.dht[p].session) else None
    case InStable(p) => if p in s.stables then Some(s.stables[p].value.session) else None
    case InFlight(i) => if i in s.flights then Some(s.flights[i].tmp.value.session) else None
  }

  datatype Step =
    | MakeTmp(peer: PeerId, value: KadValue, direct: bool)  // add_tmp, add_all_tmp
    | MakeDht(value: KadValue)                              // add_dht on an incoming connection
    | UpdatePeer(peer: PeerId, info: Peer)                  // update_peer, when a relayed peer has answered
    | TakeTmp(peer: PeerId, op: nat, target: Target)        // first half of upgrade, tmp_to_dht
    | LandStable(op: nat)                                   // second half of upgrade
    | LandDht(op: nat)                                      // second half of tmp_to_dht
    | Promote(peer: PeerId)                                 // dht_to_stable
    | Demote(peer: PeerId)                                  // stable_to_dht
    | DropTmp(peers: set<PeerId>)                           // remove_tmp, timer_clear
    | DropDht(peer: PeerId)                                 // remove_peer
    | DropStable(peer: PeerId)                              // stable_leave

  // `root` is the node's own id; how its routing table makes room is left to `AddedTo`.
  ghost predicate Enabled(s: State, step: Step)
  {
    match step
    case MakeTmp(_, v, _) => v.session !in s.made
    case MakeDht(v) => v.session !in s.made
    case TakeTmp(p, i, _) => p in s.tmps && i !in s.flights
    case LandStable(i) => i in s.flights && s.flights[i].target == ToStable
    case LandDht(i) => i in s.flights && s.flights[i].target == ToDht
    case _ => true
  }

  ghost predicate Next(root: PeerId, s: State, step: Step, s': State)
  {
    && Enabled(s, step)
    && match step
       case MakeTmp(p, v, d) =>
         s' == s.(tmps := s.tmps[p := Tmp(v, d)], made := s.made + {v.session},
                  relayed := if d then s.relayed else s.relayed + {v.session})
       case MakeDht(v) =>
         exists ok, t :: Placed(ok, t) in AddedTo(root, s.dht, v) && s' == s.(dht := t, made := s.made + {v.session})
       case UpdatePeer(p, info) =>
         s' == if p in s.tmps then s.(tmps := s.tmps[p := WithPeer(s.tmps[p], info)]) else s
       case TakeTmp(p, i, target) =>
         s' == s.(tmps := s.tmps - {p}, flights := s.flights[i := Flight(p, s.tmps[p], target)])
       case LandStable(i) =>
         var f := s.flights[i];
         s' == s.(flights := s.flights - {i}, stables := s.stables[f.peer := Stable(f.tmp.value, f.tmp.direct)])
       case LandDht(i) =>
         var f := s.flights[i];
         if f.tmp.direct
         then exists ok, t :: Placed(ok, t) in AddedTo(root, s.dht, f.tmp.value) && s' == s.(flights := s.flights - {i}, dht := t)
         else s' == s.(flights := s.flights - {i})
       case Promote(p) =>
         if p in s.dht then s' == s.(dht := s.dht - {p}, stables := s.stables[p := Stable(s.dht[p], true)])
         else s' == s
       case Demote(p) =>
         if p in s.stables && s.stables[p].direct
         then exists ok, t :: Placed(ok, t) in AddedTo(root, s.dht, s.stables[p].value) && s' == s.(stables := s.stables - {p}, dht := t)
         else s' == s.(stables := s.stables - {p})
       case DropTmp(ps) => s' == s.(tmps := s.tmps - ps)
       case DropDht(p) => s' == s.(dht := s.dht - {p})
       case DropStable(p) => s' == s.(stables := s.stables - {p})
  }

  // ---------------------------------------------------------------- the invariant

  // No handle is in two places.
  ghost predicate Single(s: State)
  {
    forall a, b :: HandleAt(s, a).Some? && HandleAt(s, a) == HandleAt(s, b) ==> a == b
  }

  ghost predicate FlaggedAs(s: State, v: KadValue, direct: bool)
  {
    v.session in s.made && (direct <==> v.session !in s.relayed)
  }

  // Every handle in a place was made, and the flags tell which were made as relayed:
  // those are never in the routing table.
  ghost predicate Flagged(s: State)
  {
    && (forall p :: p in s.tmps ==> FlaggedAs(s, s.tmps[p].value, s.tmps[p].direct))
    && (forall i :: i in s.flights ==> FlaggedAs(s, s.flights[i].tmp.value, s.flights[i].tmp.direct))
    && (forall p :: p in s.stables ==> FlaggedAs(s, s.stables[p].value, s.stables[p].direct))
    && (forall p :: p in s.dht ==> FlaggedAs(s, s.dht[p], true))
    && s.relayed <= s.made
  }

  // `s'` puts handles only where `s` had them, except that `h` may come to rest at one place.
  ghost predicate Moves(s: State, s': State, h: Sender, to: Place)
  {
    && (forall at :: HandleAt(s', at).Some? && at != to ==> HandleAt(s', at) == HandleAt(s, at))
    && (HandleAt(s', to).Some? && HandleAt(s', to) != HandleAt(s, to) ==> HandleAt(s', to) == Some(h))
  }

  // A handle that was nowhere, or that leaves the place it was in, stays single.
  lemma ArrivalKeepsSingle(s: State, s': State, h: Sender, to: Place)
    requires Single(s) && Moves(s, s', h, to)
    requires forall at :: at != to && HandleAt(s, at) == Some(h) ==> HandleAt(s', at).None?
    ensures Single(s')
  {
    forall a, b | HandleAt(s', a).Some? && HandleAt(s', a) == HandleAt(s', b) ensures a == b {
      assert a != to ==> HandleAt(s', a) == HandleAt(s, a);
      assert b != to ==> HandleAt(s', b) == HandleAt(s, b);
    }
  }

  // The routing table gains at most the value added, under its own peer's id.
  lemma TableAfterAdd(root: PeerId, t: map<PeerId, KadValue>, v: KadValue, ok: bool, t': map<PeerId, KadValue>)
    requires Placed(ok, t') in AddedTo(root, t, v)
    ensures forall p :: p in t' ==> (p == v.peer.id && t'[p] == v) || (p in t && t'[p] == t[p])
  {
    if v.peer.id !in t && |Rivals(t, v.peer.id)| >= K_BUCKET && FartherRivals(root, t, v.peer.id) != {} {
      var e :| e in FartherRivals(root, t, v.peer.id) && Placed(ok, t') == Placed(true, (t - {e})[v.peer.id := v]);
    }
  }

  lemma DhtArrival(root: PeerId, s: State, s': State, v: KadValue, ok: bool)
    requires Single(s) && Placed(ok, s'.dht) in AddedTo(root, s.dht, v)
    requires s'.tmps == s.tmps
    requires forall p :: p in s'.stables ==> p in s.stables && s'.stables[p] == s.stables[p]
    requires forall i :: i in s'.flights ==> i in s.flights && s'.flights[i] == s.flights[i]
    requires forall at :: HandleAt(s, at) == Some(v.session) ==> HandleAt(s', at).None? || at == InDht(v.peer.id)
    ensures Single(s')
  {
    TableAfterAdd(root, s.dht, v, ok, s'.dht);
    ArrivalKeepsSingle(s, s', v.session, InDht(v.peer.id));
  }

  lemma DropKeepsSingle(s: State, s': State)
    requires Single(s)
    requires forall at :: HandleAt(s', at).Some? ==> HandleAt(s', at) == HandleAt(s, at)
    ensures Single(s')
  {
    forall a, b | HandleAt(s', a).Some? && HandleAt(s', a) == HandleAt(s', b) ensures a == b {
      assert HandleAt(s, a) == HandleAt(s, b);
    }
  }

  lemma MadeTmpSingle(root: PeerId, s: State, step: Step, s': State)
    requires Single(s) && Flagged(s) && Next(root, s, step, s') && step.MakeTmp?
    ensures Single(s')
  {
    ArrivalKeepsSingle(s, s', step.value.session, InTmp(step.peer));
  }

  lemma MadeDhtSingle(root: PeerId, s: State, step: Step, s': State)
    requires Single(s) && Flagged(s) && Next(root, s, step, s') && step.MakeDht?
    ensures Single(s')
  {
    var v := step.value;
    var ok, t :| Placed(ok, t) in AddedTo(root, s.dht, v) && s'.dht == t;
    DhtArrival(root, s, s', v, ok);
  }

  lemma TakenSingle(root: PeerId, s: State, step: Step, s': State)
    requires Single(s) && Flagged(s) && Next(root, s, step, s') && step.TakeTmp?
    ensures Single(s')
  {
    var h := s.tmps[step.peer].value.session;
    assert HandleAt(s, InTmp(step.peer)) == Some(h);
    ArrivalKeepsSingle(s, s', h, InFlight(step.op));
  }

  lemma LandedStableSingle(root: PeerId, s: State, step: Step, s': State)
    requires Single(s) && Flagged(s) && Next(root, s, step, s') && step.LandStable?
    ensures Single(s')
  {
    var f := s.flights[step.op];
    assert HandleAt(s, InFlight(step.op)) == Some(f.tmp.value.session);
    ArrivalKeepsSingle(s, s', f.tmp.value.session, InStable(f.peer));
  }

  lemma LandedDhtSingle(root: PeerId, s: State, step: Step, s': State)
    requires Single(s) && Flagged(s) && Next(root, s, step, s') && step.LandDht?
    ensures Single(s')
  {
    var f := s.flights[step.op];
    assert HandleAt(s, InFlight(step.op)) == Some(f.tmp.value.session);
    if f.tmp.direct {
      var ok, t :| Placed(ok, t) in AddedTo(root, s.dht, f.tmp.value) && s'.dht == t;
      DhtArrival(root, s, s', f.tmp.value, ok);
    } else {
      DropKeepsSingle(s, s');
    }
  }

  lemma PromotedSingle(root: PeerId, s: State, step: Step, s': State)
    requires Single(s) && Flagged(s) && Next(root, s, step, s') && step.Promote?
    ensures Single(s')
  {
    if step.peer in s.dht {
      var h := s.dht[step.peer].session;
      assert HandleAt(s, InDht(step.peer)) == Some(h);
      ArrivalKeepsSingle(s, s', h, InStable(step.peer));
    }
  }

  lemma DemotedSingle(root: PeerId, s: State, step: Step, s': State)
    requires Single(s) && Flagged(s) && Next(root, s, step, s') && step.Demote?
    ensures Single(s')
  {
    if step.peer in s.stables && s.stables[step.peer].direct {
      var v := s.stables[step.peer].value;
      assert HandleAt(s, InStable(step.peer)) == Some(v.session);
      var ok, t :| Placed(ok, t) in AddedTo(root, s.dht, v) && s'.dht == t;
      DhtArrival(root, s, s', v, ok);
    } else {
      DropKeepsSingle(s, s');
    }
  }

  lemma StepKeepsSingle(root: PeerId, s: State, step: Step, s': State)
    requires Single(s) && Flagged(s) && Next(root, s, step, s')
    ensures Single(s')
  {
    match step
    case MakeTmp(_, _, _) => MadeTmpSingle(root, s, step, s');
    case MakeDht(_) => MadeDhtSingle(root, s, step, s');
    case UpdatePeer(_, _) => DropKeepsSingle(s, s');
    case TakeTmp(_, _, _) => TakenSingle(root, s, step, s');
    case LandStable(_) => LandedStableSingle(root, s, step, s');
    case LandDht(_) => LandedDhtSingle(root, s, step, s');
    case Promote(_) => PromotedSingle(root, s, step, s');
    case Demote(_) => DemotedSingle(root, s, step, s');
    case DropTmp(_) => DropKeepsSingle(s, s');
    case DropDht(_) => DropKeepsSingle(s, s');
    case DropStable(_) => DropKeepsSingle(s, s');
  }

  // The table a step leaves holds only values that were there, or the one it brings.
  lemma TableAfterStep(root: PeerId, s: State, step: Step, s': State)
    requires Next(root, s, step, s')
    ensures forall p :: p in s'.dht ==>
              || (p in s.dht && s'.dht[p] == s.dht[p])
              || (step.MakeDht? && s'.dht[p] == step.value)
              || (step.LandDht? && s.flights[step.op].tmp.direct && s'.dht[p] == s.flights[step.op].tmp.value)
              || (step.Demote? && step.peer in s.stables && s.stables[step.peer].direct && s'.dht[p] == s.stables[step.peer].value)
  {
    if step.MakeDht? {
      var ok, t :| Placed(ok, t) in AddedTo(root, s.dht, step.value) && s'.dht == t;
      TableAfterAdd(root, s.dht, step.value, ok, t);
    } else if step.LandDht? && s.flights[step.op].tmp.direct {
      var v := s.flights[step.op].tmp.value;
      var ok, t :| Placed(ok, t) in AddedTo(root, s.dht, v) && s'.dht == t;
      TableAfterAdd(root, s.dht, v, ok, t);
    } else if step.Demote? && step.peer in s.stables && s.stables[step.peer].direct {
      var v := s.stables[step.peer].value;
      var ok, t :| Placed(ok, t) in AddedTo(root, s.dht, v) && s'.dht == t;
      TableAfterAdd(root, s.dht, v, ok, t);
    }
  }

  lemma HistoriesGrow(root: PeerId, s: State, step: Step, s': State)
    requires Flagged(s) && Next(root, s, step, s')
    ensures s.relayed <= s'.relayed && s.made <= s'.made && s'.relayed <= s'.made
    ensures forall h :: h in s.made && h in s'.relayed ==> h in s.relayed
  {
  }

  lemma TmpsFlagged(root: PeerId, s: State, step: Step, s': State)
    requires Flagged(s) && Next(root, s, step, s')
    ensures forall p :: p in s'.tmps ==> FlaggedAs(s', s'.tmps[p].value, s'.tmps[p].direct)
  {
    HistoriesGrow(root, s, step, s');
  }

  lemma FlightsFlagged(root: PeerId, s: State, step: Step, s': State)
    requires Flagged(s) && Next(root, s, step, s')
    ensures forall i :: i in s'.flights ==> FlaggedAs(s', s'.flights[i].tmp.value, s'.flights[i].tmp.direct)
  {
    HistoriesGrow(root, s, step, s');
  }

  lemma StablesFlagged(root: PeerId, s: State, step: Step, s': State)
    requires Flagged(s) && Next(root, s, step, s')
    ensures forall p :: p in s'.stables ==> FlaggedAs(s', s'.stables[p].value, s'.stables[p].direct)
  {
    HistoriesGrow(root, s, step, s');
  }

  lemma DhtFlagged(root: PeerId, s: State, step: Step, s': State)
    requires Flagged(s) && Next(root, s, step, s')
    ensures forall p :: p in s'.dht ==> FlaggedAs(s', s'.dht[p], true)
  {
    HistoriesGrow(root, s, step, s');
    TableAfterStep(root, s, step, s');
  }

  lemma StepKeepsFlags(root: PeerId, s: State, step: Step, s': State)
    requires Flagged(s) && Next(root, s, step, s')
    ensures Flagged(s')
  {
    HistoriesGrow(root, s, step, s');
    TmpsFlagged(root, s, step, s');
    FlightsFlagged(root, s, step, s');
    StablesFlagged(root, s, step, s');
    DhtFlagged(root, s, step, s');
  }

  // ---------------------------------------------------------------- conservation

  // The routing table has no room for `v`: unknown, and four nearer rivals.
  ghost predicate Refused(root: PeerId, t: map<PeerId, KadValue>, v: KadValue)
  {
    v.peer.id !in t && 4 <= |Rivals(t, v.peer.id)|
    && forall k :: k in t && k[0] == v.peer.id[0] ==> Gap(root, k) <= Gap(root, v.peer.id)
  }

  // Adding `v` may cost the known peer `p` its place: it is the same peer, or a farther rival
  // in a full bucket.
  ghost predicate GivesWay(root: PeerId, t: map<PeerId, KadValue>, v: KadValue, p: PeerId)
  {
    p == v.peer.id
    || (v.peer.id !in t && 4 <= |Rivals(t, v.peer.id)| && p[0] == v.peer.id[0] && Gap(root, v.peer.id) < Gap(root, p))
  }

  // The value a step brings to the routing table, if it brings one there.
  ghost function Brought(s: State, step: Step): Option<KadValue>
    requires Enabled(s, step)
  {
    match step
    case MakeDht(v) => Some(v)
    case LandDht(i) => if s.flights[i].tmp.direct then Some(s.flights[i].tmp.value) else None
    case Demote(p) => if p in s.stables && s.stables[p].direct then Some(s.stables[p].value) else None
    case _ => None
  }

  // The only ways for the handle at a place to leave the registries: it is dropped by name,
  // another handle is filed in its place, the routing table has no room for it or makes
  // room of it, or it is relayed and would have to go to the routing table.
  ghost predicate MayLeave(root: PeerId, s: State, step: Step, at: Place)
    requires Enabled(s, step)
  {
    var v := Brought(s, step);
    || (at.InDht? && v.Some? && GivesWay(root, s.dht, v.value, at.peer))
    || match step
       case MakeTmp(p, _, _) => at == InTmp(p)
       case LandStable(i) => at == InStable(s.flights[i].peer)
       case LandDht(i) => at == InFlight(i) && (!s.flights[i].tmp.direct || Refused(root, s.dht, s.flights[i].tmp.value))
       case Promote(p) => at == InStable(p) && p in s.dht
       case Demote(p) => at == InStable(p) && p in s.stables && (!s.stables[p].direct || Refused(root, s.dht, s.stables[p].value))
       case DropTmp(ps) => at.InTmp? && at.peer in ps
       case DropDht(p) => at == InDht(p)
       case DropStable(p) => at == InStable(p)
       case _ => false
  }

  // Where a step takes the handle at `at`: out of the buffer into transit, from transit or
  // from the routing table to the stable connections, to the routing table, or nowhere.
  ghost function GoesTo(s: State, step: Step, at: Place): Place
    requires Enabled(s, step)
  {
    match step
    case TakeTmp(p, i, _) => if at == InTmp(p) then InFlight(i) else at
    case LandStable(i) => if at == InFlight(i) then InStable(s.flights[i].peer) else at
    case LandDht(i) => if at == InFlight(i) then InDht(s.flights[i].tmp.value.peer.id) else at
    case Promote(p) => if at == InDht(p) then InStable(p) else at
    case Demote(p) => if at == InStable(p) && p in s.stables then InDht(s.stables[p].value.peer.id) else at
    case _ => at
  }

  // No step loses a handle: it is where the step takes it, unless it left in one of the ways
  // above.
  lemma NoHandleLost(root: PeerId, s: State, step: Step, s': State, at: Place)
    requires Next(root, s, step, s') && HandleAt(s, at).Some? && !MayLeave(root, s, step, at)
    ensures HandleAt(s', GoesTo(s, step, at)) == HandleAt(s, at)
  {
    match at
    case InTmp(_) =>
    case InStable(_) => StableNotLost(root, s, step, s', at);
    case InDht(_) => DhtNotLost(root, s, step, s', at);
    case InFlight(_) => FlightNotLost(root, s, step, s', at);
  }

  lemma StableNotLost(root: PeerId, s: State, step: Step, s': State, at: Place)
    requires Next(root, s, step, s') && HandleAt(s, at).Some? && !MayLeave(root, s, step, at) && at.InStable?
    ensures HandleAt(s', GoesTo(s, step, at)) == HandleAt(s, at)
  {
    if step.Demote? && Brought(s, step).Some? {
      TableKeeps(root, s, step, s');
    }
  }

  lemma DhtNotLost(root: PeerId, s: State, step: Step, s': State, at: Place)
    requires Next(root, s, step, s') && HandleAt(s, at).Some? && !MayLeave(root, s, step, at) && at.InDht?
    ensures HandleAt(s', GoesTo(s, step, at)) == HandleAt(s, at)
  {
    if Brought(s, step).Some? {
      TableKeeps(root, s, step, s');
    }
  }

  lemma FlightNotLost(root: PeerId, s: State, step: Step, s': State, at: Place)
    requires Next(root, s, step, s') && HandleAt(s, at).Some? && !MayLeave(root, s, step, at) && at.InFlight?
    ensures HandleAt(s', GoesTo(s, step, at)) == HandleAt(s, at)
  {
    if step.LandDht? && Brought(s, step).Some? {
      TableKeeps(root, s, step, s');
    }
  }

  // What the routing table keeps when a value is brought to it.
  lemma TableKeeps(root: PeerId, s: State, step: Step, s': State)
    requires Next(root, s, step, s') && Brought(s, step).Some?
    ensures var v := Brought(s, step).value;
            && (forall p :: p in s.dht && !GivesWay(root, s.dht, v, p) ==> p in s'.dht && s'.dht[p] == s.dht[p])
            && (!Refused(root, s.dht, v) ==> v.peer.id in s'.dht && s'.dht[v.peer.id] == v)
  {
    var v := Brought(s, step).value;
    var ok, t :| Placed(ok, t) in AddedTo(root, s.dht, v) && s'.dht == t;
    AddedExplained(root, s.dht, v, ok, t);
  }

  // A handle that is made is filed where it was made for, unless the routing table refuses it.
  lemma MadeIsFiled(root: PeerId, s: State, step: Step, s': State)
    requires Next(root, s, step, s')
    ensures step.MakeTmp? ==> step.peer in s'.tmps && s'.tmps[step.peer] == Tmp(step.value, step.direct)
    ensures step.MakeDht? && !Refused(root, s.dht, step.value) ==> HandleAt(s', InDht(step.value.peer.id)) == Some(step.value.session)
  {
    if step.MakeDht? {
      TableKeeps(root, s, step, s');
    }
  }

  // What a step takes or drops is no longer there.
  lemma DroppedIsGone(root: PeerId, s: State, step: Step, s': State)
    requires Next(root, s, step, s')
    ensures step.TakeTmp? ==> step.peer !in s'.tmps
    ensures step.LandStable? || step.LandDht? ==> step.op !in s'.flights
    ensures step.Promote? || step.DropDht? ==> step.peer !in s'.dht
    ensures step.Demote? || step.DropStable? ==> step.peer !in s'.stables
    ensures step.DropTmp? ==> s'.tmps.Keys !! step.peers
  {
  }

  // ---------------------------------------------------------------- whole operations

  // What an uninterrupted `upgrade` leaves: the session is stable, as direct as it was, and no
  // longer where it came from.
  ghost predicate IsUpgrade(s: State, peer: PeerId, s': State)
  {
    if peer in s.tmps then
      s' == s.(tmps := s.tmps - {peer}, stables := s.stables[peer := Stable(s.tmps[peer].value, s.tmps[peer].direct)])
    else if peer in s.dht then
      s' == s.(dht := s.dht - {peer}, stables := s.stables[peer := Stable(s.dht[peer], true)])
    else
      s' == s
  }

  // The steps of an uninterrupted `upgrade`: through transit, or else the promotion.
  ghost predicate UpgradeSteps(root: PeerId, s: State, peer: PeerId, op: nat, mid: State, s': State)
  {
    if peer in s.tmps then Next(root, s, TakeTmp(peer, op, ToStable), mid) && Next(root, mid, LandStable(op), s')
    else Next(root, s, Promote(peer), s')
  }

  lemma UpgradeExact(root: PeerId, s: State, peer: PeerId, op: nat, mid: State, s': State)
    requires op !in s.flights
    ensures UpgradeSteps(root, s, peer, op, mid, s') ==> IsUpgrade(s, peer, s')
  {
    if peer in s.tmps {
      ThereAndBack(s.flights, op, Flight(peer, s.tmps[peer], ToStable));
    }
  }

  lemma ThereAndBack(m: map<nat, Flight>, op: nat, f: Flight)
    requires op !in m
    ensures m[op := f] - {op} == m
  {
  }

  // What an uninterrupted `tmp_to_dht` leaves: the session is no longer temporary, and if it
  // is direct the routing table took it or had no room.
  ghost predicate IsTmpToDht(root: PeerId, s: State, peer: PeerId, ok: bool, s': State)
  {
    if peer in s.tmps && s.tmps[peer].direct then
      Placed(ok, s'.dht) in AddedTo(root, s.dht, s.tmps[peer].value) && s' == s.(tmps := s.tmps - {peer}, dht := s'.dht)
    else
      !ok && s' == s.(tmps := s.tmps - {peer})
  }

  // The steps of an uninterrupted `tmp_to_dht`, through transit if there is anything to take.
  ghost predicate TmpToDhtSteps(root: PeerId, s: State, peer: PeerId, op: nat, ok: bool, mid: State, s': State)
  {
    && (if peer in s.tmps then Next(root, s, TakeTmp(peer, op, ToDht), mid) && Next(root, mid, LandDht(op), s') else s' == s)
    && (if peer in s.tmps && s.tmps[peer].direct then Placed(ok, s'.dht) in AddedTo(root, s.dht, s.tmps[peer].value) else !ok)
  }

  lemma TmpToDhtExact(root: PeerId, s: State, peer: PeerId, op: nat, ok: bool, mid: State, s': State)
    requires op !in s.flights
    ensures TmpToDhtSteps(root, s, peer, op, ok, mid, s') ==> IsTmpToDht(root, s, peer, ok, s')
  {
    if peer in s.tmps {
      ThereAndBack(s.flights, op, Flight(peer, s.tmps[peer], ToDht));
    } else {
      assert s.tmps - {peer} == s.tmps;
    }
  }

  // ---------------------------------------------------------------- every run

  ghost predicate IsRun(root: PeerId, steps: seq<Step>, ss: seq<State>)
  {
    && |ss| == |steps| + 1
    && ss[0] == State(map[], map[], map[], map[], {}, {})
    && forall i :: 0 <= i < |steps| ==> Next(root, ss[i], steps[i], ss[i + 1])
  }

  // After every interleaving of registry steps a handle is in at most one place, and a
  // handle that was made as relayed is not in the routing table.
  lemma {:induction false} EveryRun(root: PeerId, steps: seq<Step>, ss: seq<State>, n: nat)
    requires IsRun(root, steps, ss) && n < |ss|
    ensures Single(ss[n]) && Flagged(ss[n])
    ensures forall p :: p in ss[n].dht ==> ss[n].dht[p].session !in ss[n].relayed
  {
    if n == 0 {
    } else {
      EveryRun(root, steps, ss, n - 1);
      assert Next(root, ss[n - 1], steps[n - 1], ss[n - 1 + 1]);
      StepKeepsSingle(root, ss[n - 1], steps[n - 1], ss[n]);
      StepKeepsFlags(root, ss[n - 1], steps[n - 1], ss[n]);
    }
  }

  // Relayed handles stay relayed: once in the history, always in it.
  lemma {:induction false} RelayedForGood(root: PeerId, steps: seq<Step>, ss: seq<State>, m: nat, n: nat, h: Sender)
    requires IsRun(root, steps, ss) && m <= n < |ss| && h in ss[m].relayed
    ensures h in ss[n].relayed && forall p :: p in ss[n].dht ==> ss[n].dht[p].session != h
  {
    EveryRun(root, steps, ss, n);
    if m == n {
    } else {
      RelayedForGood(root, steps, ss, m, n - 1, h);
      assert Next(root, ss[n - 1], steps[n - 1], ss[n - 1 + 1]);
    }
  }
}
